/**
 * Choosing the notify source and the write target among the services a
 * connected BMS offers (the selection loop inside
 * `_ensure_connected`, coordinator.py).
 */
module Gatt {
  import opened Wrappers

  /** A GATT characteristic: a handle that tells equal-looking ones apart,
      its UUID as the transport reports it, and its property names. */
  datatype Characteristic = Characteristic(handle: nat, uuid: string, properties: set<string>)

  datatype Service = Service(uuid: string, characteristics: seq<Characteristic>)

  /** The lower-case UUIDs the engine looks for. */
  datatype Uuids = Uuids(service: string, notify: string, write: string)

  function LowerChar(c: char): char
  {
    if 'A' <= c <= 'Z' then (c as int - 'A' as int + 'a' as int) as char else c
  }

  /** ASCII lower-casing, as applied to every UUID before comparison. */
  function Lower(s: string): (r: string)
    ensures |r| == |s|
  {
    seq(|s|, i requires 0 <= i < |s| => LowerChar(s[i]))
  }

  predicate Writable(c: Characteristic)
  {
    "write-without-response" in c.properties || "write" in c.properties
  }

  /** The three ways a characteristic of the BMS service can be chosen. */
  datatype Role = NotifySource | PreferredWrite | FallbackWrite

  predicate Fits(c: Characteristic, role: Role, ids: Uuids)
  {
    match role
    case NotifySource => "notify" in c.properties && Lower(c.uuid) == ids.notify
    case PreferredWrite => Writable(c) && Lower(c.uuid) == ids.write
    case FallbackWrite => Writable(c) && Lower(c.uuid) != ids.write && Lower(c.uuid) == ids.notify
  }

  /** The characteristics of the BMS service(s), in discovery order. */
  function Candidates(services: seq<Service>, ids: Uuids): seq<Characteristic>
  {
    if services == [] then []
    else
      var last := services[|services| - 1];
      Candidates(services[..|services| - 1], ids) +
        (if Lower(last.uuid) == ids.service then last.characteristics else [])
  }

  /** The last candidate fitting `role`. */
  function LastFit(cs: seq<Characteristic>, role: Role, ids: Uuids): (r: Option<Characteristic>)
    ensures r.Some? ==> Fits(r.value, role, ids)
  {
    if cs == [] then None
    else if Fits(cs[|cs| - 1], role, ids) then Some(cs[|cs| - 1])
    else LastFit(cs[..|cs| - 1], role, ids)
  }

  /** The first candidate fitting `role`. */
  function FirstFit(cs: seq<Characteristic>, role: Role, ids: Uuids): (r: Option<Characteristic>)
    ensures r.Some? ==> Fits(r.value, role, ids)
  {
    if cs == [] then None
    else if Fits(cs[0], role, ids) then Some(cs[0])
    else FirstFit(cs[1..], role, ids)
  }

  /** The notify source: the last notifying characteristic with the notify UUID. */
  function NotifyChoice(cs: seq<Characteristic>, ids: Uuids): (r: Option<Characteristic>)
    ensures r.Some? ==> "notify" in r.value.properties && Lower(r.value.uuid) == ids.notify
  {
    LastFit(cs, NotifySource, ids)
  }

  /** The write target: the last writable characteristic with the write UUID;
      failing that, the first writable one with the notify UUID. */
  function WriteChoice(cs: seq<Characteristic>, ids: Uuids): (r: Option<Characteristic>)
    ensures r.Some? ==> Writable(r.value) && (Lower(r.value.uuid) == ids.write || Lower(r.value.uuid) == ids.notify)
  {
    var preferred := LastFit(cs, PreferredWrite, ids);
    if preferred.Some? then preferred else FirstFit(cs, FallbackWrite, ids)
  }

  lemma {:induction false} LastFitMeaning(cs: seq<Characteristic>, role: Role, ids: Uuids)
    ensures LastFit(cs, role, ids).None? <==> forall i :: 0 <= i < |cs| ==> !Fits(cs[i], role, ids)
    ensures LastFit(cs, role, ids).Some? ==>
              exists i :: 0 <= i < |cs| && cs[i] == LastFit(cs, role, ids).value && Fits(cs[i], role, ids) &&
                forall j :: i < j < |cs| ==> !Fits(cs[j], role, ids)
    decreases |cs|
  {
    if cs != [] {
      var init := cs[..|cs| - 1];
      LastFitMeaning(init, role, ids);
      assert forall i :: 0 <= i < |init| ==> init[i] == cs[i];
      if !Fits(cs[|cs| - 1], role, ids) && LastFit(init, role, ids).Some? {
        var i :| 0 <= i < |init| && init[i] == LastFit(init, role, ids).value && Fits(init[i], role, ids) &&
                 forall j :: i < j < |init| ==> !Fits(init[j], role, ids);
        assert cs[i] == LastFit(cs, role, ids).value;
      }
    }
  }

  lemma {:induction false} FirstFitMeaning(cs: seq<Characteristic>, role: Role, ids: Uuids)
    ensures FirstFit(cs, role, ids).None? <==> forall i :: 0 <= i < |cs| ==> !Fits(cs[i], role, ids)
    ensures FirstFit(cs, role, ids).Some? ==>
              exists i :: 0 <= i < |cs| && cs[i] == FirstFit(cs, role, ids).value && Fits(cs[i], role, ids) &&
                forall j :: 0 <= j < i ==> !Fits(cs[j], role, ids)
    decreases |cs|
  {
    if cs != [] {
      FirstFitMeaning(cs[1..], role, ids);
      assert forall i :: 0 <= i < |cs| - 1 ==> cs[1..][i] == cs[i + 1];
      if !Fits(cs[0], role, ids) && FirstFit(cs[1..], role, ids).Some? {
        var i :| 0 <= i < |cs[1..]| && cs[1..][i] == FirstFit(cs[1..], role, ids).value &&
                 Fits(cs[1..][i], role, ids) && forall j :: 0 <= j < i ==> !Fits(cs[1..][j], role, ids);
        assert cs[i + 1] == FirstFit(cs, role, ids).value;
      }
      if forall i :: 0 <= i < |cs| - 1 ==> !Fits(cs[1..][i], role, ids) {
        assert forall i :: 1 <= i < |cs| ==> cs[i] == cs[1..][i - 1];
      }
    }
  }

  lemma {:induction false} FirstFitSnoc(cs: seq<Characteristic>, c: Characteristic, role: Role, ids: Uuids)
    ensures FirstFit(cs + [c], role, ids) ==
              if FirstFit(cs, role, ids).Some? then FirstFit(cs, role, ids)
              else if Fits(c, role, ids) then Some(c) else None
    decreases |cs|
  {
    if cs == [] {
      assert [] + [c] == [c];
    } else {
      assert (cs + [c])[0] == cs[0] && (cs + [c])[1..] == cs[1..] + [c];
      FirstFitSnoc(cs[1..], c, role, ids);
    }
  }

  lemma LastFitSnoc(cs: seq<Characteristic>, c: Characteristic, role: Role, ids: Uuids)
    ensures LastFit(cs + [c], role, ids) == if Fits(c, role, ids) then Some(c) else LastFit(cs, role, ids)
  {
    assert (cs + [c])[..|cs|] == cs;
  }

  /** Inspecting one more characteristic updates both choices the way the
      selection loop does: a notify match replaces the notify source, a
      write-UUID match replaces the write target, and a notify-UUID match
      becomes the write target only while there is none. */
  lemma ChoicesStep(seen: seq<Characteristic>, c: Characteristic, ids: Uuids)
    ensures NotifyChoice(seen + [c], ids) ==
              if "notify" in c.properties && Lower(c.uuid) == ids.notify then Some(c) else NotifyChoice(seen, ids)
    ensures WriteChoice(seen + [c], ids) ==
              if Writable(c) && Lower(c.uuid) == ids.write then Some(c)
              else if Writable(c) && Lower(c.uuid) == ids.notify && WriteChoice(seen, ids).None? then Some(c)
              else WriteChoice(seen, ids)
  {
    LastFitSnoc(seen, c, NotifySource, ids);
    LastFitSnoc(seen, c, PreferredWrite, ids);
    FirstFitSnoc(seen, c, FallbackWrite, ids);
  }

  /** A writable characteristic with the write UUID always wins the write
      target; the notify UUID is used for writing only when there is none. */
  lemma WritePreference(cs: seq<Characteristic>, ids: Uuids)
    requires ids.notify != ids.write
    ensures (exists i :: 0 <= i < |cs| && Fits(cs[i], PreferredWrite, ids)) ==>
              WriteChoice(cs, ids).Some? && Lower(WriteChoice(cs, ids).value.uuid) == ids.write
    ensures WriteChoice(cs, ids).Some? && Lower(WriteChoice(cs, ids).value.uuid) == ids.notify ==>
              forall i :: 0 <= i < |cs| ==> !Fits(cs[i], PreferredWrite, ids)
    ensures WriteChoice(cs, ids).Some? ==> Writable(WriteChoice(cs, ids).value)
    ensures WriteChoice(cs, ids).None? <==>
              forall i :: 0 <= i < |cs| ==> !Writable(cs[i]) || (Lower(cs[i].uuid) != ids.write && Lower(cs[i].uuid) != ids.notify)
  {
    LastFitMeaning(cs, PreferredWrite, ids);
    FirstFitMeaning(cs, FallbackWrite, ids);
  }

  /** Both choices are made from the scanned characteristics and fit their roles. */
  lemma ChoicesFit(cs: seq<Characteristic>, ids: Uuids)
    ensures NotifyChoice(cs, ids).Some? ==>
              NotifyChoice(cs, ids).value in cs && "notify" in NotifyChoice(cs, ids).value.properties
    ensures WriteChoice(cs, ids).Some? ==> WriteChoice(cs, ids).value in cs
  {
    LastFitMeaning(cs, NotifySource, ids);
    LastFitMeaning(cs, PreferredWrite, ids);
    FirstFitMeaning(cs, FallbackWrite, ids);
  }

  /** The selection loop of `_ensure_connected`: every characteristic of
      every service is inspected; only those of the BMS service count. */
  method SelectCharacteristics(services: seq<Service>, ids: Uuids)
    returns (notify: Option<Characteristic>, write: Option<Characteristic>)
    ensures notify == NotifyChoice(Candidates(services, ids), ids)
    ensures write == WriteChoice(Candidates(services, ids), ids)
  {
    notify, write := None, None;
    var i := 0;
    while i < |services|
      invariant 0 <= i <= |services|
      invariant notify == NotifyChoice(Candidates(services[..i], ids), ids)
      invariant write == WriteChoice(Candidates(services[..i], ids), ids)
    {
      var service := services[i];
      var inBms := Lower(service.uuid) == ids.service;
      ghost var done := Candidates(services[..i], ids);
      var j := 0;
      assert done + (if inBms then service.characteristics[..j] else []) == done;
      while j < |service.characteristics|
        invariant 0 <= j <= |service.characteristics|
        invariant notify == NotifyChoice(done + if inBms then service.characteristics[..j] else [], ids)
        invariant write == WriteChoice(done + if inBms then service.characteristics[..j] else [], ids)
      {
        var c := service.characteristics[j];
        ghost var seen := done + if inBms then service.characteristics[..j] else [];
        ghost var next := done + if inBms then service.characteristics[..j + 1] else [];
        if inBms {
          assert next == seen + [c];
          ChoicesStep(seen, c, ids);
          if "notify" in c.properties && Lower(c.uuid) == ids.notify {
            notify := Some(c);
          }
          if "write-without-response" in c.properties || "write" in c.properties {
            if Lower(c.uuid) == ids.write {
              write := Some(c);
            } else if Lower(c.uuid) == ids.notify && write.None? {
              write := Some(c);
            }
          }
        }
        j := j + 1;
      }
      assert services[..i + 1][..i] == services[..i];
      assert service.characteristics[..j] == service.characteristics;
      i := i + 1;
    }
    assert services[..i] == services;
  }
}
