/**
 * The reassembly of status responses from notification packets
 * (coordinator.py, `_notification_handler`), as a pure transition
 * function. The class `Coordinator.LitimeBmsCoordinator` keeps these three
 * values in its fields and is proved to follow `Receive`.
 */
module Reassembly {
  import opened Wrappers
  import opened Bytes
  import opened Frames

  /** The partial response being accumulated, the last complete response
      handed over, and whether the response event is set. */
  datatype Reassembler = Reassembler(buffer: seq<byte>, response: Option<seq<byte>>, eventSet: bool)

  /** The state right before a status query is sent: buffer, response slot
      and event all cleared. */
  const Cleared := Reassembler([], None, false)

  /** A packet whose third byte is the response marker begins a new response. */
  predicate IsResponseStart(packet: seq<byte>)
  {
    |packet| > RESPONSE_MARKER_OFFSET && packet[RESPONSE_MARKER_OFFSET] == RESPONSE_MARKER_VALUE
  }

  /** Handling of one inbound notification packet. */
  function Receive(s: Reassembler, packet: seq<byte>): (r: Reassembler)
    ensures r.eventSet != s.eventSet || r.response != s.response ==>
              r.eventSet && r.buffer == [] && r.response.Some? && |r.response.value| >= MIN_RESPONSE_LENGTH
    ensures r.buffer != [] ==> |r.buffer| < MIN_RESPONSE_LENGTH
  {
    if !IsResponseStart(packet) && |s.buffer| == 0 then s
    else
      var buffer := if IsResponseStart(packet) then packet else s.buffer + packet;
      if |buffer| >= MIN_RESPONSE_LENGTH then Reassembler([], Some(buffer), true)
      else s.(buffer := buffer)
  }

  /** The packets delivered while the engine awaits the event: each is
      handled in turn, and waiting stops once the event is set. */
  function Deliver(s: Reassembler, packets: seq<seq<byte>>): (r: Reassembler)
    ensures s.eventSet ==> r == s
    ensures r.eventSet == s.eventSet ==> r.response == s.response
    ensures packets != [] && !s.eventSet && r.buffer != [] ==> |r.buffer| < MIN_RESPONSE_LENGTH
    decreases |packets|
  {
    if packets == [] || s.eventSet then s else Deliver(Receive(s, packets[0]), packets[1..])
  }

  /** The bytes of a sequence of packets, in order. */
  function Concat(packets: seq<seq<byte>>): seq<byte>
    decreases |packets|
  {
    if packets == [] then [] else packets[0] + Concat(packets[1..])
  }

  /** The reassembler's invariant: a partial buffer is shorter than a
      response and begins with a response-start packet; the event is set
      exactly when a response has been handed over, and that response is
      long enough to decode and begins with the marker. */
  predicate Valid(s: Reassembler)
  {
    && |s.buffer| < MIN_RESPONSE_LENGTH
    && (s.buffer != [] ==> IsResponseStart(s.buffer))
    && (s.eventSet <==> s.response.Some?)
    && (s.response.Some? ==> |s.response.value| >= MIN_RESPONSE_LENGTH && IsResponseStart(s.response.value))
  }

  lemma ClearedValid()
    ensures Valid(Cleared)
  {
  }

  /** Handling a packet keeps the invariant. */
  lemma ReceiveValid(s: Reassembler, packet: seq<byte>)
    requires Valid(s)
    ensures Valid(Receive(s, packet))
  {
    if !IsResponseStart(packet) && s.buffer != [] {
      assert (s.buffer + packet)[..|s.buffer|] == s.buffer;
    }
  }

  lemma {:induction false} DeliverValid(s: Reassembler, packets: seq<seq<byte>>)
    requires Valid(s)
    ensures Valid(Deliver(s, packets))
    decreases |packets|
  {
    if packets != [] && !s.eventSet {
      ReceiveValid(s, packets[0]);
      DeliverValid(Receive(s, packets[0]), packets[1..]);
    }
  }

  /** A response-start packet discards whatever was buffered before it. */
  lemma StartDiscardsBuffer(s: Reassembler, packet: seq<byte>)
    requires IsResponseStart(packet)
    ensures Receive(s, packet) == Receive(s.(buffer := []), packet)
    ensures |packet| < MIN_RESPONSE_LENGTH ==> Receive(s, packet).buffer == packet
  {
  }

  /** Any other packet is dropped, leaving the state as it was, when no
      response has started; and appended to the buffer when one has. */
  lemma ContinuationHandling(s: Reassembler, packet: seq<byte>)
    requires !IsResponseStart(packet)
    ensures s.buffer == [] ==> Receive(s, packet) == s
    ensures s.buffer != [] && |s.buffer + packet| < MIN_RESPONSE_LENGTH ==>
              Receive(s, packet) == s.(buffer := s.buffer + packet)
  {
  }

  /** Once the accumulated bytes reach the minimum length, exactly those
      bytes become the response, the buffer is emptied and the event is set. */
  lemma CompletionHandsOver(s: Reassembler, packet: seq<byte>)
    requires IsResponseStart(packet) || s.buffer != []
    ensures var acc := if IsResponseStart(packet) then packet else s.buffer + packet;
            |acc| >= MIN_RESPONSE_LENGTH ==> Receive(s, packet) == Reassembler([], Some(acc), true)
  {
  }

  /** The last packet's bytes are among the bytes of a sequence of packets. */
  lemma {:induction false} ConcatCoversLast(packets: seq<seq<byte>>)
    requires packets != []
    ensures |Concat(packets)| >= |packets[|packets| - 1]|
    decreases |packets|
  {
    if |packets| > 1 {
      ConcatCoversLast(packets[1..]);
    }
  }

  /** Continuation fragments appended to a started response are handed over
      as one response once, and only once, their total reaches the minimum:
      the bytes before the last fragment fall short, all of them do not. */
  lemma {:induction false} FragmentsConcatenate(s: Reassembler, rest: seq<seq<byte>>)
    requires s.buffer != [] && !s.eventSet && rest != []
    requires forall k :: 0 <= k < |rest| ==> !IsResponseStart(rest[k])
    requires |s.buffer| + |Concat(rest)| - |rest[|rest| - 1]| < MIN_RESPONSE_LENGTH
    requires |s.buffer| + |Concat(rest)| >= MIN_RESPONSE_LENGTH
    ensures Deliver(s, rest) == Reassembler([], Some(s.buffer + Concat(rest)), true)
    decreases |rest|
  {
    var p := rest[0];
    var tail := rest[1..];
    var s' := Receive(s, p);
    assert Deliver(s, rest) == Deliver(s', tail);
    ConcatStep(rest);
    if |rest| == 1 {
      assert s' == Reassembler([], Some(s.buffer + Concat(rest)), true);
    } else {
      ConcatCoversLast(tail);
      assert |s.buffer + p| < MIN_RESPONSE_LENGTH;
      ContinuationHandling(s, p);
      var t := s.(buffer := s.buffer + p);
      assert s' == t;
      NoStartInTail(rest);
      FragmentsConcatenate(t, tail);
      AppendAssociates(s.buffer, p, Concat(tail));
    }
  }

  lemma AppendAssociates(a: seq<byte>, b: seq<byte>, c: seq<byte>)
    ensures (a + b) + c == a + (b + c)
  {
  }

  lemma ConcatStep(packets: seq<seq<byte>>)
    requires packets != []
    ensures Concat(packets) == packets[0] + Concat(packets[1..])
    ensures |packets| == 1 ==> Concat(packets) == packets[0]
    ensures |packets| > 1 ==> packets[1..][|packets| - 2] == packets[|packets| - 1]
  {
    if |packets| == 1 {
      assert Concat(packets[1..]) == [];
      assert packets[0] + [] == packets[0];
    }
  }

  lemma NoStartInTail(packets: seq<seq<byte>>)
    requires packets != []
    requires forall k :: 0 <= k < |packets| ==> !IsResponseStart(packets[k])
    ensures forall k :: 0 <= k < |packets| - 1 ==> !IsResponseStart(packets[1..][k])
  {
    assert forall k :: 0 <= k < |packets| - 1 ==> packets[1..][k] == packets[k + 1];
  }

  /** A response split into a marked first packet and one continuation is
      handed over as their concatenation, and a later unrelated packet is
      dropped without touching it. */
  lemma TwoFragments(first: seq<byte>, second: seq<byte>, later: seq<byte>, more: seq<seq<byte>>)
    requires IsResponseStart(first) && |first| < MIN_RESPONSE_LENGTH
    requires !IsResponseStart(second) && |first| + |second| >= MIN_RESPONSE_LENGTH
    requires !IsResponseStart(later)
    ensures Deliver(Cleared, [first, second] + more) == Reassembler([], Some(first + second), true)
    ensures Receive(Reassembler([], Some(first + second), true), later) == Reassembler([], Some(first + second), true)
  {
    var s := Receive(Cleared, first);
    assert s == Reassembler(first, None, false);
    var ps := [first, second] + more;
    assert ps[0] == first && ps[1..][0] == second;
    assert Deliver(Cleared, ps) == Deliver(s, ps[1..]);
    assert Deliver(s, ps[1..]) == Deliver(Receive(s, second), ps[1..][1..]);
  }

  /** A response is handed over only after at least the minimum number of
      bytes has been delivered since the buffer was cleared. */
  lemma {:induction false} ResponseNeedsEnoughBytes(s: Reassembler, packets: seq<seq<byte>>)
    requires Valid(s) && !s.eventSet
    requires Deliver(s, packets).eventSet
    ensures |s.buffer| + |Concat(packets)| >= MIN_RESPONSE_LENGTH
    decreases |packets|
  {
    var p := packets[0];
    var s' := Receive(s, p);
    assert Concat(packets) == p + Concat(packets[1..]);
    if !s'.eventSet {
      ReceiveValid(s, p);
      ResponseNeedsEnoughBytes(s', packets[1..]);
      assert |s'.buffer| <= |s.buffer| + |p|;
    }
  }
}
