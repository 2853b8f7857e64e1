/**
 * Turning the protection and failure words of a status frame into the
 * status strings the BMS reports (coordinator.py, `_decode_protection_flags`
 * and `_decode_failure_flags`).
 */
module Flags {

  /** One entry of the protection table: a bit mask and its label.
      The table's order is the insertion order of the source's dictionary. */
  type FlagTable = seq<(bv32, string)>

  // ---------------------------------------------------------------------
  // Joining and splitting ", "-separated labels
  // ---------------------------------------------------------------------

  /** `", ".join(parts)` */
  function Join(parts: seq<string>): string
  {
    if parts == [] then ""
    else if |parts| == 1 then parts[0]
    else parts[0] + ", " + Join(parts[1..])
  }

  /** Position of the first ',' in `s`, or `|s|` when there is none. */
  function CommaIndex(s: string): (k: nat)
    ensures k <= |s|
    ensures k < |s| ==> s[k] == ','
    ensures forall i :: 0 <= i < k ==> s[i] != ','
  {
    if s == [] then 0
    else if s[0] == ',' then 0
    else 1 + CommaIndex(s[1..])
  }

  /** Splits a status string at its ", " separators: the inverse of `Join`
      for labels that contain no comma. */
  function SplitLabels(s: string): seq<string>
    decreases |s|
  {
    var k := CommaIndex(s);
    if k == |s| then [s]
    else if k + 2 <= |s| then [s[..k]] + SplitLabels(s[k + 2..])
    else [s[..k]]
  }

  predicate CommaFree(name: string)
  {
    ',' !in name
  }

  lemma {:induction false} CommaIndexOfLabel(l: string, rest: string)
    requires CommaFree(l)
    ensures CommaIndex(l + rest) == |l| + CommaIndex(rest)
    decreases |l|
  {
    if l != [] {
      assert (l + rest)[0] == l[0];
      assert (l + rest)[1..] == l[1..] + rest;
      CommaIndexOfLabel(l[1..], rest);
    } else {
      assert l + rest == rest;
    }
  }

  /** Labels without commas can be recovered from the joined string. */
  lemma {:induction false} SplitJoin(parts: seq<string>)
    requires |parts| > 0
    requires forall i :: 0 <= i < |parts| ==> CommaFree(parts[i])
    ensures SplitLabels(Join(parts)) == parts
    decreases |parts|
  {
    if |parts| == 1 {
      CommaIndexOfLabel(parts[0], "");
      assert parts[0] + "" == parts[0];
    } else {
      JoinSplitsAtFirstLabel(parts);
      SplitJoin(parts[1..]);
      assert SplitLabels(Join(parts)) == [parts[0]] + SplitLabels(Join(parts[1..]));
      assert parts == [parts[0]] + parts[1..];
    }
  }

  /** The first ", " of a join of several labels follows the first label. */
  lemma JoinSplitsAtFirstLabel(parts: seq<string>)
    requires |parts| > 1 && CommaFree(parts[0])
    ensures var s := Join(parts); var k := |parts[0]|;
            CommaIndex(s) == k && k + 2 <= |s| && s[..k] == parts[0] && s[k + 2..] == Join(parts[1..])
  {
    var s := parts[0] + ", " + Join(parts[1..]);
    assert s == parts[0] + (", " + Join(parts[1..]));
    CommaIndexOfLabel(parts[0], ", " + Join(parts[1..]));
    var k := |parts[0]|;
    assert s[..k] == parts[0];
    assert s[k + 2..] == Join(parts[1..]);
  }

  // ---------------------------------------------------------------------
  // Protection flags
  // ---------------------------------------------------------------------

  /** `flags & mask` is nonzero. */
  predicate Hits(flags: bv32, mask: bv32)
  {
    flags & mask != 0
  }

  /** The labels of the table entries whose mask shares a bit with `flags`,
      in table order. */
  function MatchingLabels(table: FlagTable, flags: bv32): (labels: seq<string>)
    ensures |labels| <= |table|
  {
    if table == [] then []
    else
      var last := table[|table| - 1];
      MatchingLabels(table[..|table| - 1], flags) + (if Hits(flags, last.0) then [last.1] else [])
  }

  /** The protection status string for `flags`. */
  function ProtectionStatus(table: FlagTable, flags: bv32): (r: string)
    ensures flags == 0 ==> r == "OK"
    ensures r != "OK" ==> flags != 0 && MatchingLabels(table, flags) != []
  {
    if flags == 0 then "OK"
    else
      var labels := MatchingLabels(table, flags);
      if labels == [] then "OK" else Join(labels)
  }

  /** A zero word matches no entry of any table. */
  lemma {:induction false} ZeroMatchesNothing(table: FlagTable)
    ensures MatchingLabels(table, 0) == []
    decreases |table|
  {
    if table != [] {
      ZeroMatchesNothing(table[..|table| - 1]);
    }
  }

  /** Every reported label belongs to a table entry whose mask shares a bit with `flags`. */
  lemma {:induction false} MatchingLabelSound(table: FlagTable, flags: bv32, k: nat) returns (i: nat)
    requires k < |MatchingLabels(table, flags)|
    ensures i < |table| && table[i].1 == MatchingLabels(table, flags)[k] && Hits(flags, table[i].0)
    decreases |table|
  {
    var init := table[..|table| - 1];
    var last := table[|table| - 1];
    var front := MatchingLabels(init, flags);
    var tail := if Hits(flags, last.0) then [last.1] else [];
    assert MatchingLabels(table, flags) == front + tail;
    if k < |front| {
      i := MatchingLabelSound(init, flags, k);
      assert init[i] == table[i];
    } else {
      i := |table| - 1;
    }
  }

  /** Every table entry whose mask shares a bit with `flags` is reported. */
  lemma {:induction false} MatchingLabelComplete(table: FlagTable, flags: bv32, i: nat)
    requires i < |table| && Hits(flags, table[i].0)
    ensures table[i].1 in MatchingLabels(table, flags)
    decreases |table|
  {
    var init := table[..|table| - 1];
    if i < |init| {
      assert init[i] == table[i];
      MatchingLabelComplete(init, flags, i);
    }
  }

  /** The status string is "OK" exactly when no table bit is set, provided
      no label is itself "OK" and labels contain no commas; otherwise the
      matching labels can be read back from it. */
  lemma ProtectionStatusMeaning(table: FlagTable, flags: bv32)
    requires forall i :: 0 <= i < |table| ==> CommaFree(table[i].1) && table[i].1 != "OK"
    ensures ProtectionStatus(table, flags) == "OK" <==> MatchingLabels(table, flags) == []
    ensures MatchingLabels(table, flags) != [] ==>
              SplitLabels(ProtectionStatus(table, flags)) == MatchingLabels(table, flags)
  {
    ZeroMatchesNothing(table);
    var labels := MatchingLabels(table, flags);
    if labels != [] {
      forall i | 0 <= i < |labels| ensures CommaFree(labels[i]) && labels[i] != "OK" {
        var j := MatchingLabelSound(table, flags, i);
      }
      SplitJoin(labels);
    }
  }

  /** `_decode_protection_flags`: collects the matching labels in a loop. */
  method DecodeProtectionFlags(table: FlagTable, flags: bv32) returns (r: string)
    ensures flags == 0 ==> r == "OK"
    ensures MatchingLabels(table, flags) == [] ==> r == "OK"
    ensures flags != 0 && MatchingLabels(table, flags) != [] ==> r == Join(MatchingLabels(table, flags))
    ensures r == ProtectionStatus(table, flags)
  {
    if flags == 0 {
      ZeroMatchesNothing(table);
      return "OK";
    }
    var parts: seq<string> := [];
    var i := 0;
    while i < |table|
      invariant 0 <= i <= |table|
      invariant parts == MatchingLabels(table[..i], flags)
    {
      assert table[..i + 1][..i] == table[..i];
      if Hits(flags, table[i].0) {
        parts := parts + [table[i].1];
      }
      i := i + 1;
    }
    assert table[..i] == table;
    r := if parts != [] then Join(parts) else "OK";
  }

  // ---------------------------------------------------------------------
  // Failure flags
  // ---------------------------------------------------------------------

  const HEX_DIGITS: string := "0123456789ABCDEF"

  function Pow16(n: nat): (p: nat)
    ensures p >= 1
  {
    if n == 0 then 1 else 16 * Pow16(n - 1)
  }

  /** The value of one upper-case hexadecimal digit. */
  function DigitValue(c: char): (v: nat)
    ensures v < 16
  {
    if '0' <= c <= '9' then c as int - '0' as int
    else if 'A' <= c <= 'F' then c as int - 'A' as int + 10
    else 0
  }

  /** `x` as exactly `n` upper-case hexadecimal digits, most significant first. */
  function Hex(x: nat, n: nat): (s: string)
    ensures |s| == n
    ensures forall i :: 0 <= i < n ==> s[i] in HEX_DIGITS
  {
    if n == 0 then "" else Hex(x / 16, n - 1) + [HEX_DIGITS[x % 16]]
  }

  /** Reads a string of hexadecimal digits back into a number. */
  function ParseHex(s: string): nat
  {
    if s == [] then 0 else 16 * ParseHex(s[..|s| - 1]) + DigitValue(s[|s| - 1])
  }

  lemma {:induction false} HexRoundTrip(x: nat, n: nat)
    requires x < Pow16(n)
    ensures ParseHex(Hex(x, n)) == x
    decreases n
  {
    if n > 0 {
      var s := Hex(x, n);
      assert s[..|s| - 1] == Hex(x / 16, n - 1);
      assert s[|s| - 1] == HEX_DIGITS[x % 16];
      assert x / 16 < Pow16(n - 1);
      HexRoundTrip(x / 16, n - 1);
      HexDigitValue(x % 16);
      assert x == 16 * (x / 16) + x % 16;
    }
  }

  /** Each hexadecimal digit reads back as its own value. */
  lemma HexDigitValue(d: nat)
    requires d < 16
    ensures DigitValue(HEX_DIGITS[d]) == d
  {
    if d < 10 {
      assert HEX_DIGITS[d] as int == '0' as int + d;
    } else {
      assert HEX_DIGITS[d] as int == 'A' as int + d - 10;
    }
  }

  /** `_decode_failure_flags` for a 32-bit word: "OK" when no failure bit is
      set, otherwise "Error: 0x" and the word as eight upper-case hex digits. */
  function FailureStatus(flags: nat): (r: string)
    requires flags < 0x1_0000_0000
    ensures r == "OK" <==> flags == 0
    ensures flags != 0 ==> |r| == 17 && r[..9] == "Error: 0x"
    ensures flags != 0 ==> (forall i :: 9 <= i < 17 ==> r[i] in HEX_DIGITS) && ParseHex(r[9..]) == flags
  {
    if flags == 0 then "OK"
    else
      assert Pow16(8) == 0x1_0000_0000;
      HexRoundTrip(flags, 8);
      var r := "Error: 0x" + Hex(flags, 8);
      assert r[9..] == Hex(flags, 8);
      r
  }
}
