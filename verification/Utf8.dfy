/**
 * Lossy UTF-8 decoding (section 3 of RFC 3629) as `String::from_utf8_lossy` performs it: the input is cut into
 * units, each one scalar value or one maximal ill-formed subpart that becomes U+FFFD.
 *
 * A unit keeps the bytes it was read from, so the decoded text is never needed as numbers.
 */
module Utf8 {
  import opened Bytes

  datatype Unit = Ascii(code: Byte) | Wide(raw: seq<Byte>, valid: bool)
  {
    /** The first input byte of the unit; every scanner decision depends on it alone. */
    function Key(): Byte {
      match this
      case Ascii(code) => code
      case Wide(raw, _) => if raw == [] then 0x80 else raw[0]
    }

    /** The bytes the unit contributes to the decoded string. */
    function Text(): seq<Byte> {
      match this
      case Ascii(code) => [code]
      case Wide(raw, valid) => if valid then raw else [0xEF, 0xBF, 0xBD]
    }
  }

  predicate IsContinuation(b: Byte) { 0x80 <= b < 0xC0 }

  /** How many bytes a well-formed sequence led by `lead` has; 1 when `lead` leads none. */
  function SequenceLength(lead: Byte): nat {
    if 0xC2 <= lead <= 0xDF then 2
    else if 0xE0 <= lead <= 0xEF then 3
    else if 0xF0 <= lead <= 0xF4 then 4
    else 1
  }

  predicate SecondByteFits(lead: Byte, b: Byte) {
    if lead == 0xE0 then 0xA0 <= b <= 0xBF
    else if lead == 0xED then 0x80 <= b <= 0x9F
    else if lead == 0xF0 then 0x90 <= b <= 0xBF
    else if lead == 0xF4 then 0x80 <= b <= 0x8F
    else IsContinuation(b)
  }

  /** The length of the first unit of `s`. */
  function UnitLength(s: seq<Byte>): (n: nat)
    requires s != []
    ensures 1 <= n <= |s| && n <= SequenceLength(s[0])
    ensures forall i :: 1 <= i < n ==> IsContinuation(s[i])
  {
    var n := SequenceLength(s[0]);
    if n == 1 || |s| < 2 || !SecondByteFits(s[0], s[1]) then 1
    else if n == 2 || |s| < 3 || !IsContinuation(s[2]) then 2
    else if n == 3 || |s| < 4 || !IsContinuation(s[3]) then 3
    else 4
  }

  function FirstUnit(s: seq<Byte>): Unit
    requires s != []
  {
    if s[0] < 0x80 then Ascii(s[0])
    else
      var n := UnitLength(s);
      Wide(s[..n], 2 <= n == SequenceLength(s[0]))
  }

  function Decode(s: seq<Byte>): seq<Unit> {
    if s == [] then [] else [FirstUnit(s)] + Decode(s[UnitLength(s)..])
  }

  /** The decoded string: the text of every unit in order. */
  function TextOf(units: seq<Unit>): seq<Byte> {
    if units == [] then [] else units[0].Text() + TextOf(units[1..])
  }

  // ---------------------------------------------------------------------
  // The hold-back check for a code point cut off by the end of a frame
  // ---------------------------------------------------------------------

  /** The length the hold-back check expects from the lead byte's bit pattern; 0 when it expects none. */
  function PatternLength(b: Byte): nat {
    if 0xC0 <= b < 0xE0 then 2
    else if 0xE0 <= b < 0xF0 then 3
    else if 0xF0 <= b < 0xF8 then 4
    else 0
  }

  /** How many trailing bytes of `s` are held back when only `s[..j]` is left to search for the lead byte. */
  function TailHoldFrom(s: seq<Byte>, j: nat): (h: nat)
    requires j <= |s|
    requires forall i :: j <= i < |s| ==> IsContinuation(s[i])
    ensures h <= |s|
    ensures h > 0 ==> 0xC0 <= s[|s| - h] < 0xF8 && forall i :: |s| - h < i < |s| ==> IsContinuation(s[i])
  {
    if j == 0 then 0
    else
      var b := s[j - 1];
      if b < 0x80 then 0
      else if IsContinuation(b) then TailHoldFrom(s, j - 1)
      else if |s| - (j - 1) < PatternLength(b) then |s| - (j - 1)
      else 0
  }

  function TailHold(s: seq<Byte>): (h: nat)
    ensures h <= |s|
    ensures h > 0 ==> 0xC0 <= s[|s| - h] < 0xF8 && forall i :: |s| - h < i < |s| ==> IsContinuation(s[i])
  {
    TailHoldFrom(s, |s|)
  }

  /** The backward search of the hold-back check, as the loop that performs it. */
  method FindTailHold(bytes: seq<Byte>) returns (hold: nat)
    ensures hold == TailHold(bytes)
  {
    var j := |bytes|;
    while j > 0
      invariant 0 <= j <= |bytes|
      invariant forall i :: j <= i < |bytes| ==> IsContinuation(bytes[i])
      invariant TailHold(bytes) == TailHoldFrom(bytes, j)
    {
      j := j - 1;
      var b := bytes[j];
      if b < 0x80 {
        break;
      }
      if 0xC0 <= b {
        var expected: nat;
        if b < 0xE0 {
          expected := 2;
        } else if b < 0xF0 {
          expected := 3;
        } else if b < 0xF8 {
          expected := 4;
        } else {
          return 0;
        }
        var actual := |bytes| - j;
        if actual < expected {
          return actual;
        }
        return 0;
      }
    }
    return 0;
  }

  /** A search that never reaches into a prefix does not depend on it. */
  lemma {:induction false} TailHoldFromDrop(s: seq<Byte>, j: nat, k: nat)
    requires k <= j <= |s|
    requires forall i :: j <= i < |s| ==> IsContinuation(s[i])
    ensures forall i :: j - k <= i < |s[k..]| ==> IsContinuation(s[k..][i])
    ensures TailHoldFrom(s, j) == 0 ==> TailHoldFrom(s[k..], j - k) == 0
  {
    if j > k && IsContinuation(s[j - 1]) {
      TailHoldFromDrop(s, j - 1, k);
    }
  }

  /** When the first unit takes all of `a` and nothing is held back, no continuation can extend that unit. */
  lemma {:induction false} WholeUnitIsClosed(a: seq<Byte>, b: seq<Byte>)
    requires a != [] && UnitLength(a) == |a| && TailHold(a) == 0
    ensures UnitLength(a + b) == |a|
  {
    assert (a + b)[0] == a[0];
    if 0xC0 <= a[0] {
      LeadOfContinuations(a, |a|);
    }
  }

  lemma {:induction false} LeadOfContinuations(a: seq<Byte>, j: nat)
    requires 1 <= j <= |a| && 0xC0 <= a[0]
    requires forall i :: 1 <= i < |a| ==> IsContinuation(a[i])
    ensures TailHoldFrom(a, j) == if |a| < PatternLength(a[0]) then |a| else 0
  {
    if j > 1 {
      LeadOfContinuations(a, j - 1);
    }
  }

  /** A cut is a decoding boundary when nothing before it is held back, or no continuation byte follows it. */
  predicate CutsCleanly(a: seq<Byte>, b: seq<Byte>) {
    TailHold(a) == 0 || b == [] || !IsContinuation(b[0])
  }

  lemma {:induction false} FirstUnitOfPrefix(a: seq<Byte>, b: seq<Byte>)
    requires a != [] && CutsCleanly(a, b)
    ensures UnitLength(a + b) == UnitLength(a) && FirstUnit(a + b) == FirstUnit(a)
  {
    var n := UnitLength(a);
    assert (a + b)[0] == a[0];
    assert forall i :: 0 <= i < |a| ==> (a + b)[i] == a[i];
    if n == |a| && TailHold(a) == 0 {
      WholeUnitIsClosed(a, b);
    }
    if b != [] {
      assert (a + b)[|a|] == b[0];
    } else {
      assert a + b == a;
    }
    assert (a + b)[..n] == a[..n];
  }

  lemma {:induction false} CleanCutDrops(a: seq<Byte>, b: seq<Byte>)
    requires a != [] && CutsCleanly(a, b)
    ensures CutsCleanly(a[UnitLength(a)..], b)
  {
    if TailHold(a) == 0 {
      var n := UnitLength(a);
      TailHoldFromDrop(a, |a|, n);
    }
  }

  /** The first unit comes off `a` and off `a + b` alike. */
  lemma {:induction false} PeelUnit(a: seq<Byte>, b: seq<Byte>) returns (u: Unit, rest: seq<Byte>)
    requires a != [] && CutsCleanly(a, b)
    ensures |rest| < |a| && CutsCleanly(rest, b)
    ensures Decode(a) == [u] + Decode(rest)
    ensures Decode(a + b) == [u] + Decode(rest + b)
  {
    var n := UnitLength(a);
    u, rest := FirstUnit(a), a[n..];
    FirstUnitOfPrefix(a, b);
    CleanCutDrops(a, b);
    assert (a + b)[n..] == rest + b;
  }

  /** Decoding distributes over a clean cut. */
  lemma {:induction false} DecodeSplits(a: seq<Byte>, b: seq<Byte>)
    requires CutsCleanly(a, b)
    ensures Decode(a + b) == Decode(a) + Decode(b)
    decreases |a|
  {
    hide CutsCleanly, FirstUnit, UnitLength;
    if a == [] {
      assert a + b == b;
    } else {
      var u, rest := PeelUnit(a, b);
      DecodeSplits(rest, b);
    }
  }
}
