/**
 * Lossy decoding measured against the encoding it undoes (section 3 of RFC 3629): every encoded scalar value is read
 * as itself, and what is none becomes U+FFFD, one for each longest beginning of an encoding.
 */
module Scalars {
  import opened Bytes
  import opened Utf8

  predicate IsScalar(v: nat) { v <= 0x10FFFF && !(0xD800 <= v <= 0xDFFF) }

  function EncodeScalar(v: nat): (q: seq<Byte>)
    requires IsScalar(v)
    ensures 1 <= |q| <= 4
  {
    if v < 0x80 then [v]
    else if v < 0x800 then [0xC0 + v / 64, 0x80 + v % 64]
    else if v < 0x10000 then [0xE0 + v / 4096, 0x80 + v / 64 % 64, 0x80 + v % 64]
    else [0xF0 + v / 262144, 0x80 + v / 4096 % 64, 0x80 + v / 64 % 64, 0x80 + v % 64]
  }

  ghost predicate IsCharacter(q: seq<Byte>) { exists v: nat :: IsScalar(v) && q == EncodeScalar(v) }

  /** Some character begins with these bytes, or is them. */
  ghost predicate BeginsCharacter(p: seq<Byte>) { exists v: nat :: IsScalar(v) && p <= EncodeScalar(v) }

  lemma EncodingsAreUnits(v: nat)
    requires IsScalar(v)
    ensures
      var q := EncodeScalar(v);
      && SequenceLength(q[0]) == |q| && (|q| == 1 <==> q[0] < 0x80)
      && (|q| >= 2 ==> SecondByteFits(q[0], q[1])) && forall i :: 1 <= i < |q| ==> IsContinuation(q[i])
  {
  }

  /** An encoded scalar value is read as one unit, whose text it is, whatever follows. */
  lemma CharacterIsRead(v: nat, rest: seq<Byte>)
    requires IsScalar(v)
    ensures
      var q := EncodeScalar(v);
      UnitLength(q + rest) == |q| && FirstUnit(q + rest).Text() == q
  {
    var q := EncodeScalar(v);
    EncodingsAreUnits(v);
    var s := q + rest;
    assert s[..|q|] == q && forall i :: 0 <= i < |q| ==> s[i] == q[i];
  }

  lemma TwoBytes(lead: int, b1: int)
    requires 0xC2 <= lead <= 0xDF && 0 <= b1 < 64
    ensures var v := (lead - 0xC0) * 64 + b1; IsScalar(v) && EncodeScalar(v) == [lead, 0x80 + b1]
  {
  }

  lemma ThreeBytes(lead: int, b1: int, b2: int)
    requires 0xE0 <= lead <= 0xEF && 0 <= b1 < 64 && 0 <= b2 < 64
    requires (lead == 0xE0 ==> b1 >= 0x20) && (lead == 0xED ==> b1 < 0x20)
    ensures
      var v := (lead - 0xE0) * 4096 + b1 * 64 + b2;
      IsScalar(v) && EncodeScalar(v) == [lead, 0x80 + b1, 0x80 + b2]
  {
    var v: int := (lead - 0xE0) * 4096 + b1 * 64 + b2;
    var high: int := (lead - 0xE0) * 64 + b1;
    assert v == 64 * high + b2;
    assert v / 64 == high && v % 64 == b2 && high % 64 == b1 && v / 4096 == lead - 0xE0;
  }

  lemma FourBytes(lead: int, b1: int, b2: int, b3: int)
    requires 0xF0 <= lead <= 0xF4 && 0 <= b1 < 64 && 0 <= b2 < 64 && 0 <= b3 < 64
    requires (lead == 0xF0 ==> b1 >= 0x10) && (lead == 0xF4 ==> b1 < 0x10)
    ensures
      var v := (lead - 0xF0) * 262144 + b1 * 4096 + b2 * 64 + b3;
      IsScalar(v) && EncodeScalar(v) == [lead, 0x80 + b1, 0x80 + b2, 0x80 + b3]
  {
    var v: int := (lead - 0xF0) * 262144 + b1 * 4096 + b2 * 64 + b3;
    var high: int := (lead - 0xF0) * 64 + b1;
    var middle: int := high * 64 + b2;
    assert v == 64 * middle + b3;
    assert v / 64 == middle && v % 64 == b3 && middle % 64 == b2;
    assert v / 4096 == high && high % 64 == b1 && v / 262144 == lead - 0xF0;
  }

  /** A character that begins with these bytes, the missing ones taken to be 0x80. */
  lemma ValueOf(p: seq<Byte>) returns (v: nat)
    requires p != [] && |p| <= SequenceLength(p[0]) && p[0] >= 0xC2
    requires |p| >= 2 && SecondByteFits(p[0], p[1]) && forall i :: 1 <= i < |p| ==> IsContinuation(p[i])
    ensures IsScalar(v) && p <= EncodeScalar(v)
  {
    hide EncodeScalar, IsScalar;
    var lead: int, b1: int := p[0], p[1] - 0x80;
    var b2: int, b3: int := if |p| > 2 then p[2] - 0x80 else 0, if |p| > 3 then p[3] - 0x80 else 0;
    if lead < 0xE0 {
      v := (lead - 0xC0) * 64 + b1;
      TwoBytes(lead, b1);
    } else if lead < 0xF0 {
      v := (lead - 0xE0) * 4096 + b1 * 64 + b2;
      ThreeBytes(lead, b1, b2);
    } else {
      v := (lead - 0xF0) * 262144 + b1 * 4096 + b2 * 64 + b3;
      FourBytes(lead, b1, b2, b3);
    }
  }

  /**
   * The first unit takes the longest beginning of a character, or one byte if there is none, and is valid exactly
   * when that is a whole character; otherwise it shows as U+FFFD.
   */
  lemma UnitIsMaximal(s: seq<Byte>)
    requires s != []
    ensures
      var n := UnitLength(s);
      && (n == 1 || BeginsCharacter(s[..n]))
      && (forall k :: n < k <= |s| ==> !BeginsCharacter(s[..k]))
      && FirstUnit(s).Text() == (if IsCharacter(s[..n]) then s[..n] else [0xEF, 0xBF, 0xBD])
  {
    hide EncodeScalar, IsScalar;
    var n := UnitLength(s);
    var p := s[..n];
    if n >= 2 {
      var v := ValueOf(p);
      EncodingsAreUnits(v);
    }
    forall k | n < k <= |s|
      ensures !BeginsCharacter(s[..k])
    {
      LongerIsNone(s, k);
    }
    ValidIsCharacter(s);
  }

  lemma LongerIsNone(s: seq<Byte>, k: nat)
    requires s != [] && UnitLength(s) < k <= |s|
    ensures !BeginsCharacter(s[..k])
  {
    hide EncodeScalar, IsScalar;
    forall v: nat | IsScalar(v)
      ensures !(s[..k] <= EncodeScalar(v))
    {
      var q := EncodeScalar(v);
      EncodingsAreUnits(v);
      if s[..k] <= q {
        assert forall i :: 0 <= i < k ==> s[i] == s[..k][i] == q[i];
      }
    }
  }

  lemma ValidIsCharacter(s: seq<Byte>)
    requires s != []
    ensures var p := s[..UnitLength(s)];
      FirstUnit(s).Text() == (if IsCharacter(p) then p else [0xEF, 0xBF, 0xBD])
  {
    hide EncodeScalar, IsScalar;
    var n := UnitLength(s);
    var p := s[..n];
    if s[0] < 0x80 {
      assert n == 1 && p == [s[0]];
      AsciiIsCharacter(s[0]);
    } else {
      if 2 <= n == SequenceLength(s[0]) {
        var v := ValueOf(p);
        EncodingsAreUnits(v);
        assert p == EncodeScalar(v);
      }
      if IsCharacter(p) {
        var v: nat :| IsScalar(v) && p == EncodeScalar(v);
        EncodingsAreUnits(v);
      }
    }
  }

  lemma AsciiIsCharacter(b: Byte)
    requires b < 0x80
    ensures IsCharacter([b])
  {
    assert EncodeScalar(b) == [b];
  }

  // ---------------------------------------------------------------------
  // Whole texts
  // ---------------------------------------------------------------------

  function EncodeAll(scalars: seq<nat>): seq<Byte>
    requires forall v :: v in scalars ==> IsScalar(v)
  {
    if scalars == [] then [] else EncodeScalar(scalars[0]) + EncodeAll(scalars[1..])
  }

  /** Encoded text decodes to itself, and holds nothing back. */
  lemma {:induction false} EncodedTextIsKept(scalars: seq<nat>)
    requires forall v :: v in scalars ==> IsScalar(v)
    ensures TextOf(Decode(EncodeAll(scalars))) == EncodeAll(scalars) && TailHold(EncodeAll(scalars)) == 0
    decreases |scalars|
  {
    hide EncodeScalar, IsScalar, TailHold;
    if scalars == [] {
      NoText();
    } else {
      var q, rest := EncodeScalar(scalars[0]), EncodeAll(scalars[1..]);
      var s := q + rest;
      CharacterIsRead(scalars[0], rest);
      EncodedTextIsKept(scalars[1..]);
      assert s[|q|..] == rest;
      assert Decode(s)[1..] == Decode(rest) && Decode(s)[0] == FirstUnit(s);
      if scalars[1..] != [] {
        EncodingsAreUnits(scalars[1]);
        assert rest[0] == EncodeScalar(scalars[1])[0];
      }
      CharacterHoldsNothing(scalars[0], rest);
    }
  }

  lemma NoText()
    ensures TextOf(Decode([])) == [] && TailHold([]) == 0
  {
  }

  lemma CharacterHoldsNothing(v: nat, rest: seq<Byte>)
    requires IsScalar(v) && TailHold(rest) == 0
    requires rest == [] || !IsContinuation(rest[0])
    ensures TailHold(EncodeScalar(v) + rest) == 0
  {
    hide EncodeScalar, IsScalar;
    var q := EncodeScalar(v);
    EncodingsAreUnits(v);
    if rest == [] {
      assert q + rest == q;
      if |q| > 1 {
        LeadOfContinuations(q, |q|);
      }
    } else {
      TailOfRest(q, rest, |rest|);
    }
  }

  /** A search that meets its lead byte in `rest` does not depend on what is before it. */
  lemma {:induction false} TailOfRest(q: seq<Byte>, rest: seq<Byte>, j: nat)
    requires rest != [] && !IsContinuation(rest[0]) && 1 <= j <= |rest|
    requires forall i :: j <= i < |rest| ==> IsContinuation(rest[i])
    ensures forall i :: |q| + j <= i < |q + rest| ==> IsContinuation((q + rest)[i])
    ensures TailHoldFrom(q + rest, |q| + j) == TailHoldFrom(rest, j)
    decreases j
  {
    assert (q + rest)[|q| + j - 1] == rest[j - 1];
    if IsContinuation(rest[j - 1]) {
      TailOfRest(q, rest, j - 1);
    }
  }

  // ---------------------------------------------------------------------
  // The hold-back check
  // ---------------------------------------------------------------------

  /** A lead byte and continuation bytes, fewer than its bit pattern announces. */
  predicate CutOff(p: seq<Byte>) {
    && p != [] && (forall i :: 1 <= i < |p| ==> 0x80 <= p[i] <= 0xBF)
    && ((0xC0 <= p[0] <= 0xDF && |p| < 2) || (0xE0 <= p[0] <= 0xEF && |p| < 3) || (0xF0 <= p[0] <= 0xF7 && |p| < 4))
  }

  lemma {:induction false} HeldFrom(s: seq<Byte>, j: nat, h: nat)
    requires j <= |s| && forall i :: j <= i < |s| ==> IsContinuation(s[i])
    requires 1 <= h <= |s| && |s| - h < j
    ensures TailHoldFrom(s, j) == h <==> CutOff(s[|s| - h..])
    decreases j
  {
    var p := s[|s| - h..];
    if IsContinuation(s[j - 1]) {
      if |s| - h < j - 1 {
        HeldFrom(s, j - 1, h);
      } else {
        assert p[0] == s[j - 1];
        ShorterFrom(s, j - 1, h);
      }
    } else if |s| - h == j - 1 {
      assert p[0] == s[j - 1] && forall i :: 1 <= i < |p| ==> p[i] == s[j - 1 + i];
    } else {
      assert p[j - 1 - (|s| - h)] == s[j - 1];
    }
  }

  lemma ShorterFrom(s: seq<Byte>, j: nat, h: nat)
    requires j <= |s| && forall i :: j <= i < |s| ==> IsContinuation(s[i])
    requires h == |s| - j
    ensures TailHoldFrom(s, j) != h || h == 0
  {
  }

  /** The bytes held back are exactly the cut-off ones at the end. */
  lemma TailHoldIsCutOff(s: seq<Byte>, h: nat)
    requires 1 <= h <= |s|
    ensures TailHold(s) == h <==> CutOff(s[|s| - h..])
  {
    HeldFrom(s, |s|, h);
  }
}
