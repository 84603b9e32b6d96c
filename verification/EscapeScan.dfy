/**
 * The transcript's forward scanner: it decides how many trailing bytes of a frame are held back because they may
 * be part of an unfinished escape sequence (sections 5.4 and 5.6 of ECMA-48) or of an unfinished UTF-8 code point.
 */
module EscapeScan {
  import opened Bytes
  import opened Utf8

  /**
   * Where a scanner stands inside an escape sequence. `Osc` is an operating system command, `Str` any control
   * string only ST ends (DCS, APC, PM, SOS); the last two states belong to this scanner alone, which skips a
   * nested `ESC [` up to its final byte.
   */
  datatype Mode = Ground | Escape | Csi | Osc | OscEscape | Str | StrEscape | Charset | OscCsi | StrCsi

  predicate IsFinal(b: Byte) { 0x40 <= b <= 0x7E }

  predicate OpensString(b: Byte) { b == 0x50 || b == 0x5F || b == 0x5E || b == 0x58 }

  predicate OpensCharset(b: Byte) {
    b == 0x28 || b == 0x29 || b == 0x23 || b == 0x25 || b == 0x2A || b == 0x2B || b == 0x2D || b == 0x2E || b == 0x2F
  }

  /** One byte of the hold-back scanner. */
  function Track(m: Mode, b: Byte): Mode {
    match m
    case Ground => if b == ESC then Escape else Ground
    case Escape =>
      if b == 0x5B then Csi else if b == 0x5D then Osc
      else if OpensString(b) then Str else if OpensCharset(b) then Charset else Ground
    case Csi => if IsFinal(b) then Ground else Csi
    case Osc => if b == BEL then Ground else if b == ESC then OscEscape else Osc
    case OscEscape => if b == 0x5C then Ground else if b == 0x5B then OscCsi else Osc
    case OscCsi => if IsFinal(b) then Osc else OscCsi
    case Str => if b == ESC then StrEscape else Str
    case StrEscape => if b == 0x5C then Ground else if b == 0x5B then StrCsi else Str
    case StrCsi => if IsFinal(b) then Str else StrCsi
    case Charset => Ground
  }

  function TrackAll(m: Mode, s: seq<Byte>): Mode
    decreases |s|
  {
    if s == [] then m else TrackAll(Track(m, s[0]), s[1..])
  }

  lemma {:induction false} TrackAppend(m: Mode, a: seq<Byte>, b: seq<Byte>)
    ensures TrackAll(m, a + b) == TrackAll(TrackAll(m, a), b)
    decreases |a|
  {
    if a == [] {
      assert a + b == b;
    } else {
      assert (a + b)[1..] == a[1..] + b;
      TrackAppend(Track(m, a[0]), a[1..], b);
    }
  }

  lemma TrackPrefix(s: seq<Byte>, i: nat)
    requires i < |s|
    ensures TrackAll(Ground, s[..i + 1]) == Track(TrackAll(Ground, s[..i]), s[i])
  {
    assert s[..i + 1] == s[..i] + [s[i]];
    TrackAppend(Ground, s[..i], [s[i]]);
    assert TrackAll(TrackAll(Ground, s[..i]), [s[i]]) == Track(TrackAll(Ground, s[..i]), s[i]);
  }

  /** Where the sequence that is still open at the end of `s` began. */
  function OpenAt(s: seq<Byte>): (start: nat)
    requires TrackAll(Ground, s) != Ground
    ensures start < |s| && s[start] == ESC && TrackAll(Ground, s[..start]) == Ground
  {
    var n := |s| - 1;
    TrackPrefix(s, n);
    assert s[..n + 1] == s;
    if TrackAll(Ground, s[..n]) == Ground then n
    else
      var start := OpenAt(s[..n]);
      assert s[..n][..start] == s[..start];
      start
  }

  /** How many trailing bytes of `s` are held back for the next frame. */
  function HoldBack(s: seq<Byte>): (h: nat)
    ensures h <= |s|
  {
    if TrackAll(Ground, s) != Ground then |s| - OpenAt(s) else TailHold(s)
  }

  lemma OpenAtPrefix(s: seq<Byte>, i: nat)
    requires i < |s|
    requires TrackAll(Ground, s[..i + 1]) != Ground
    ensures OpenAt(s[..i + 1]) == if TrackAll(Ground, s[..i]) == Ground then i else OpenAt(s[..i])
  {
    assert s[..i + 1][..i] == s[..i];
  }

  /** What the scanner knows once it has read `s[..i]`: its mode, and where an open sequence began. */
  ghost predicate At(s: seq<Byte>, i: nat, m: Mode, start: nat) {
    i <= |s| && TrackAll(Ground, s[..i]) == m && (m != Ground ==> OpenAt(s[..i]) == start)
  }

  lemma Advance(s: seq<Byte>, i: nat, m: Mode, start: nat)
    requires At(s, i, m, start) && i < |s|
    ensures At(s, i + 1, Track(m, s[i]), if m == Ground then i else start)
  {
    TrackPrefix(s, i);
    if Track(m, s[i]) != Ground {
      OpenAtPrefix(s, i);
    }
  }

  lemma Advance2(s: seq<Byte>, i: nat, m: Mode, start: nat)
    requires At(s, i, m, start) && i + 1 < |s| && Track(m, s[i]) != Ground
    ensures At(s, i + 2, Track(Track(m, s[i]), s[i + 1]), if m == Ground then i else start)
  {
    Advance(s, i, m, start);
    Advance(s, i + 1, Track(m, s[i]), if m == Ground then i else start);
  }

  lemma AtEnd(s: seq<Byte>, m: Mode, start: nat)
    requires At(s, |s|, m, start)
    ensures HoldBack(s) == if m != Ground then |s| - start else TailHold(s)
  {
    assert s[..|s|] == s;
  }

  /** Skips the parameters of a control sequence up to and including its final byte. */
  method SkipToFinal(bytes: seq<Byte>, from: nat, ghost m: Mode, ghost start: nat) returns (i: nat, closed: bool)
    requires m == Csi || m == OscCsi || m == StrCsi
    requires At(bytes, from, m, start)
    ensures from <= i <= |bytes|
    ensures closed ==> At(bytes, i, if m == Csi then Ground else if m == OscCsi then Osc else Str, start)
    ensures !closed ==> i == |bytes| && At(bytes, i, m, start)
  {
    i, closed := from, false;
    while i < |bytes|
      invariant from <= i <= |bytes|
      invariant At(bytes, i, m, start)
    {
      Advance(bytes, i, m, start);
      if 0x40 <= bytes[i] <= 0x7E {
        return i + 1, true;
      }
      i := i + 1;
    }
  }

  /**
   * The body of a control string opened at `start`: BEL ends it only when `bell` holds, ST always does. When the
   * frame ends first, `closed` is false and everything from `start` on is to be held back.
   */
  method SkipControlString(bytes: seq<Byte>, from: nat, bell: bool, ghost start: nat) returns (i: nat, closed: bool)
    requires At(bytes, from, if bell then Osc else Str, start)
    ensures from <= i <= |bytes|
    ensures closed ==> At(bytes, i, Ground, start)
    ensures !closed ==> exists m :: m != Ground && At(bytes, |bytes|, m, start)
  {
    i, closed := from, false;
    ghost var body := if bell then Osc else Str;
    while i < |bytes|
      invariant from <= i <= |bytes|
      invariant At(bytes, i, body, start)
    {
      if bell && bytes[i] == BEL {
        Advance(bytes, i, body, start);
        return i + 1, true;
      }
      if bytes[i] == ESC {
        if i + 1 >= |bytes| {
          Advance(bytes, i, body, start);
          return i, false;
        }
        Advance2(bytes, i, body, start);
        if bytes[i + 1] == 0x5C {
          return i + 2, true;
        }
        if bytes[i + 1] == 0x5B {
          var complete;
          i, complete := SkipToFinal(bytes, i + 2, if bell then OscCsi else StrCsi, start);
          if !complete {
            return i, false;
          }
          continue;
        }
        i := i + 2;
        continue;
      }
      Advance(bytes, i, body, start);
      i := i + 1;
    }
  }

  /** The scan from the start of the frame, tracking the sequence that is open. */
  method TrailingIncompleteBytes(bytes: seq<Byte>) returns (hold: nat)
    ensures hold == HoldBack(bytes)
  {
    var i := 0;
    while i < |bytes|
      invariant 0 <= i <= |bytes|
      invariant At(bytes, i, Ground, 0)
    {
      if bytes[i] != ESC {
        Advance(bytes, i, Ground, 0);
        i := i + 1;
        continue;
      }
      if i + 1 >= |bytes| {
        Advance(bytes, i, Ground, 0);
        AtEnd(bytes, Escape, i);
        return 1;
      }
      Advance2(bytes, i, Ground, 0);
      var next := bytes[i + 1];
      var start := i;
      if next == 0x5B {
        var closed;
        i, closed := SkipToFinal(bytes, i + 2, Csi, start);
        if !closed {
          AtEnd(bytes, Csi, start);
          return |bytes| - start;
        }
      } else if next == 0x5D || OpensString(next) {
        var closed;
        i, closed := SkipControlString(bytes, i + 2, next == 0x5D, start);
        if !closed {
          ghost var m :| m != Ground && At(bytes, |bytes|, m, start);
          AtEnd(bytes, m, start);
          return |bytes| - start;
        }
      } else if OpensCharset(next) {
        if i + 2 >= |bytes| {
          AtEnd(bytes, Charset, start);
          return |bytes| - i;
        }
        Advance(bytes, i + 2, Charset, start);
        i := i + 3;
      } else {
        i := i + 2;
      }
    }
    AtEnd(bytes, Ground, 0);
    hold := FindTailHold(bytes);
  }
}
