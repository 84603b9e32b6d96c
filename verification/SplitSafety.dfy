/**
 * Stripping frame by frame against stripping the whole stream at once. Two hand-written scanners read the same
 * language: `EscapeScan` decides where a frame may be cut, `StripAnsi` drops the escapes. Here they are run side by
 * side; the streams on which the cuts never show are exactly those on which the two runs never part.
 */
module SplitSafety {
  import opened Bytes
  import opened Utf8
  import opened EscapeScan
  import opened StripAnsi

  // ---------------------------------------------------------------------
  // The two scanners side by side
  // ---------------------------------------------------------------------

  /** The stripper's mode after some bytes: a character moves it as its first byte does, and its other bytes do not. */
  function NextBytes(m: Mode, s: seq<Byte>): Mode
    decreases |s|
  {
    if s == [] then m else NextBytes(Next(m, s[0]), s[1..])
  }

  lemma {:induction false} NextBytesAppend(m: Mode, a: seq<Byte>, b: seq<Byte>)
    ensures NextBytes(m, a + b) == NextBytes(NextBytes(m, a), b)
    decreases |a|
  {
    if a == [] {
      assert a + b == b;
    } else {
      assert (a + b)[1..] == a[1..] + b;
      NextBytesAppend(Next(m, a[0]), a[1..], b);
    }
  }

  lemma {:induction false} NextContinuations(m: Mode, s: seq<Byte>)
    requires m == Ground || m == Csi || m == Osc || m == Str
    requires forall i :: 0 <= i < |s| ==> IsContinuation(s[i])
    ensures NextBytes(m, s) == m
    decreases |s|
  {
    if s != [] {
      NextContinuations(m, s[1..]);
    }
  }

  lemma {:induction false} NextIsBytewise(m: Mode, s: seq<Byte>)
    ensures NextAll(m, Decode(s)) == NextBytes(m, s)
    decreases |s|
  {
    if s != [] {
      var n := UnitLength(s);
      var tail, rest := s[1..n], s[n..];
      var m' := Next(m, s[0]);
      assert s[1..] == tail + rest && FirstUnit(s).Key() == s[0];
      assert forall i :: 0 <= i < |tail| ==> tail[i] == s[1 + i];
      if n > 1 {
        NextContinuations(m', tail);
      }
      NextBytesAppend(m', tail, rest);
      NextIsBytewise(m', rest);
      assert Decode(s)[1..] == Decode(rest);
    }
  }

  /**
   * The runs part at a byte that arrives while the hold-back scanner, in mode `t`, would let a frame end, and the
   * stripper, in mode `m`, is inside a sequence or has an ESC that the byte makes the start of one. They also part
   * at a UTF-8 lead byte as the parameter of a charset escape, which one counts in bytes and the other in characters.
   */
  predicate Parts(t: Mode, m: Mode, b: Byte) {
    || (t == Ground && m != Ground && !(m == Escape && !Introduces(b)))
    || (t == Charset && 0xC0 <= b < 0xF8)
  }

  /** No byte of `s`, read from `t` and `m`, makes the runs part. */
  predicate InStep(t: Mode, m: Mode, s: seq<Byte>)
    decreases |s|
  {
    s == [] || (!Parts(t, m, s[0]) && InStep(Track(t, s[0]), Next(m, s[0]), s[1..]))
  }

  predicate SplitSafe(s: seq<Byte>) { InStep(Ground, Ground, s) }

  lemma {:induction false} InStepAppend(t: Mode, m: Mode, a: seq<Byte>, b: seq<Byte>)
    ensures InStep(t, m, a + b) <==> InStep(t, m, a) && InStep(TrackAll(t, a), NextBytes(m, a), b)
    decreases |a|
  {
    if a == [] {
      assert a + b == b;
    } else {
      assert (a + b)[0] == a[0] && (a + b)[1..] == a[1..] + b;
      InStepAppend(Track(t, a[0]), Next(m, a[0]), a[1..], b);
    }
  }

  /** Both scanners enter an escape together. */
  predicate Paired(t: Mode, m: Mode) { (t == Escape ==> m == Escape) && (t == Charset ==> m == Charset) }

  lemma {:induction false} StaysPaired(t: Mode, m: Mode, s: seq<Byte>)
    requires Paired(t, m) && InStep(t, m, s)
    ensures Paired(TrackAll(t, s), NextBytes(m, s))
    decreases |s|
  {
    if s != [] {
      StaysPaired(Track(t, s[0]), Next(m, s[0]), s[1..]);
    }
  }

  /** Where both can start afresh: at the ground, or behind an ESC that the next byte leaves literal. */
  predicate CanRestart(t: Mode, m: Mode, s: seq<Byte>) {
    s != [] ==>
      || (t == Ground && (m == Ground || (m == Escape && !Introduces(s[0]))))
      || (t == Escape && m == Escape && 0x80 <= s[0])
  }

  lemma RestartStaysInStep(t: Mode, m: Mode, s: seq<Byte>)
    requires CanRestart(t, m, s) && InStep(t, m, s)
    ensures SplitSafe(s)
  {
  }

  /** The continuation bytes of a character leave the hold-back scanner where its first byte put it. */
  lemma {:induction false} TrackContinuations(m: Mode, s: seq<Byte>)
    requires m != Escape && m != OscEscape && m != StrEscape && m != Charset
    requires forall i :: 0 <= i < |s| ==> IsContinuation(s[i])
    ensures TrackAll(m, s) == m
    decreases |s|
  {
    if s != [] {
      TrackContinuations(m, s[1..]);
    }
  }

  // ---------------------------------------------------------------------
  // One frame
  // ---------------------------------------------------------------------

  lemma StripAcrossCut(e: seq<Byte>, p: seq<Byte>)
    requires CutsCleanly(e, p)
    ensures Strip(e + p) == EmitAll(Ground, Decode(e)) + StripFrom(NextAll(Ground, Decode(e)), Decode(p))
  {
    DecodeSplits(e, p);
    StripFromAppend(Ground, Decode(e), Decode(p));
  }

  /** A stripper that can start afresh may be started afresh. */
  lemma RestartStrip(e: seq<Byte>, p: seq<Byte>)
    requires CutsCleanly(e, p)
    requires
      var m := NextAll(Ground, Decode(e));
      p != [] ==> m == Ground || (m == Escape && !Introduces(p[0]))
    ensures Strip(e + p) == Strip(e) + Strip(p)
  {
    hide CutsCleanly, Introduces, NextAll, EmitAll;
    var m := NextAll(Ground, Decode(e));
    StripAcrossCut(e, p);
    assert StripFrom(m, Decode(p)) == Finish(m) + Strip(p) by {
      if p == [] {
        NothingStrips();
        NothingIsLeft(m);
      } else if m == Escape {
        assert Decode(p)[0] == FirstUnit(p) && FirstUnit(p).Key() == p[0];
        LiteralEscape(Decode(p));
      }
    }
    Regroup(EmitAll(Ground, Decode(e)), Finish(m), Strip(p));
  }

  lemma NothingIsLeft(m: Mode)
    ensures StripFrom(m, Decode([])) == Finish(m)
  {
  }

  lemma NothingStrips()
    ensures Strip([]) == []
  {
  }

  /** Where the hold-back cuts, the scan before the cut is at the ground or an ESC that stays literal. */
  lemma CutMode(c: seq<Byte>)
    ensures
      var e, p := c[..|c| - HoldBack(c)], c[|c| - HoldBack(c)..];
      && CutsCleanly(e, p)
      && (p == [] ==> TrackAll(Ground, e) == Ground)
      && (p != [] ==> p[0] == ESC || 0xC0 <= p[0] < 0xF8)
      && (p != [] && p[0] == ESC ==> TrackAll(Ground, e) == Ground)
      && (p != [] && p[0] != ESC ==> Track(TrackAll(Ground, e), p[0]) == Ground)
  {
    var h := HoldBack(c);
    var e, p := c[..|c| - h], c[|c| - h..];
    assert c == e + p;
    if TrackAll(Ground, c) == Ground {
      if h == 0 {
        assert e == c;
      } else {
        TrackAppend(Ground, e, p);
        var m := Track(TrackAll(Ground, e), p[0]);
        TrackContinuations(m, p[1..]);
      }
    }
  }

  /** Where the hold-back cuts a stream on which the runs do not part, both can start afresh. */
  lemma CutCanRestart(c: seq<Byte>, r: seq<Byte>)
    requires SplitSafe(c + r)
    ensures
      var e, p := c[..|c| - HoldBack(c)], c[|c| - HoldBack(c)..];
      && CanRestart(TrackAll(Ground, e), NextBytes(Ground, e), p + r)
      && InStep(TrackAll(Ground, e), NextBytes(Ground, e), p + r)
      && CutsCleanly(e, p + r) && e + (p + r) == c + r
  {
    hide CutsCleanly, Introduces, HoldBack;
    var e, p := c[..|c| - HoldBack(c)], c[|c| - HoldBack(c)..];
    var t, m := TrackAll(Ground, e), NextBytes(Ground, e);
    CutMode(c);
    assert c + r == e + (p + r);
    InStepAppend(Ground, Ground, e, p + r);
    StaysPaired(Ground, Ground, e);
    if p == [] {
      assert e == c && p + r == r;
      CleanWhenNothingHeld(c, r);
    } else {
      assert (p + r)[0] == p[0];
      CleanBeforeLead(e, p, r);
      AboveAscii(p[0]);
    }
  }

  lemma CleanWhenNothingHeld(c: seq<Byte>, r: seq<Byte>)
    requires HoldBack(c) == 0
    ensures CutsCleanly(c, r)
  {
  }

  lemma CleanBeforeLead(e: seq<Byte>, p: seq<Byte>, r: seq<Byte>)
    requires p != [] && (p[0] == ESC || 0xC0 <= p[0] < 0xF8)
    ensures CutsCleanly(e, p + r)
  {
  }

  /** Nothing above ASCII introduces a sequence. */
  lemma AboveAscii(b: Byte)
    ensures 0x80 <= b ==> !Introduces(b)
    ensures !Introduces(ESC)
  {
  }

  /**
   * One frame: what is stripped now, followed by what is held back and everything still to come, is the stripped
   * form of everything read together; and the part carried over is again safe to split.
   */
  lemma CutIsTransparent(c: seq<Byte>, r: seq<Byte>)
    requires SplitSafe(c + r)
    ensures
      var e, p := c[..|c| - HoldBack(c)], c[|c| - HoldBack(c)..];
      Strip(c + r) == Strip(e) + Strip(p + r) && SplitSafe(p + r)
  {
    hide CutsCleanly, Introduces, HoldBack, InStep;
    var e, p := c[..|c| - HoldBack(c)], c[|c| - HoldBack(c)..];
    CutCanRestart(c, r);
    RestartStaysInStep(TrackAll(Ground, e), NextBytes(Ground, e), p + r);
    NextIsBytewise(Ground, e);
    if p + r != [] {
      AboveAscii((p + r)[0]);
    }
    RestartStrip(e, p + r);
  }

  // ---------------------------------------------------------------------
  // A whole stream
  // ---------------------------------------------------------------------

  /** One recorded frame without the size bound: the text it adds, and the bytes carried to the next frame. */
  function Absorb(pending: seq<Byte>, frame: seq<Byte>): (seq<Byte>, seq<Byte>) {
    if frame == [] then ([], pending)
    else
      var c := pending + frame;
      var cut := |c| - HoldBack(c);
      (Strip(c[..cut]), c[cut..])
  }

  /** The text of a run of frames, including what the flush at the end of the stream adds. */
  function StreamText(pending: seq<Byte>, frames: seq<seq<Byte>>): seq<Byte>
    decreases |frames|
  {
    if frames == [] then Strip(pending)
    else
      var (text, carried) := Absorb(pending, frames[0]);
      text + StreamText(carried, frames[1..])
  }

  /** On a safe stream the text does not depend on how the stream was cut into frames. */
  lemma {:induction false} SplitIndependence(pending: seq<Byte>, frames: seq<seq<Byte>>)
    requires SplitSafe(pending + Concat(frames))
    ensures StreamText(pending, frames) == Strip(pending + Concat(frames))
    decreases |frames|
  {
    hide Strip, HoldBack, SplitSafe;
    if frames == [] {
      assert pending + Concat(frames) == pending;
    } else {
      var frame, rest := frames[0], Concat(frames[1..]);
      var c := pending + frame;
      assert pending + Concat(frames) == c + rest;
      if frame == [] {
        assert c == pending;
      } else {
        CutIsTransparent(c, rest);
      }
      SplitIndependence(Absorb(pending, frame).1, frames[1..]);
    }
  }

  // ---------------------------------------------------------------------
  // Streams without escapes
  // ---------------------------------------------------------------------

  lemma {:induction false} PlainIsSafe(s: seq<Byte>)
    requires ESC !in s
    ensures SplitSafe(s)
    decreases |s|
  {
    if s != [] {
      PlainIsSafe(s[1..]);
    }
  }

  lemma {:induction false} PlainStripsToItself(s: seq<Byte>)
    requires ESC !in s
    ensures NextAll(Ground, Decode(s)) == Ground && EmitAll(Ground, Decode(s)) == TextOf(Decode(s))
    decreases |s|
  {
    if s != [] {
      var rest := s[UnitLength(s)..];
      assert FirstUnit(s).Key() == s[0];
      PlainStripsToItself(rest);
      assert Decode(s)[1..] == Decode(rest);
    }
  }

  /** Without an ESC, every split of the stream yields the lossy decoding of the whole. */
  lemma HoldBackIsLossless(frames: seq<seq<Byte>>)
    requires ESC !in Concat(frames)
    ensures StreamText([], frames) == TextOf(Decode(Concat(frames)))
  {
    var s := Concat(frames);
    assert [] + s == s;
    PlainIsSafe(s);
    SplitIndependence([], frames);
    PlainStripsToItself(s);
  }

  lemma {:induction false} DecodeAscii(s: seq<Byte>)
    requires forall i :: 0 <= i < |s| ==> s[i] < 0x80
    ensures |Decode(s)| == |s| && forall i :: 0 <= i < |s| ==> Decode(s)[i] == Ascii(s[i])
    decreases |s|
  {
    if s != [] {
      DecodeAscii(s[1..]);
      assert Decode(s) == [Ascii(s[0])] + Decode(s[1..]);
    }
  }

  lemma {:induction false} EndsInAscii(s: seq<Byte>)
    requires s != [] && s[|s| - 1] < 0x80
    ensures TailHold(s) == 0
  {
  }

  // ---------------------------------------------------------------------
  // Where the runs part, a cut shows
  // ---------------------------------------------------------------------

  /** The first byte at which the runs part. */
  lemma {:induction false} FirstParting(s: seq<Byte>) returns (i: nat)
    requires !SplitSafe(s)
    ensures i < |s| && SplitSafe(s[..i])
    ensures Parts(TrackAll(Ground, s[..i]), NextBytes(Ground, s[..i]), s[i])
    decreases |s|
  {
    hide Parts, TrackAll, NextBytes;
    var n := |s| - 1;
    assert s == s[..n] + [s[n]] && [s[n]][1..] == [];
    InStepAppend(Ground, Ground, s[..n], [s[n]]);
    if SplitSafe(s[..n]) {
      i := n;
    } else {
      i := FirstParting(s[..n]);
      assert s[..n][..i] == s[..i] && s[..n][i] == s[i];
    }
  }

  /** A byte on its own: text of its own. */
  lemma OneByteText(b: Byte)
    ensures |Decode([b])| == 1 && Decode([b])[0].Key() == b && Strip([b]) != []
    ensures Introduces(b) ==> Strip([b]) == [b]
  {
    var s := [b];
    assert s[..1] == s && s[1..] == [];
    var u := FirstUnit(s);
    assert Decode(s) == [u];
    assert [u][1..] == [];
    StripFromCons(Ground, [u]);
    UnfinishedString(Ground);
    assert u == if b < 0x80 then Ascii(b) else Wide([b], false);
    assert Decode([b]) == [u] && u.Key() == b;
    if b == ESC {
      assert Strip(s) == [] + [ESC];
    } else {
      assert StripFrom(Ground, []) == [];
      assert Strip(s) == u.Text() + [];
      assert |u.Text()| >= 1 && |Strip(s)| >= 1;
      AboveAscii(b);
      assert b < 0x80 ==> u.Text() == [b] && [b] + [] == [b];
    }
  }

  /** The same byte inside a sequence, or making one of an ESC: no text. */
  lemma SwallowedByte(m: Mode, b: Byte)
    requires m != Ground && !(m == Escape && !Introduces(b))
    ensures StripFrom(m, Decode([b])) == []
  {
    OneByteText(b);
    var us := Decode([b]);
    assert us == [us[0]] && us[1..] == [];
    StripFromCons(m, us);
    assert Next(m, b) != Escape;
    UnfinishedString(Next(m, b));
  }

  lemma OneFrame(f: seq<Byte>)
    requires f != []
    ensures var cut := |f| - HoldBack(f); StreamText([], [f]) == Strip(f[..cut]) + Strip(f[cut..])
  {
    assert [] + f == f && [f][1..] == [];
    assert StreamText(Absorb([], f).1, []) == Strip(Absorb([], f).1);
  }

  /** A frame that ends where nothing is held back, and one byte more. */
  lemma FrameAndByte(a: seq<Byte>, b: Byte)
    requires a != [] && HoldBack(a) == 0
    ensures StreamText([], [a, [b]]) == Strip(a) + Strip([b])
  {
    hide Strip, HoldBack;
    assert [] + a == a && a[..|a|] == a && a[|a|..] == [];
    assert [a, [b]][1..] == [[b]];
    OneFrame([b]);
    var cut := |[b]| - HoldBack([b]);
    NothingStrips();
    if cut == 0 {
      assert [b][..cut] == [] && [b][cut..] == [b];
    } else {
      assert [b][..cut] == [b] && [b][cut..] == [];
    }
  }

  /** When the stripper is not at the ground, nothing is held back where the hold-back scanner is. */
  lemma NothingHeldInside(a: seq<Byte>)
    requires SplitSafe(a) && TrackAll(Ground, a) == Ground && NextBytes(Ground, a) != Ground
    ensures HoldBack(a) == 0
  {
    var h := HoldBack(a);
    if h > 0 {
      var e, p := a[..|a| - h], a[|a| - h..];
      var t, m := TrackAll(Ground, e), NextBytes(Ground, e);
      assert a == e + p;
      assert forall i :: 0 <= i < |p[1..]| ==> p[1..][i] == a[|a| - h + 1 + i];
      CutMode(a);
      InStepAppend(Ground, Ground, e, p);
      StaysPaired(Ground, Ground, e);
      NextBytesAppend(Ground, e, p);
      AboveAscii(p[0]);
      assert Next(m, p[0]) == Ground;
      NextContinuations(Ground, p[1..]);
    }
  }

  /** A cut right before the byte at which the runs part: its text is there although it is part of a sequence. */
  lemma CutShows(a: seq<Byte>, b: Byte)
    requires SplitSafe(a) && TrackAll(Ground, a) == Ground && Parts(Ground, NextBytes(Ground, a), b)
    ensures StreamText([], [a, [b]]) != Strip(a + [b])
  {
    hide HoldBack, StreamText, Decode, EmitAll, NextAll, TrackAll, NextBytes, InStep;
    var m, out := NextBytes(Ground, a), EmitAll(Ground, Decode(a));
    NextIsBytewise(Ground, a);
    NothingHeldInside(a);
    EmptyIsGround();
    FrameAndByte(a, b);
    OneByteText(b);
    assert Strip(a) == out + Finish(m);
    CleanWhenNothingHeld(a, [b]);
    StripAcrossCut(a, [b]);
    SwallowedByte(m, b);
    assert Strip(a + [b]) == out + [];
  }

  lemma EmptyIsGround()
    ensures NextBytes(Ground, []) == Ground
  {
  }

  /** A lead byte as a charset parameter is held back as the start of a character, and comes back as text. */
  lemma LeadShows(a: seq<Byte>, b: Byte)
    requires SplitSafe(a) && TrackAll(Ground, a) == Charset && 0xC0 <= b < 0xF8
    ensures StreamText([], [a + [b]]) != Strip(a + [b])
  {
    hide StreamText, Decode, EmitAll, NextAll, NextBytes, InStep, TrackAll, HoldBack, Strip;
    var f, out := a + [b], EmitAll(Ground, Decode(a));
    StaysPaired(Ground, Ground, a);
    NextIsBytewise(Ground, a);
    CharsetHolds(a, b);
    OneFrame(f);
    assert f[..|a|] == a && f[|a|..] == [b];
    OneByteText(b);
    CleanBeforeLead(a, [b], []);
    assert [b] + [] == [b];
    StripAcrossCut(a, [b]);
    SwallowedByte(Charset, b);
    CharsetText(a);
    assert Strip(f) == out + [];
  }

  lemma CharsetText(a: seq<Byte>)
    requires NextAll(Ground, Decode(a)) == Charset
    ensures Strip(a) == EmitAll(Ground, Decode(a))
  {
    assert EmitAll(Ground, Decode(a)) + [] == EmitAll(Ground, Decode(a));
  }

  lemma CharsetHolds(a: seq<Byte>, b: Byte)
    requires TrackAll(Ground, a) == Charset && 0xC0 <= b < 0xF8
    ensures HoldBack(a + [b]) == 1
  {
    var f := a + [b];
    TrackPrefix(f, |a|);
    assert f[..|a|] == a && f[..|a| + 1] == f;
  }

  /** Frames of a prefix whose text is not the stripped prefix. */
  lemma CutThatShows(s: seq<Byte>) returns (k: nat, frames: seq<seq<Byte>>)
    requires !SplitSafe(s)
    ensures k <= |s| && Concat(frames) == s[..k] && StreamText([], frames) != Strip(s[..k])
    ensures 0 < k
      && ((frames == [s[..k - 1], [s[k - 1]]] && s[..k - 1] != [] && HoldBack(s[..k - 1]) == 0)
          || (frames == [s[..k]] && HoldBack(s[..k]) == 1))
  {
    hide StreamText, Strip, InStep, HoldBack;
    var i := FirstParting(s);
    var a, b := s[..i], s[i];
    k := i + 1;
    assert s[..k] == a + [b];
    ConcatFew(a, [b]);
    ConcatFew(a + [b], []);
    if TrackAll(Ground, a) == Ground {
      CutShows(a, b);
      NothingHeldInside(a);
      frames := [a, [b]];
    } else {
      LeadShows(a, b);
      CharsetHolds(a, b);
      frames := [a + [b]];
    }
  }

  /**
   * Exactly the streams on which the runs never part can be cut anywhere: at every point of such a stream the text
   * so far, flushed, is the stripped form of what came so far, and every other stream has a point and a cut before
   * it where it is not.
   */
  lemma SafeExactlyWhenCutsAgree(s: seq<Byte>)
    ensures SplitSafe(s) <==>
      forall k: nat, frames: seq<seq<Byte>> ::
        k <= |s| && Concat(frames) == s[..k] ==> StreamText([], frames) == Strip(s[..k])
  {
    hide StreamText, Strip, InStep;
    if SplitSafe(s) {
      forall k: nat, frames: seq<seq<Byte>> | k <= |s| && Concat(frames) == s[..k]
        ensures StreamText([], frames) == Strip(s[..k])
      {
        assert s == s[..k] + s[k..] && [] + s[..k] == s[..k];
        InStepAppend(Ground, Ground, s[..k], s[k..]);
        SplitIndependence([], frames);
      }
    } else {
      var k, frames := CutThatShows(s);
    }
  }

  // ---------------------------------------------------------------------
  // A simple class of safe streams
  // ---------------------------------------------------------------------

  /** A second ESC after an ESC, an ESC or BEL where an OSC is not yet over, a lead byte as a charset parameter. */
  predicate Unruly(t: Mode, b: Byte) {
    match t
    case Escape => b == ESC
    case OscEscape => b == ESC || b == BEL
    case OscCsi => b == ESC || b == BEL
    case Charset => 0xC0 <= b < 0xF8
    case _ => false
  }

  predicate Orderly(t: Mode, s: seq<Byte>)
    decreases |s|
  {
    s == [] || (!Unruly(t, s[0]) && Orderly(Track(t, s[0]), s[1..]))
  }

  /**
   * The stripper's mode on an orderly stream. Inside a string that only ST ends it may be anywhere, because the
   * `ESC \` that closes the string also returns the stripper to the ground.
   */
  predicate Follows(t: Mode, m: Mode) {
    match t
    case OscCsi => m == Osc
    case Str => true
    case StrCsi => true
    case StrEscape => m != Osc && m != Str && m != Charset
    case _ => m == t
  }

  /** Streams without those bytes, whatever their control strings hold, are safe. */
  lemma {:induction false} OrderlyIsInStep(t: Mode, m: Mode, s: seq<Byte>)
    requires Follows(t, m) && Orderly(t, s)
    ensures InStep(t, m, s)
    decreases |s|
  {
    if s != [] {
      OrderlyIsInStep(Track(t, s[0]), Next(m, s[0]), s[1..]);
    }
  }

  /** Not only those: two ESCs in a row are safe exactly before a byte that makes no sequence of the second. */
  lemma DoubleEscapeIsSafe(b: Byte)
    ensures !Orderly(Ground, [ESC, ESC, b])
    ensures SplitSafe([ESC, ESC, b]) <==> !Introduces(b)
  {
    var first, second, third := [ESC, ESC, b], [ESC, b], [b];
    assert first[1..] == second && second[1..] == third && third[1..] == [];
    assert Track(Ground, ESC) == Next(Ground, ESC) == Next(Escape, ESC) == Escape && Track(Escape, ESC) == Ground;
    assert InStep(Ground, Escape, third) == !Parts(Ground, Escape, b);
    assert InStep(Escape, Escape, second) == InStep(Ground, Escape, third);
    assert InStep(Ground, Ground, first) == InStep(Escape, Escape, second);
    assert !Orderly(Escape, second);
  }
}
