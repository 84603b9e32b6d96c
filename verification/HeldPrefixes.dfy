/**
 * What a transcript can be holding back, and when flushing it ahead of the bytes that follow shows in the text: for
 * every prefix but nothing and a code point that cannot go on, some output makes the difference.
 */
module HeldPrefixes {
  import opened Bytes
  import opened Utf8
  import opened EscapeScan
  import opened StripAnsi
  import opened SplitSafety
  import opened Retention
  import opened TranscriptRuns

  /** The bytes held are all of one character so far, and some byte can continue it. */
  predicate CanGrow(p: seq<Byte>)
    requires p != []
  {
    UnitLength(p) == |p| < SequenceLength(p[0])
  }

  /** Nothing is held, or bytes that are no sequence and that no byte can make a longer part of a character. */
  predicate Final(p: seq<Byte>) { p == [] || (p[0] != ESC && !CanGrow(p)) }

  lemma GrowsExactlyWhen(p: seq<Byte>)
    requires p != []
    ensures CanGrow(p) <==> exists b: Byte :: UnitLength(p + [b]) == |p| + 1
  {
    if CanGrow(p) {
      var b := NextOf(p);
      assert UnitLength(p + [b]) == |p| + 1;
    }
    forall b: Byte | UnitLength(p + [b]) == |p| + 1
      ensures CanGrow(p)
    {
      var q := p + [b];
      assert q[0] == p[0] && forall i :: 0 <= i < |p| ==> q[i] == p[i];
    }
  }

  /** A byte that continues the character. */
  lemma NextOf(p: seq<Byte>) returns (b: Byte)
    requires p != [] && CanGrow(p)
    ensures UnitLength(p + [b]) == |p| + 1 && IsContinuation(b)
  {
    b := if |p| == 1 && (p[0] == 0xE0 || p[0] == 0xF0) then 0xA0 else 0x80;
    var q := p + [b];
    assert q[0] == p[0] && q[|p|] == b && forall i :: 0 <= i < |p| ==> q[i] == p[i];
  }

  // ---------------------------------------------------------------------
  // What is held
  // ---------------------------------------------------------------------

  /** A sequence that opens behind complete output opens where it did on its own. */
  lemma {:induction false} OpenBehind(a: seq<Byte>, s: seq<Byte>)
    requires TrackAll(Ground, a) == Ground && TrackAll(Ground, s) != Ground
    ensures TrackAll(Ground, a + s) != Ground && OpenAt(a + s) == |a| + OpenAt(s)
    decreases |s|
  {
    TrackAppend(Ground, a, s);
    var n := |s| - 1;
    TrackAppend(Ground, a, s[..n]);
    assert (a + s)[..|a| + n] == a + s[..n] && s[..n + 1] == s;
    if TrackAll(Ground, s[..n]) != Ground {
      OpenBehind(a, s[..n]);
    }
  }

  lemma {:induction false} TailIsIncomplete(s: seq<Byte>, j: nat)
    requires j <= |s| && forall i :: j <= i < |s| ==> IsContinuation(s[i])
    ensures var h := TailHoldFrom(s, j); h > 0 ==> h < PatternLength(s[|s| - h])
    decreases j
  {
    if j > 0 && IsContinuation(s[j - 1]) {
      TailIsIncomplete(s, j - 1);
    }
  }

  /** What is held back would be held back, all of it, on its own. */
  lemma HeldIsHeld(c: seq<Byte>)
    ensures var p := c[|c| - HoldBack(c)..]; HoldBack(p) == |p|
  {
    hide TailHold;
    var e, p := c[..|c| - HoldBack(c)], c[|c| - HoldBack(c)..];
    assert c == e + p;
    if TrackAll(Ground, c) != Ground {
      assert e == c[..OpenAt(c)];
      TrackAppend(Ground, e, p);
      OpenBehind(e, p);
    } else if p != [] {
      TailIsHeld(c, p);
      assert ESC !in p;
      StaysInGround(p);
    }
  }

  lemma TailIsHeld(c: seq<Byte>, p: seq<Byte>)
    requires p != [] && |p| == TailHold(c) && p == c[|c| - |p|..]
    ensures TailHold(p) == |p| && ESC !in p
  {
    TailIsIncomplete(c, |c|);
    assert forall i :: 0 <= i < |p| ==> p[i] == c[|c| - |p| + i];
    LeadOfContinuations(p, |p|);
  }

  /** In every run the bytes pending are ones that are held back, all of them. */
  lemma {:induction false} PendingIsHeld(mode: TranscriptMode, maxBytes: nat, maxLines: nat, ops: seq<Op>)
    ensures var l := Run(Empty(mode, maxBytes, maxLines), ops); HoldBack(l.pending) == |l.pending|
    decreases |ops|
  {
    hide Step;
    if ops != [] {
      var n := |ops| - 1;
      PendingIsHeld(mode, maxBytes, maxLines, ops[..n]);
      StepHolds(Run(Empty(mode, maxBytes, maxLines), ops[..n]), ops[n]);
    }
  }

  lemma StepHolds(l: Log, op: Op)
    requires Accounted(l) && HoldBack(l.pending) == |l.pending|
    ensures HoldBack(Step(l, op).pending) == |Step(l, op).pending|
  {
    hide Enforce, Accounted, HoldBack, Strip, CountNewlines;
    NothingIsHeld();
    if op.Feed? {
      AppendedIsAccounted(l, op.bytes);
      HeldIsHeld(l.pending + op.bytes);
      EnforceKeepsPending(Appended(l, op.bytes));
    } else if l.pending != [] {
      DrainedIsAccounted(l);
      EnforceKeepsPending(Drained(l));
    }
  }

  lemma NothingIsHeld()
    ensures HoldBack([]) == 0
  {
  }

  lemma EnforceKeepsPending(l: Log)
    requires Accounted(l)
    ensures Enforce(l).pending == l.pending
  {
  }

  /** What a code point that is held looks like. */
  lemma HeldCodePoint(p: seq<Byte>)
    requires p != [] && p[0] != ESC && HoldBack(p) == |p|
    ensures ESC !in p && TrackAll(Ground, p) == Ground
    ensures 0xC0 <= p[0] < 0xF8 && (forall i :: 1 <= i < |p| ==> IsContinuation(p[i])) && |p| < PatternLength(p[0])
  {
    TailIsIncomplete(p, |p|);
  }

  // ---------------------------------------------------------------------
  // Where the flush does not show
  // ---------------------------------------------------------------------

  /** Final bytes decode to the same whatever follows. */
  lemma FinalSplits(p: seq<Byte>, x: seq<Byte>)
    requires HoldBack(p) == |p| && Final(p)
    ensures Strip(p + x) == Strip(p) + Strip(x)
  {
    hide HoldBack, Strip;
    if p == [] {
      NothingStrips();
      assert [] + x == x && [] + Strip(x) == Strip(x);
    } else {
      HeldCodePoint(p);
      FinalUnits(p, x);
      StripBehindText(p, x);
    }
  }

  lemma FinalUnits(p: seq<Byte>, x: seq<Byte>)
    requires p != [] && 0xC0 <= p[0] < 0xF8 && (forall i :: 1 <= i < |p| ==> IsContinuation(p[i]))
    requires |p| < PatternLength(p[0]) && !CanGrow(p)
    ensures Decode(p + x) == Decode(p) + Decode(x)
  {
    hide Decode;
    var rest := p[1..];
    assert p + x == [p[0]] + (rest + x) && (p + x)[0] == p[0];
    assert UnitLength(p) == 1 && UnitLength(p + x) == 1 by {
      assert forall i :: 0 <= i < |p| ==> (p + x)[i] == p[i];
    }
    assert (p + x)[1..] == rest + x && (p + x)[..1] == p[..1];
    FirstDecodes(p);
    FirstDecodes(p + x);
    assert TailHold(rest) == 0 by {
      OnlyContinuations(rest, |rest|);
    }
    DecodeSplits(rest, x);
    Regroup([FirstUnit(p)], Decode(rest), Decode(x));
  }

  lemma FirstDecodes(s: seq<Byte>)
    requires s != []
    ensures Decode(s) == [FirstUnit(s)] + Decode(s[UnitLength(s)..])
  {
  }

  lemma {:induction false} OnlyContinuations(s: seq<Byte>, j: nat)
    requires j <= |s| && forall i :: 0 <= i < |s| ==> IsContinuation(s[i])
    ensures TailHoldFrom(s, j) == 0
    decreases j
  {
    if j > 0 {
      OnlyContinuations(s, j - 1);
    }
  }

  lemma StripBehindText(p: seq<Byte>, x: seq<Byte>)
    requires ESC !in p && Decode(p + x) == Decode(p) + Decode(x)
    ensures Strip(p + x) == Strip(p) + Strip(x)
  {
    hide Decode, EmitAll, NextAll;
    PlainStripsToItself(p);
    StripFromAppend(Ground, Decode(p), Decode(x));
    assert EmitAll(Ground, Decode(p)) + [] == EmitAll(Ground, Decode(p));
  }

  /** Behind a held code point the same is held as without it, unless all that follows are continuations. */
  lemma SameHold(p: seq<Byte>, x: seq<Byte>)
    requires p != [] && p[0] != ESC && HoldBack(p) == |p|
    ensures
      || HoldBack(p + x) == HoldBack(x)
      || (HoldBack(x) == 0 && (HoldBack(p + x) == 0 || HoldBack(p + x) == |p + x|))
  {
    hide TailHold;
    HeldCodePoint(p);
    TrackAppend(Ground, p, x);
    if TrackAll(Ground, x) != Ground {
      OpenBehind(p, x);
    } else {
      SameTailHold(p, x);
    }
  }

  lemma SameTailHold(p: seq<Byte>, x: seq<Byte>)
    requires p != [] && 0xC0 <= p[0] && forall i :: 1 <= i < |p| ==> IsContinuation(p[i])
    ensures
      || TailHold(p + x) == TailHold(x)
      || (TailHold(x) == 0 && (TailHold(p + x) == 0 || TailHold(p + x) == |p + x|))
  {
    hide TailHoldFrom;
    SameTail(p, x, |x|);
    if forall i :: 0 <= i < |x| ==> IsContinuation(x[i]) {
      OnlyContinuations(x, |x|);
      assert forall i :: 1 <= i < |p + x| ==> IsContinuation((p + x)[i]);
      LeadOfContinuations(p + x, |p + x|);
    }
  }

  lemma {:induction false} SameTail(p: seq<Byte>, x: seq<Byte>, j: nat)
    requires j <= |x| && forall i :: j <= i < |x| ==> IsContinuation(x[i])
    ensures forall i :: |p| + j <= i < |p + x| ==> IsContinuation((p + x)[i])
    ensures (exists i :: 0 <= i < j && !IsContinuation(x[i])) ==> TailHoldFrom(p + x, |p| + j) == TailHoldFrom(x, j)
    decreases j
  {
    if j > 0 {
      assert (p + x)[|p| + j - 1] == x[j - 1];
      if IsContinuation(x[j - 1]) {
        SameTail(p, x, j - 1);
      }
    }
  }

  lemma FrameBehind(p: seq<Byte>, x: seq<Byte>)
    requires x != []
    ensures
      var c := p + x;
      var cut := |c| - HoldBack(c);
      StreamText(p, [x]) == Strip(c[..cut]) + Strip(c[cut..])
  {
    hide HoldBack, Strip;
    assert [x][1..] == [];
    assert StreamText(Absorb(p, x).1, []) == Strip(Absorb(p, x).1);
  }

  lemma NoFrame(p: seq<Byte>)
    ensures StreamText(p, [[]]) == Strip(p)
  {
    hide Strip;
    var one: seq<seq<Byte>> := [[]];
    assert one[1..] == [] && StreamText(p, []) == Strip(p);
    assert [] + Strip(p) == Strip(p);
  }

  lemma FlushDoesNotShow(p: seq<Byte>, x: seq<Byte>)
    requires HoldBack(p) == |p| && Final(p)
    ensures Strip(p) + StreamText([], [x]) == StreamText(p, [x])
  {
    hide HoldBack, Strip, StreamText, CanGrow;
    NothingStrips();
    if x == [] {
      NoFrame(p);
      NoFrame([]);
      assert Strip(p) + [] == Strip(p);
    } else if p == [] {
      assert [] + StreamText([], [x]) == StreamText([], [x]);
    } else {
      FrameBehind([], x);
      FrameBehind(p, x);
      assert [] + x == x;
      FinalSplits(p, x);
      SameHold(p, x);
      var h := HoldBack(p + x);
      if h == HoldBack(x) {
        var k := |x| - h;
        assert (p + x)[..|p| + k] == p + x[..k] && (p + x)[|p| + k..] == x[k..];
        FinalSplits(p, x[..k]);
        Regroup(Strip(p), Strip(x[..k]), Strip(x[k..]));
      } else {
        CutAtAnEnd(p + x, h);
        CutAtAnEnd(x, 0);
      }
    }
  }

  lemma CutAtAnEnd(c: seq<Byte>, h: nat)
    requires h == 0 || h == |c|
    ensures Strip(c[..|c| - h]) + Strip(c[|c| - h..]) == Strip(c)
  {
    hide Strip;
    NothingStrips();
    if h == 0 {
      assert c[..|c|] == c && c[|c|..] == [] && Strip(c) + [] == Strip(c);
    } else {
      assert c[..0] == [] && c[0..] == c && [] + Strip(c) == Strip(c);
    }
  }

  /** A frame of which all or nothing is held adds, with the flush, the text of the whole. */
  lemma WholeOrNone(p: seq<Byte>, x: seq<Byte>)
    requires x != [] && (HoldBack(p + x) == 0 || HoldBack(p + x) == |p + x|)
    ensures StreamText(p, [x]) == Strip(p + x)
  {
    hide HoldBack, Strip, StreamText;
    FrameBehind(p, x);
    CutAtAnEnd(p + x, HoldBack(p + x));
  }

  lemma Alone(x: seq<Byte>)
    requires x != [] && HoldBack(x) == 0
    ensures StreamText([], [x]) == Strip(x)
  {
    hide HoldBack, Strip, StreamText;
    assert [] + x == x;
    WholeOrNone([], x);
  }

  // ---------------------------------------------------------------------
  // Where it shows
  // ---------------------------------------------------------------------

  lemma OneUnitText(s: seq<Byte>)
    requires s != [] && ESC !in s && UnitLength(s) == |s|
    ensures Strip(s) == FirstUnit(s).Text()
  {
    hide FirstUnit, UnitLength;
    PlainStripsToItself(s);
    FirstDecodes(s);
    NothingDecodes();
    var u := FirstUnit(s);
    assert s[|s|..] == [] && [u] + [] == [u] && [u][1..] == [];
    assert TextOf([u]) == u.Text() + [] && EmitAll(Ground, Decode(s)) + [] == EmitAll(Ground, Decode(s));
  }

  lemma NothingDecodes()
    ensures Decode([]) == [] && TextOf([]) == []
  {
  }

  /** A byte more makes a character, or a longer part of one, of what was held. */
  lemma GrowingShows(p: seq<Byte>) returns (x: seq<Byte>)
    requires p != [] && p[0] != ESC && CanGrow(p) && HoldBack(p) == |p|
    ensures Strip(p) + StreamText([], [x]) != StreamText(p, [x])
  {
    hide HoldBack, Strip, StreamText;
    var b := NextOf(p);
    x := [b];
    HeldCodePoint(p);
    SameHold(p, x);
    OneByteHeld(b);
    Alone(x);
    WholeOrNone(p, x);
    OneUnitText(p);
    OneUnitText(x);
    OneUnitText(p + x);
    UnitTexts(p, b);
  }

  lemma OneByteHeld(b: Byte)
    ensures b != ESC && !(0xC0 <= b < 0xF8) ==> HoldBack([b]) == 0
    ensures UnitLength([b]) == 1
  {
    assert [b][1..] == [];
  }

  /** Two replacement characters are longer than any one character. */
  lemma UnitTexts(p: seq<Byte>, b: Byte)
    requires p != [] && CanGrow(p) && IsContinuation(b) && p[0] >= 0xC0 && UnitLength(p + [b]) == |p| + 1
    ensures |FirstUnit(p).Text()| == 3 && |FirstUnit([b]).Text()| == 3 && |FirstUnit(p + [b]).Text()| <= 4
  {
  }

  lemma HeldEscape(p: seq<Byte>)
    requires p != [] && p[0] == ESC && HoldBack(p) == |p|
    ensures TrackAll(Ground, p) != Ground && OpenAt(p) == 0
  {
  }

  /** As long as the sequence does not end, all of it is held. */
  lemma {:induction false} WholeHeld(p: seq<Byte>, x: seq<Byte>)
    requires TrackAll(Ground, p) != Ground && OpenAt(p) == 0
    requires forall k :: 0 <= k <= |x| ==> TrackAll(TrackAll(Ground, p), x[..k]) != Ground
    ensures TrackAll(Ground, p + x) != Ground && OpenAt(p + x) == 0
    decreases |x|
  {
    if x == [] {
      assert p + x == p;
    } else {
      var n := |x| - 1;
      var s := p + x;
      assert forall k :: 0 <= k <= n ==> x[..n][..k] == x[..k];
      WholeHeld(p, x[..n]);
      assert s[..|p| + n] == p + x[..n] && s[..|p| + n + 1] == s && x[..|x|] == x;
      TrackAppend(Ground, p, x);
      OpenAtPrefix(s, |p| + n);
    }
  }

  /** Inside a control sequence, or right behind its introducer, the two scanners stand at the same place. */
  predicate InPhase(t: Mode, m: Mode) {
    (t == Escape ==> m == Escape) && (t == Csi ==> m == Csi) && (t == Charset ==> m == Charset)
  }

  lemma {:induction false} HeldInPhase(p: seq<Byte>)
    requires TrackAll(Ground, p) != Ground && OpenAt(p) == 0
    ensures InPhase(TrackAll(Ground, p), NextBytes(Ground, p))
    decreases |p|
  {
    var n := |p| - 1;
    var a, b := p[..n], p[n];
    assert p == a + [b] && p[..n + 1] == p && [b][1..] == [];
    TrackPrefix(p, n);
    NextBytesAppend(Ground, a, [b]);
    assert NextBytes(NextBytes(Ground, a), [b]) == Next(NextBytes(Ground, a), b);
    if n == 0 {
      assert a == [];
    } else {
      OpenAtPrefix(p, n);
      HeldInPhase(a);
    }
  }

  lemma StripHeld(p: seq<Byte>, x: seq<Byte>)
    requires x != [] && !IsContinuation(x[0])
    ensures Strip(p) == EmitAll(Ground, Decode(p)) + Finish(NextBytes(Ground, p))
    ensures Strip(p + x) == EmitAll(Ground, Decode(p)) + StripFrom(NextBytes(Ground, p), Decode(x))
  {
    hide Decode, EmitAll, NextAll;
    NextIsBytewise(Ground, p);
    StripAcrossCut(p, x);
  }

  /** Inside a sequence for both scanners, an ASCII character is swallowed, and is text of its own behind the exit. */
  lemma InsideShows(p: seq<Byte>)
    requires p != [] && p[0] == ESC && HoldBack(p) == |p| && NextBytes(Ground, p) != Ground
    ensures Strip(p) + StreamText([], [[0x5B]]) != StreamText(p, [[0x5B]])
  {
    hide HoldBack, Strip, StreamText, Decode, EmitAll, NextBytes, StripFrom, Finish;
    var x: seq<Byte> := [0x5B];
    BracketText(p);
    StripHeld(p, x);
    SwallowedByte(NextBytes(Ground, p), 0x5B);
    Longer(EmitAll(Ground, Decode(p)), Finish(NextBytes(Ground, p)), x);
  }

  lemma Longer(a: seq<Byte>, b: seq<Byte>, c: seq<Byte>)
    requires c != []
    ensures (a + b) + c != a + []
  {
    assert |(a + b) + c| > |a + []|;
  }

  /** Alone it is text; behind what is held, nothing but all of it is held or stripped. */
  lemma BracketText(p: seq<Byte>)
    requires p != [] && p[0] == ESC && HoldBack(p) == |p|
    ensures StreamText([], [[0x5B]]) == [0x5B] && StreamText(p, [[0x5B]]) == Strip(p + [0x5B])
  {
    hide HoldBack, Strip, StreamText;
    var x: seq<Byte> := [0x5B];
    OneByteHeld(0x5B);
    BracketHeld(p);
    Alone(x);
    WholeOrNone(p, x);
    OneByteText(0x5B);
  }

  lemma BracketHeld(p: seq<Byte>)
    requires p != [] && p[0] == ESC && HoldBack(p) == |p|
    ensures HoldBack(p + [0x5B]) == 0 || HoldBack(p + [0x5B]) == |p + [0x5B]|
  {
    var x: seq<Byte> := [0x5B];
    HeldEscape(p);
    TrackAppend(Ground, p, x);
    if TrackAll(Ground, p + x) == Ground {
      EndsInAscii(p + x);
    } else {
      assert x[..0] == [] && x[..1] == x;
      WholeHeld(p, x);
    }
  }

  /** Inside a string that the stripper has left. */
  lemma LeftStringShows(p: seq<Byte>)
    requires p != [] && p[0] == ESC && HoldBack(p) == |p| && NextBytes(Ground, p) == Ground
    ensures var x: seq<Byte> := [ESC, ESC, 0x5B, ESC]; Strip(p) + StreamText([], [x]) != StreamText(p, [x])
  {
    hide HoldBack, Strip, StreamText, Decode, EmitAll, NextBytes, StripFrom;
    var x: seq<Byte> := [ESC, ESC, 0x5B, ESC];
    EscapesHeld(p, x);
    WholeOrNone(p, x);
    EscapesText(x);
    StripHeld(p, x);
    EscapeTexts();
    assert |StreamText([], [x])| == 2;
  }

  lemma EscapesHeld(p: seq<Byte>, x: seq<Byte>)
    requires p != [] && p[0] == ESC && HoldBack(p) == |p| && NextBytes(Ground, p) == Ground
    requires x == [ESC, ESC, 0x5B, ESC]
    ensures HoldBack(p + x) == |p + x|
  {
    hide HoldBack, NextBytes;
    HeldEscape(p);
    HeldInPhase(p);
    EscapesStayInString(TrackAll(Ground, p), x);
    WholeHeld(p, x);
    OpenIsHeld(p + x);
  }

  lemma EscapesText(x: seq<Byte>)
    requires x == [ESC, ESC, 0x5B, ESC]
    ensures StreamText([], [x]) == [ESC, ESC]
  {
    hide HoldBack, Strip, StreamText, Decode, StripFrom;
    EscapesAlone(x);
    FrameBehind([], x);
    assert [] + x == x;
    assert x[..3] == [ESC, ESC, 0x5B] && x[3..] == [ESC];
    OneEscape();
    EscapeTexts();
  }

  lemma OpenIsHeld(s: seq<Byte>)
    requires TrackAll(Ground, s) != Ground && OpenAt(s) == 0
    ensures HoldBack(s) == |s|
  {
  }

  lemma EscapesStayInString(t: Mode, x: seq<Byte>)
    requires t != Ground && InPhase(t, Ground) && x == [ESC, ESC, 0x5B, ESC]
    ensures forall k :: 0 <= k <= |x| ==> TrackAll(t, x[..k]) != Ground
  {
    var t1 := Track(t, ESC);
    var t2 := Track(t1, ESC);
    var t3 := Track(t2, 0x5B);
    assert t1 != Ground && t2 != Ground && t3 != Ground && Track(t3, ESC) != Ground;
    assert x[..0] == [] && x[..1] == [] + [ESC] && x[..2] == x[..1] + [ESC];
    assert x[..3] == x[..2] + [0x5B] && x[..4] == x[..3] + [ESC];
    TrackOneMore(t, [], ESC);
    TrackOneMore(t, x[..1], ESC);
    TrackOneMore(t, x[..2], 0x5B);
    TrackOneMore(t, x[..3], ESC);
  }

  lemma TrackOneMore(t: Mode, s: seq<Byte>, b: Byte)
    ensures TrackAll(t, s + [b]) == Track(TrackAll(t, s), b)
  {
    TrackAppend(t, s, [b]);
    assert [b][1..] == [];
  }

  /** On their own, only the last ESC is held. */
  lemma EscapesAlone(x: seq<Byte>)
    requires x == [ESC, ESC, 0x5B, ESC]
    ensures HoldBack(x) == 1
  {
    var a, last := x[..3], [ESC];
    assert x == a + last && a == [ESC, ESC, 0x5B];
    assert [ESC, ESC] == [ESC] + [ESC] && a == [ESC, ESC] + [0x5B] && [ESC] == [] + [ESC];
    TrackOneMore(Ground, [], ESC);
    TrackOneMore(Ground, [ESC], ESC);
    TrackOneMore(Ground, [ESC, ESC], 0x5B);
    assert last[..0] == [];
    OpenBehind(a, last);
  }

  lemma EscapeTexts()
    ensures StripFrom(Ground, Decode([ESC, ESC, 0x5B, ESC])) == [ESC] && Strip([ESC, ESC, 0x5B]) == [ESC]
  {
    hide StripFrom;
    var x: seq<Byte> := [ESC, ESC, 0x5B, ESC];
    DecodeAscii(x);
    DecodeAscii(x[..3]);
    var us, vs := Decode(x), Decode(x[..3]);
    assert us == [Ascii(ESC), Ascii(ESC), Ascii(0x5B), Ascii(ESC)] && vs == us[..3];
    assert x[..3] == [ESC, ESC, 0x5B];
    UnfinishedString(Csi);
    assert StripFrom(Csi, us[3..]) == [] by {
      StripFromCons(Csi, us[3..]);
      assert us[3..][1..] == [];
    }
    assert vs[3..] == [] && us[3..] == [Ascii(ESC)];
    EscapePair(us);
    EscapePair(vs);
  }

  lemma EscapePair(us: seq<Unit>)
    requires |us| >= 3 && us[0] == Ascii(ESC) && us[1] == Ascii(ESC) && us[2] == Ascii(0x5B)
    ensures StripFrom(Ground, us) == [ESC] + StripFrom(Csi, us[3..])
  {
    hide StripFrom;
    StripFromCons(Ground, us);
    StripFromCons(Escape, us[1..]);
    StripFromCons(Escape, us[2..]);
    assert us[1..][1..] == us[2..] && us[2..][1..] == us[3..];
    assert us[1..][0] == Ascii(ESC) && us[2..][0] == Ascii(0x5B);
    var last := StripFrom(Csi, us[3..]);
    assert [] + last == last && [] + ([ESC] + last) == [ESC] + last;
  }

  /** Some output shows the flush whenever what is held is not final. */
  lemma FlushShows(p: seq<Byte>) returns (x: seq<Byte>)
    requires HoldBack(p) == |p| && !Final(p)
    ensures Strip(p) + StreamText([], [x]) != StreamText(p, [x])
  {
    hide HoldBack, Strip, StreamText, NextBytes, CanGrow;
    if p[0] != ESC {
      x := GrowingShows(p);
    } else if NextBytes(Ground, p) != Ground {
      x := [0x5B];
      InsideShows(p);
    } else {
      x := [ESC, ESC, 0x5B, ESC];
      LeftStringShows(p);
    }
  }

  lemma OneEscape()
    ensures Strip([ESC]) == [ESC]
  {
    var s: seq<Byte> := [ESC];
    assert s[1..] == [] && Decode(s) == [Ascii(ESC)];
    var us := [Ascii(ESC)];
    assert us[1..] == [];
    StripFromCons(Ground, us);
    UnfinishedString(Ground);
  }

  /** A lone lead byte that leads no well-formed sequence is held, and is final; a lone ESC is not. */
  lemma SomeAreFinal()
    ensures HoldBack([0xC0]) == 1 && Final([0xC0])
    ensures HoldBack([ESC]) == 1 && !Final([ESC])
    ensures HoldBack([0xC3]) == 1 && !Final([0xC3])
  {
    assert [0xC0][1..] == [] && [ESC][1..] == [] && [0xC3][1..] == [] && [ESC][..0] == [];
    var s: seq<Byte> := [ESC];
    assert TrackAll(Ground, s) == TrackAll(Escape, s[1..]);
  }
}
