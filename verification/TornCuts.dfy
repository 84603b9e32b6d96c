/**
 * Runs whose next cut falls inside a character, where the program panics: once a forced flush has yielded text, the
 * ledger falls short of the text, and a frame can be named whose recording cuts a character in two.
 */
module TornCuts {
  import opened Bytes
  import opened Utf8
  import opened EscapeScan
  import opened StripAnsi
  import opened SplitSafety
  import opened Retention
  import opened TranscriptRuns
  import opened CharBoundaries

  // ---------------------------------------------------------------------
  // Text of two-byte characters
  // ---------------------------------------------------------------------

  /** `n` times U+00E9, which takes two bytes. */
  function Accents(n: nat): (s: seq<Byte>)
    ensures |s| == 2 * n && ESC !in s
  {
    if n == 0 then [] else [0xC3, 0xA9] + Accents(n - 1)
  }

  /** An odd number of bytes from the end there is the second half of a character. */
  lemma {:induction false} SecondHalf(n: nat, k: nat)
    requires 2 * k < |Accents(n)|
    ensures Accents(n)[|Accents(n)| - 1 - 2 * k] == 0xA9 && Accents(n)[|Accents(n)| - 2 - 2 * k] == 0xC3
    decreases n
  {
    if k < n - 1 {
      SecondHalf(n - 1, k);
    }
  }

  lemma {:induction false} AccentsDecode(n: nat, more: seq<Byte>)
    ensures TextOf(Decode(Accents(n) + more)) == Accents(n) + TextOf(Decode(more))
    decreases n
  {
    hide Decode, TextOf;
    var shown := TextOf(Decode(more));
    if n == 0 {
      assert Accents(0) + more == more && Accents(0) + shown == shown;
    } else {
      var rest := Accents(n - 1);
      AccentsDecode(n - 1, more);
      AccentDecodes(rest + more);
      Regroup([0xC3, 0xA9], rest, more);
      Regroup([0xC3, 0xA9], rest, shown);
    }
  }

  lemma AccentDecodes(rest: seq<Byte>)
    ensures TextOf(Decode([0xC3, 0xA9] + rest)) == [0xC3, 0xA9] + TextOf(Decode(rest))
  {
    hide Decode, TextOf;
    var s := [0xC3, 0xA9] + rest;
    assert s[0] == 0xC3 && s[1] == 0xA9 && s[..2] == [0xC3, 0xA9] && s[2..] == rest;
    assert UnitLength(s) == 2;
    TextOfFirst(s);
  }

  lemma TextOfFirst(s: seq<Byte>)
    requires s != []
    ensures TextOf(Decode(s)) == FirstUnit(s).Text() + TextOf(Decode(s[UnitLength(s)..]))
  {
    assert Decode(s)[1..] == Decode(s[UnitLength(s)..]);
  }

  function LineFeeds(n: nat): (s: seq<Byte>)
    ensures |s| == n && forall i :: 0 <= i < n ==> s[i] == LF
  {
    seq(n, _ => LF)
  }

  lemma {:induction false} LineFeedsDecode(n: nat, more: seq<Byte>)
    ensures TextOf(Decode(LineFeeds(n) + more)) == LineFeeds(n) + TextOf(Decode(more))
    ensures CountNewlines(LineFeeds(n)) == n
    decreases n
  {
    var s := LineFeeds(n) + more;
    if n == 0 {
      assert s == more && LineFeeds(0) + TextOf(Decode(more)) == TextOf(Decode(more));
    } else {
      assert LineFeeds(n) == [LF] + LineFeeds(n - 1) && LineFeeds(n)[1..] == LineFeeds(n - 1);
      assert s[1..] == LineFeeds(n - 1) + more && FirstUnit(s) == Ascii(LF);
      LineFeedsDecode(n - 1, more);
      TextOfFirst(s);
      Regroup([LF], LineFeeds(n - 1), TextOf(Decode(more)));
    }
  }

  lemma {:induction false} NewlinesAppend(a: seq<Byte>, b: seq<Byte>)
    ensures CountNewlines(a + b) == CountNewlines(a) + CountNewlines(b)
    decreases |a|
  {
    if a == [] {
      assert a + b == b;
    } else {
      assert (a + b)[0] == a[0] && (a + b)[1..] == a[1..] + b;
      NewlinesAppend(a[1..], b);
    }
  }

  // ---------------------------------------------------------------------
  // A frame whose recording tears a character
  // ---------------------------------------------------------------------

  /** Ends every sequence that may be held, for both scanners. */
  const RESET: seq<Byte> := [0x40, ESC, 0x5C]

  lemma Resets(t: Mode, m: Mode)
    ensures TrackAll(t, RESET) == Ground && NextBytes(m, RESET) == Ground
  {
    var second, third := RESET[1..], RESET[1..][1..];
    assert second == [ESC, 0x5C] && third == [0x5C] && third[1..] == [];
    var t1, m1 := Track(t, 0x40), Next(m, 0x40);
    var t2, m2 := Track(t1, ESC), Next(m1, ESC);
    assert Track(t2, 0x5C) == Ground && Next(m2, 0x5C) == Ground;
    assert TrackAll(t, RESET) == TrackAll(t1, second) == TrackAll(t2, third) == TrackAll(Track(t2, 0x5C), []);
    assert NextBytes(m, RESET) == NextBytes(m1, second) == NextBytes(m2, third) == NextBytes(Next(m2, 0x5C), []);
  }

  /** Newlines beyond the line limit, and more characters than the byte limit; `d` bytes from the end one is torn. */
  function Filler(maxBytes: nat, maxLines: nat, d: nat): seq<Byte> {
    LineFeeds(maxLines + 1) + (Accents(maxBytes + d + 1) + Pad(d))
  }

  function Pad(d: nat): seq<Byte> { if d % 2 == 0 then [0x61] else [] }

  lemma FillerText(maxBytes: nat, maxLines: nat, d: nat)
    requires d > 0
    ensures
      var s := Filler(maxBytes, maxLines, d);
      && ESC !in s && Strip(s) == s && TailHold(s) == 0 && |s| > maxBytes && CountNewlines(s) > maxLines
      && d <= |s| && IsContinuation(s[|s| - d])
  {
    hide TailHold, CountNewlines, Decode, Accents, LineFeeds, EmitAll, NextAll, Pad, TextOf;
    var n := maxBytes + d + 1;
    var s, feeds, body := Filler(maxBytes, maxLines, d), LineFeeds(maxLines + 1), Accents(n) + Pad(d);
    LineFeedsDecode(maxLines + 1, body);
    AccentsDecode(n, Pad(d));
    NewlinesAppend(feeds, body);
    PadText(d);
    PlainStripsToItself(s);
    assert TextOf(Decode(s)) + [] == s;
    BodyEnds(n, d);
    TailBehindAscii(feeds, body, |body|);
    TailFrom(feeds + body);
    TailFrom(body);
    assert s[|s| - d] == body[|body| - d];
  }

  lemma TailFrom(s: seq<Byte>)
    ensures TailHold(s) == TailHoldFrom(s, |s|)
  {
  }

  lemma PadText(d: nat)
    ensures TextOf(Decode(Pad(d))) == Pad(d) && ESC !in Pad(d)
  {
    if d % 2 == 0 {
      TextOfFirst([0x61]);
      assert [0x61][1..] == [];
    }
  }

  lemma BodyEnds(n: nat, d: nat)
    requires 0 < d < n
    ensures
      var body := Accents(n) + Pad(d);
      TailHold(body) == 0 && IsContinuation(body[|body| - d])
  {
    hide Accents, TailHold;
    var body := Accents(n) + Pad(d);
    if d % 2 == 0 {
      SecondHalf(n, (d - 2) / 2);
      EndsInAscii(body);
    } else {
      SecondHalf(n, (d - 1) / 2);
      SecondHalf(n, 0);
      assert body == Accents(n);
      EndsInAccent(body);
    }
  }

  lemma EndsInAccent(s: seq<Byte>)
    requires |s| >= 2 && s[|s| - 1] == 0xA9 && s[|s| - 2] == 0xC3
    ensures TailHold(s) == 0
  {
    assert TailHoldFrom(s, |s|) == TailHoldFrom(s, |s| - 1);
  }

  /** Behind a reset, text without escapes is recorded as it is, whatever was held. */
  lemma FedBehindReset(p: seq<Byte>, text: seq<Byte>)
    requires ESC !in text && TailHold(text) == 0 && Strip(text) == text && text != []
    ensures
      var fed := Absorb(p, RESET + text);
      fed.1 == [] && |text| <= |fed.0| && fed.0[|fed.0| - |text|..] == text
      && CountNewlines(fed.0) >= CountNewlines(text)
  {
    hide Decode, EmitAll, NextAll, TailHold, CutsCleanly, HoldBack, NextBytes;
    var e := p + RESET;
    var c := e + text;
    assert p + (RESET + text) == c;
    Resets(TrackAll(Ground, p), NextBytes(Ground, p));
    TrackAppend(Ground, p, RESET);
    NextBytesAppend(Ground, p, RESET);
    NextIsBytewise(Ground, e);
    NothingIsHeld(e, text);
    assert c[..|c|] == c && c[|c|..] == [];
    EndsInAscii(e);
    CleanBehind(e, text);
    StripAcrossCut(e, text);
    var before := EmitAll(Ground, Decode(e));
    assert Strip(c) == before + text;
    NewlinesAppend(before, text);
  }

  lemma CleanBehind(e: seq<Byte>, text: seq<Byte>)
    requires TailHold(e) == 0
    ensures CutsCleanly(e, text)
  {
  }

  lemma NothingIsHeld(e: seq<Byte>, text: seq<Byte>)
    requires TrackAll(Ground, e) == Ground && ESC !in text && TailHold(text) == 0 && text != []
    requires e != [] && e[|e| - 1] < 0x80
    ensures HoldBack(e + text) == 0
  {
    TrackAppend(Ground, e, text);
    StaysInGround(text);
    TailBehindAscii(e, text, |text|);
  }

  lemma {:induction false} TailBehindAscii(e: seq<Byte>, s: seq<Byte>, j: nat)
    requires e != [] && e[|e| - 1] < 0x80
    requires j <= |s| && forall i :: j <= i < |s| ==> IsContinuation(s[i])
    ensures forall i :: |e| + j <= i < |e + s| ==> IsContinuation((e + s)[i])
    ensures TailHoldFrom(e + s, |e| + j) == TailHoldFrom(s, j)
    decreases j
  {
    if j > 0 {
      assert (e + s)[|e| + j - 1] == s[j - 1];
      if IsContinuation(s[j - 1]) {
        TailBehindAscii(e, s, j - 1);
      }
    }
  }

  /** A last chunk that alone exceeds a limit takes every chunk with it. */
  lemma AllDropped(l: Log, c: Chunk, text: seq<Byte>, a: Log)
    requires Accounted(l) && Accounted(a) && a.chunks == l.chunks + [c]
    requires a.plain == l.plain + text && a.maxBytes == l.maxBytes && a.maxLines == l.maxLines
    requires l.maxBytes > 0 || l.maxLines > 0
    requires |text| > l.maxBytes && c.lines > l.maxLines
    ensures LeastFrom(a, 0) == |a.chunks|
  {
    var n := LeastFrom(a, 0);
    if n < |a.chunks| {
      LastIsOver(l, c, text, a, n);
    }
  }

  lemma LastIsOver(l: Log, c: Chunk, text: seq<Byte>, a: Log, n: nat)
    requires Accounted(l) && Accounted(a) && a.chunks == l.chunks + [c] && n < |a.chunks|
    requires a.plain == l.plain + text && a.maxBytes == l.maxBytes && a.maxLines == l.maxLines
    requires l.maxBytes > 0 || l.maxLines > 0
    requires |text| > l.maxBytes && c.lines > l.maxLines
    ensures OverAfter(a, n)
  {
    SumSnoc(l.chunks, c);
    TotalOfPrefix(l.chunks, [c], n);
    TotalGrows(l.chunks, n, |l.chunks|);
    TotalGrows(a.chunks, n, |a.chunks|);
  }

  /** Where the ledger falls short of the text and there is a limit, some frame tears a character. */
  lemma TornCut(l: Log) returns (f: seq<Byte>)
    requires Accounted(l) && !Exact(l) && l.mode.Plain() && (l.maxBytes > 0 || l.maxLines > 0)
    ensures ForcedText(l, f) == [] && !CleanCut(l, Feed(f))
  {
    hide Absorb, Accounted, CountNewlines, Filler, CleanCut, Exact;
    var d := Shortfall(l);
    var filler := Filler(l.maxBytes, l.maxLines, d);
    f := RESET + filler;
    FillerText(l.maxBytes, l.maxLines, d);
    FedBehindReset(l.pending, filler);
    var text := TextOfFrame(l, f);
    assert text[|text| - d] == filler[|filler| - d];
    FrameTears(l, f, text, d);
  }

  /** A frame whose text alone exceeds the limits cuts as far from its end as the ledger falls short. */
  lemma FrameTears(l: Log, f: seq<Byte>, text: seq<Byte>, d: nat)
    requires Accounted(l) && l.mode.Plain() && (l.maxBytes > 0 || l.maxLines > 0) && f != []
    requires text == TextOfFrame(l, f) && Carried(l, f) == []
    requires |text| > l.maxBytes && CountNewlines(text) > l.maxLines
    requires 0 < d <= |text| && Sum(l.chunks).plainLen + d == |l.plain| && IsContinuation(text[|text| - d])
    ensures ForcedText(l, f) == [] && !CleanCut(l, Feed(f))
  {
    hide Absorb, Accounted, CountNewlines, TextOfFrame, Carried;
    var a := Appended(l, f);
    assert (l.plain + text) + [] == l.plain + text;
    AppendedIsAccounted(l, f);
    AllDropped(l, ChunkOf(l, f), text, a);
    SumSnoc(l.chunks, ChunkOf(l, f));
    assert a.plain[|a.plain| - d] == text[|text| - d];
  }

  /** How far the ledger falls short of the text. */
  function Shortfall(l: Log): (d: nat)
    requires Accounted(l)
    ensures Sum(l.chunks).plainLen + d == |l.plain|
    ensures !Exact(l) ==> d > 0
  {
    |l.plain| - Sum(l.chunks).plainLen
  }

  /**
   * Whatever comes next cuts between two characters, if it cuts, exactly in the runs in which no forced flush has
   * yielded text, and where there are no limits.
   */
  lemma CutsAreCleanExactlyWhen(mode: TranscriptMode, maxBytes: nat, maxLines: nat, ops: seq<Op>)
    ensures
      var l0 := Empty(mode, maxBytes, maxLines);
      (forall next :: CleanCut(Run(l0, ops), next)) <==> Quiet(l0, ops) || (maxBytes == 0 && maxLines == 0)
  {
    hide CleanCut, Exact, Accounted, Quiet, Step, Aligned;
    var l0 := Empty(mode, maxBytes, maxLines);
    NothingIsAccounted(mode, maxBytes, maxLines);
    var l := Run(l0, ops);
    if Quiet(l0, ops) {
      forall next
        ensures CleanCut(l, next)
      {
        CutsFallBetweenCharacters(mode, maxBytes, maxLines, ops, next);
        AlignedIsClean(l, next);
      }
    } else if maxBytes == 0 && maxLines == 0 {
      UnlimitedStarts(mode, ops);
      forall next
        ensures CleanCut(l, next)
      {
        UnlimitedStep(l, next);
      }
    } else {
      ExactExactlyWhenQuiet(mode, maxBytes, maxLines, ops);
      LimitsStay(mode, maxBytes, maxLines, ops);
      if !mode.Plain() {
        RawRunsAreQuiet(mode, maxBytes, maxLines, ops);
      }
      var f := TornCut(l);
      assert !CleanCut(l, Feed(f));
    }
  }

  lemma NothingIsAccounted(mode: TranscriptMode, maxBytes: nat, maxLines: nat)
    ensures Accounted(Empty(mode, maxBytes, maxLines))
  {
  }

  lemma {:induction false} LimitsStay(mode: TranscriptMode, maxBytes: nat, maxLines: nat, ops: seq<Op>)
    ensures
      var l := Run(Empty(mode, maxBytes, maxLines), ops);
      l.mode == mode && l.maxBytes == maxBytes && l.maxLines == maxLines
    decreases |ops|
  {
    hide Accounted;
    if ops != [] {
      LimitsStay(mode, maxBytes, maxLines, ops[..|ops| - 1]);
    }
  }

  // ---------------------------------------------------------------------
  // Two frames are enough
  // ---------------------------------------------------------------------

  /**
   * A frame of a DCS and more than 1024 bytes in all, and then one letter: with a limit of one byte the second
   * recording drops one byte of text, the first half of a character.
   */
  lemma TwoFramesTear(n: nat)
    requires 6 + 2 * n > MAX_PENDING_PREFIX_BYTES
    ensures
      var l := Run(Empty(PlainText, 1, 0), [Feed(Unterminated(Accents(n)))]);
      && l.plain == Accents(n) && Accounted(Appended(l, [0x78]))
      && var a := Appended(l, [0x78]);
         && a.plain == Accents(n) + [0x78] && Total(a.chunks, LeastFrom(a, 0)).plainLen == 1 && !IsBoundary(a.plain, 1)
         && !CleanCut(l, Feed([0x78]))
  {
    hide Strip, HoldBack, Absorb, Enforce, Step, Exact;
    var text := Accents(n);
    var l0, f := Empty(PlainText, 1, 0), Unterminated(text);
    ForcedFlushHappens(PlainText, 1, 0, text);
    AccentsDecode(n, []);
    assert text + [] == text && TextOf(Decode([])) == [];
    assert [Feed(f)][..0] == [] && Run(l0, []) == l0 && Run(l0, [Feed(f)]) == Step(l0, Feed(f));
    SecondHalf(n, n - 1);
    FirstLeaves(l0, f, text);
    SecondTears(Step(l0, Feed(f)), text);
  }

  /** The first frame leaves text that no chunk accounts for. */
  lemma FirstLeaves(l0: Log, f: seq<Byte>, text: seq<Byte>)
    requires l0 == Empty(PlainText, 1, 0) && |f| > 0 && |text| > 1
    requires TextOfFrame(l0, f) == [] && ForcedText(l0, f) == text
    ensures var l := Step(l0, Feed(f)); Uncounted(l, text)
  {
    hide Strip, HoldBack, Absorb;
    var a := Appended(l0, f);
    AppendedIsAccounted(l0, f);
    assert a.plain == text && a.chunks == [Chunk(0, 0, 0)] && a.pending == [];
    assert Total(a.chunks, 0) == Chunk(0, 0, 0) && Total(a.chunks, 1) == Chunk(0, 0, 0);
    assert OverAfter(a, 0) && LeastFrom(a, 0) == 1;
    assert text[0..] == text && a.chunks[1..] == [] && a.raw[0..] == [];
  }

  predicate Uncounted(l: Log, text: seq<Byte>) {
    l.mode == PlainText && l.maxBytes == 1 && l.maxLines == 0 && l.pending == []
    && l.plain == text && l.chunks == [] && l.raw == [] && l.totalLines == 0
  }

  lemma SecondTears(l: Log, text: seq<Byte>)
    requires Uncounted(l, text) && |text| > 1 && IsContinuation(text[1])
    ensures Accounted(l) && Accounted(Appended(l, [0x78]))
    ensures
      var a := Appended(l, [0x78]);
      && a.plain == text + [0x78] && Total(a.chunks, LeastFrom(a, 0)).plainLen == 1 && !IsBoundary(a.plain, 1)
      && !CleanCut(l, Feed([0x78]))
  {
    hide Absorb;
    OneLetter();
    var a := Appended(l, [0x78]);
    AppendedIsAccounted(l, [0x78]);
    assert a.plain == text + [0x78] && |a.chunks| == 1 && a.chunks[0].plainLen == 1 && a.chunks[0].rawLen == 0;
    assert Total(a.chunks, 0) == Chunk(0, 0, 0) && Total(a.chunks, 1).plainLen == 1;
    assert OverAfter(a, 0) && LeastFrom(a, 0) == 1;
  }

  lemma OneLetter()
    ensures Absorb([], [0x78]) == ([0x78], [])
  {
    var s: seq<Byte> := [0x78];
    assert s[1..] == [] && [] + s == s && s[..1] == s;
    EndsInAscii(s);
    PlainStripsToItself(s);
    TextOfFirst(s);
    assert TextOf(Decode([])) == [] && [0x78] + [] == s;
  }
}
