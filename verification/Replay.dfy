/**
 * Replaying a repro dump: the raw transcript is fed to a fresh surface again, cut only where the size history says
 * the pane was resized, and must arrive where the live pane arrived.
 */
module Replay {
  import opened Bytes
  import opened ModeOverlay
  import opened OverlayLosses
  import opened Retention
  import opened TranscriptRuns

  datatype SizeEvent = SizeEvent(offset: nat, size: Size)

  /** A terminal surface, seen only through what it does. */
  datatype Backend<!S> = Backend(
    create: Size -> S, feed: (S, seq<Byte>) -> S, resize: (S, Size) -> S, modes: S -> TerminalModes)

  /** What a replayable surface has to satisfy: a byte stream is a byte stream, and a blank surface has no history. */
  ghost predicate Lawful<S(!new)>(b: Backend<S>) {
    && (forall s: S, x: seq<Byte>, y: seq<Byte> :: b.feed(b.feed(s, x), y) == b.feed(s, x + y))
    && (forall s: S :: b.feed(s, []) == s)
    && (forall z, w :: b.resize(b.create(z), w) == b.create(w))
  }

  datatype Snapshot<S> = Snapshot(surface: S, modes: TerminalModes)

  // ---------------------------------------------------------------------
  // The live pane
  // ---------------------------------------------------------------------

  /** `Finish` is the flush of the transcript when the child exits or the pane fails. */
  datatype PaneOp = Output(bytes: seq<Byte>) | Resize(size: Size) | Finish

  /** The part of a pane that a dump is taken from. */
  datatype Live<S> = Live(surface: S, overlay: OverlayState, log: Log, history: seq<SizeEvent>)

  function Spawn<S>(b: Backend<S>, size: Size, mode: TranscriptMode, maxBytes: nat, maxLines: nat): Live<S> {
    Live(b.create(size), FRESH, Empty(mode, maxBytes, maxLines), [SizeEvent(0, size)])
  }

  /** An output frame goes to the overlay, the transcript and the surface; a resize is dated by the raw offset. */
  function LiveStep<S>(b: Backend<S>, p: Live<S>, op: PaneOp): (after: Live<S>)
    requires Accounted(p.log)
    ensures Accounted(after.log)
  {
    match op
    case Output(bytes) =>
      Live(b.feed(p.surface, bytes), Updated(p.overlay, bytes), Step(p.log, Feed(bytes)), p.history)
    case Resize(size) =>
      p.(surface := b.resize(p.surface, size), history := p.history + [SizeEvent(p.log.nextRaw, size)])
    case Finish => p.(log := Step(p.log, Flush))
  }

  function LiveRun<S>(b: Backend<S>, p: Live<S>, ops: seq<PaneOp>): (after: Live<S>)
    requires Accounted(p.log)
    ensures Accounted(after.log)
  {
    if ops == [] then p else LiveStep(b, LiveRun(b, p, ops[..|ops| - 1]), ops[|ops| - 1])
  }

  function LiveSnapshot<S>(b: Backend<S>, p: Live<S>): Snapshot<S> {
    Snapshot(p.surface, Merge(p.overlay.tracked.modes, b.modes(p.surface)))
  }

  /** Every byte the pane put out, in order. */
  function OutputOf(ops: seq<PaneOp>): seq<Byte> {
    if ops == [] then []
    else OutputOf(ops[..|ops| - 1]) + (match ops[|ops| - 1] case Output(bytes) => bytes case _ => [])
  }

  // ---------------------------------------------------------------------
  // Dumps and replays
  // ---------------------------------------------------------------------

  datatype ReplayError = MissingTranscript | Truncated(start: nat) | NotReplayable | EmptyHistory | NoInitialSize

  datatype RawTranscript = RawTranscript(start: nat, bytes: seq<Byte>)

  datatype ReproDump = ReproDump(sizeHistory: seq<SizeEvent>, raw: Option<RawTranscript>, replayable: bool)

  datatype PaneReplay = PaneReplay(sizeHistory: seq<SizeEvent>, rawStart: nat, rawBytes: seq<Byte>)

  function Dump<S>(p: Live<S>): ReproDump {
    ReproDump(
      p.history,
      if p.log.mode.Raw() then Some(RawTranscript(p.log.RetainedRawStart(), p.log.raw)) else None,
      true)
  }

  predicate Sorted(h: seq<SizeEvent>) { forall i, j :: 0 <= i < j < |h| ==> h[i].offset <= h[j].offset }

  /** `e`, which stood before everything in `h`, put where a stable sort puts it. */
  function Insert(e: SizeEvent, h: seq<SizeEvent>): (r: seq<SizeEvent>)
    requires Sorted(h)
    ensures |r| == |h| + 1 && (r[0] == e || (h != [] && r[0] == h[0]))
    ensures Sorted(r)
  {
    if h == [] || e.offset <= h[0].offset then [e] + h
    else SortedCons(h[0], Insert(e, h[1..])); [h[0]] + Insert(e, h[1..])
  }

  lemma SortedCons(e: SizeEvent, h: seq<SizeEvent>)
    requires Sorted(h) && h != [] && e.offset <= h[0].offset
    ensures Sorted([e] + h)
  {
  }

  function SortByOffset(h: seq<SizeEvent>): (r: seq<SizeEvent>)
    ensures |r| == |h| && Sorted(r)
  {
    if h == [] then [] else Insert(h[0], SortByOffset(h[1..]))
  }

  lemma {:induction false} InsertKeepsAll(e: SizeEvent, h: seq<SizeEvent>)
    requires Sorted(h)
    ensures multiset(Insert(e, h)) == multiset(h) + multiset{e}
    decreases |h|
  {
    if h != [] && e.offset > h[0].offset {
      InsertKeepsAll(e, h[1..]);
      assert h == [h[0]] + h[1..];
    }
  }

  lemma {:induction false} SortKeepsAll(h: seq<SizeEvent>)
    ensures multiset(SortByOffset(h)) == multiset(h)
    decreases |h|
  {
    if h != [] {
      SortKeepsAll(h[1..]);
      InsertKeepsAll(h[0], SortByOffset(h[1..]));
      assert h == [h[0]] + h[1..];
    }
  }

  lemma {:induction false} SortKeepsSorted(h: seq<SizeEvent>)
    requires Sorted(h)
    ensures SortByOffset(h) == h
    decreases |h|
  {
    if h != [] {
      SortKeepsSorted(h[1..]);
      assert h == [h[0]] + h[1..];
    }
  }

  function NewReplay(history: seq<SizeEvent>, start: nat, bytes: seq<Byte>): Result<PaneReplay, ReplayError> {
    if history == [] then Failure(EmptyHistory) else Success(PaneReplay(SortByOffset(history), start, bytes))
  }

  function FromDump(d: ReproDump): Result<PaneReplay, ReplayError> {
    if d.raw.None? then Failure(MissingTranscript)
    else if d.raw.value.start > 0 then Failure(Truncated(d.raw.value.start))
    else if !d.replayable then Failure(NotReplayable)
    else NewReplay(d.sizeHistory, d.raw.value.start, d.raw.value.bytes)
  }

  /** How many leading entries took effect at or before `offset`. */
  function EntriesAt(h: seq<SizeEvent>, offset: nat): (n: nat)
    ensures n <= |h| && (forall i :: 0 <= i < n ==> h[i].offset <= offset) && (n < |h| ==> h[n].offset > offset)
  {
    if h == [] || h[0].offset > offset then 0 else 1 + EntriesAt(h[1..], offset)
  }

  function CurrentSizeAt(h: seq<SizeEvent>, offset: nat): Option<Size> {
    var n := EntriesAt(h, offset);
    if n == 0 then None else Some(h[n - 1].size)
  }

  // ---------------------------------------------------------------------
  // The replay loop
  // ---------------------------------------------------------------------

  datatype Stage<S> = Stage(surface: S, overlay: OverlayState, consumed: nat)

  /** Feeds everything up to `end`, if there is anything. */
  function FeedUpTo<S>(b: Backend<S>, raw: seq<Byte>, st: Stage<S>, end: nat): (after: Stage<S>)
    requires end <= |raw|
    ensures st.consumed <= |raw| ==> after.consumed == Max(end, st.consumed) <= |raw|
  {
    if end > st.consumed then
      var chunk := raw[st.consumed..end];
      Stage(b.feed(st.surface, chunk), Updated(st.overlay, chunk), end)
    else st
  }

  /** The stages from entry `i` of the history on. */
  function Replayed<S>(b: Backend<S>, h: seq<SizeEvent>, i: nat, raw: seq<Byte>, st: Stage<S>): Stage<S>
    requires i <= |h| && st.consumed <= |raw|
    decreases |h| - i
  {
    if i == |h| then FeedUpTo(b, raw, st, |raw|)
    else
      var fed := FeedUpTo(b, raw, st, Min(h[i].offset, |raw|));
      Replayed(b, h, i + 1, raw, fed.(surface := b.resize(fed.surface, h[i].size)))
  }

  function FinalSurface<S>(b: Backend<S>, r: PaneReplay): Result<Snapshot<S>, ReplayError> {
    if r.rawStart > 0 then Failure(Truncated(r.rawStart))
    else
      var size := CurrentSizeAt(r.sizeHistory, r.rawStart);
      if size.None? then Failure(NoInitialSize)
      else
        var st := Stage(b.create(size.value), FRESH, 0);
        var last := Replayed(b, r.sizeHistory, EntriesAt(r.sizeHistory, r.rawStart), r.rawBytes, st);
        Success(Snapshot(last.surface, Merge(last.overlay.tracked.modes, b.modes(last.surface))))
  }

  lemma {:induction false} EntriesCount(h: seq<SizeEvent>, offset: nat, n: nat)
    requires n <= |h| && (forall i :: 0 <= i < n ==> h[i].offset <= offset) && (n < |h| ==> h[n].offset > offset)
    ensures n == EntriesAt(h, offset)
  {
  }

  lemma ReplayedUnfold<S>(b: Backend<S>, h: seq<SizeEvent>, i: nat, raw: seq<Byte>, st: Stage<S>)
    requires i < |h| && st.consumed <= |raw|
    ensures
      var fed := FeedUpTo(b, raw, st, Min(h[i].offset, |raw|));
      Replayed(b, h, i, raw, st) == Replayed(b, h, i + 1, raw, Stage(b.resize(fed.surface, h[i].size), fed.overlay, fed.consumed))
  {
  }

  lemma ReplayedEnd<S>(b: Backend<S>, h: seq<SizeEvent>, raw: seq<Byte>, st: Stage<S>)
    requires st.consumed <= |raw|
    ensures Replayed(b, h, |h|, raw, st) == FeedUpTo(b, raw, st, |raw|)
  {
  }

  method ComputeFinalSurface<S(0)>(b: Backend<S>, r: PaneReplay) returns (result: Result<Snapshot<S>, ReplayError>)
    ensures result == FinalSurface(b, r)
  {
    hide CurrentSizeAt, Replayed;
    if r.rawStart > 0 {
      return Failure(Truncated(r.rawStart));
    }
    var initial := CurrentSizeAt(r.sizeHistory, r.rawStart);
    if initial.None? {
      return Failure(NoInitialSize);
    }
    var nextResize := 0;
    while nextResize < |r.sizeHistory| && r.sizeHistory[nextResize].offset <= r.rawStart
      invariant 0 <= nextResize <= |r.sizeHistory|
      invariant forall i :: 0 <= i < nextResize ==> r.sizeHistory[i].offset <= r.rawStart
    {
      nextResize := nextResize + 1;
    }
    EntriesCount(r.sizeHistory, r.rawStart, nextResize);
    var snapshot := ReplayHistory(b, r, nextResize, b.create(initial.value));
    return Success(snapshot);
  }

  /** The history from entry `from` on, on a new surface, and the rest of the stream. */
  method ReplayHistory<S(0)>(b: Backend<S>, r: PaneReplay, from: nat, initial: S) returns (snapshot: Snapshot<S>)
    requires r.rawStart == 0 && from <= |r.sizeHistory|
    ensures
      var last := Replayed(b, r.sizeHistory, from, r.rawBytes, Stage(initial, FRESH, 0));
      snapshot == Snapshot(last.surface, Merge(last.overlay.tracked.modes, b.modes(last.surface)))
  {
    hide FeedUpTo, Updated, Replayed, Merge;
    var surface := initial;
    var overlay := new TerminalModeOverlay();
    var consumed, nextResize := 0, from;
    while nextResize < |r.sizeHistory|
      invariant from <= nextResize <= |r.sizeHistory| && 0 <= consumed <= |r.rawBytes| && fresh(overlay)
      invariant Replayed(b, r.sizeHistory, from, r.rawBytes, Stage(initial, FRESH, 0))
        == Replayed(b, r.sizeHistory, nextResize, r.rawBytes, Stage(surface, overlay.View(), consumed))
    {
      surface, consumed := ReplayEntry(b, r, nextResize, surface, overlay, consumed);
      nextResize := nextResize + 1;
    }
    ReplayedEnd(b, r.sizeHistory, r.rawBytes, Stage(surface, overlay.View(), consumed));
    surface, consumed := FeedChunk(b, r.rawBytes, surface, overlay, consumed, |r.rawBytes|);
    return Snapshot(surface, overlay.MergeWith(b.modes(surface)));
  }

  /** One entry of the history: what came before it is fed, then it takes effect. */
  method ReplayEntry<S>(
    b: Backend<S>, r: PaneReplay, i: nat, before: S, overlay: TerminalModeOverlay, consumed: nat)
    returns (surface: S, consumed': nat)
    requires i < |r.sizeHistory| && consumed <= |r.rawBytes| && r.rawStart == 0
    modifies overlay
    ensures consumed' <= |r.rawBytes|
    ensures Replayed(b, r.sizeHistory, i, r.rawBytes, Stage(before, old(overlay.View()), consumed))
      == Replayed(b, r.sizeHistory, i + 1, r.rawBytes, Stage(surface, overlay.View(), consumed'))
  {
    hide FeedUpTo, Updated, Replayed;
    var resize := r.sizeHistory[i];
    var relativeEnd := if resize.offset < r.rawStart then 0 else resize.offset - r.rawStart;
    ReplayedUnfold(b, r.sizeHistory, i, r.rawBytes, Stage(before, overlay.View(), consumed));
    surface, consumed' := FeedChunk(b, r.rawBytes, before, overlay, consumed, Min(relativeEnd, |r.rawBytes|));
    surface := b.resize(surface, resize.size);
  }

  method FeedChunk<S>(
    b: Backend<S>, raw: seq<Byte>, before: S, overlay: TerminalModeOverlay, consumed: nat, end: nat)
    returns (surface: S, consumed': nat)
    requires consumed <= |raw| && end <= |raw|
    modifies overlay
    ensures Stage(surface, overlay.View(), consumed') == FeedUpTo(b, raw, Stage(before, old(overlay.View()), consumed), end)
  {
    surface, consumed' := before, consumed;
    if end > consumed {
      var chunk := raw[consumed..end];
      var _ := overlay.UpdateFromOutput(chunk);
      surface := b.feed(surface, chunk);
      consumed' := end;
    }
  }

  // ---------------------------------------------------------------------
  // Replay refines the live run
  // ---------------------------------------------------------------------

  /** A history that starts at offset 0, is in order, and dates nothing after the end of `s`. */
  predicate GoodHistory(h: seq<SizeEvent>, length: nat) {
    h != [] && h[0].offset == 0 && Sorted(h) && h[|h| - 1].offset <= length
  }

  /** The surface that has seen all of `s`, resized wherever `h` says so. */
  function Shown<S>(b: Backend<S>, s: seq<Byte>, h: seq<SizeEvent>): S
    requires GoodHistory(h, |s|)
    decreases |h|
  {
    var last := h[|h| - 1];
    if |h| == 1 then b.feed(b.create(last.size), s)
    else b.feed(b.resize(Shown(b, s[..last.offset], h[..|h| - 1]), last.size), s[last.offset..])
  }

  lemma ShownGrows<S(!new)>(b: Backend<S>, s: seq<Byte>, more: seq<Byte>, h: seq<SizeEvent>)
    requires Lawful(b) && GoodHistory(h, |s|)
    ensures Shown(b, s + more, h) == b.feed(Shown(b, s, h), more)
  {
    var last := h[|h| - 1];
    if |h| > 1 {
      assert (s + more)[..last.offset] == s[..last.offset];
      assert (s + more)[last.offset..] == s[last.offset..] + more;
    }
  }

  lemma ShownResizes<S(!new)>(b: Backend<S>, s: seq<Byte>, h: seq<SizeEvent>, size: Size)
    requires Lawful(b) && GoodHistory(h, |s|)
    ensures GoodHistory(h + [SizeEvent(|s|, size)], |s|)
    ensures Shown(b, s, h + [SizeEvent(|s|, size)]) == b.resize(Shown(b, s, h), size)
  {
    var h' := h + [SizeEvent(|s|, size)];
    assert h'[..|h|] == h && s[..|s|] == s && s[|s|..] == [];
  }

  lemma {:induction false} LiveShows<S(!new)>(
    b: Backend<S>, size: Size, mode: TranscriptMode, maxBytes: nat, maxLines: nat, ops: seq<PaneOp>)
    requires Lawful(b)
    ensures
      var p, s := LiveRun(b, Spawn(b, size, mode, maxBytes, maxLines), ops), OutputOf(ops);
      && p.log.nextRaw == |s| && GoodHistory(p.history, |s|) && p.surface == Shown(b, s, p.history)
    decreases |ops|
  {
    hide Step, Updated, Shown, Lawful;
    if ops == [] {
      FirstShown(b, size);
    } else {
      var before := ops[..|ops| - 1];
      var p, s := LiveRun(b, Spawn(b, size, mode, maxBytes, maxLines), before), OutputOf(before);
      LiveShows(b, size, mode, maxBytes, maxLines, before);
      match ops[|ops| - 1]
      case Output(bytes) =>
        StepCounts(p.log, Feed(bytes));
        ShownGrows(b, s, bytes, p.history);
      case Resize(z) =>
        ShownResizes(b, s, p.history, z);
        assert s + [] == s;
      case Finish =>
        StepCounts(p.log, Flush);
        assert s + [] == s;
    }
  }

  lemma FirstShown<S(!new)>(b: Backend<S>, size: Size)
    requires Lawful(b)
    ensures Shown(b, [], [SizeEvent(0, size)]) == b.create(size)
  {
  }

  lemma StepCounts(l: Log, op: Op)
    requires Accounted(l)
    ensures Step(l, op).nextRaw == l.nextRaw + (if op.Feed? then |op.bytes| else 0)
  {
  }

  /** The live transcript and overlay saw the same stream. */
  lemma {:induction false} LiveStreams<S>(
    b: Backend<S>, size: Size, mode: TranscriptMode, maxBytes: nat, maxLines: nat, ops: seq<PaneOp>)
    ensures
      var p, s := LiveRun(b, Spawn(b, size, mode, maxBytes, maxLines), ops), OutputOf(ops);
      && p.log == Run(Empty(mode, maxBytes, maxLines), FeedsOf(ops)) && RawStream(FeedsOf(ops)) == s
      && Seen(s, p.overlay)
    decreases |ops|
  {
    hide Seen, Step, Updated;
    if ops == [] {
      NothingSeen();
    } else {
      var before, op := ops[..|ops| - 1], ops[|ops| - 1];
      LiveStreams(b, size, mode, maxBytes, maxLines, before);
      match op
      case Output(bytes) =>
        assert FeedsOf(ops)[..|FeedsOf(before)|] == FeedsOf(before);
        SeenGrows(OutputOf(before), bytes, LiveRun(b, Spawn(b, size, mode, maxBytes, maxLines), before).overlay);
      case Resize(_) =>
        assert OutputOf(before) + [] == OutputOf(before);
        assert FeedsOf(before) + [] == FeedsOf(before);
      case Finish =>
        assert OutputOf(before) + [] == OutputOf(before);
        assert FeedsOf(ops)[..|FeedsOf(before)|] == FeedsOf(before);
    }
  }

  function FeedsOf(ops: seq<PaneOp>): seq<Op> {
    if ops == [] then []
    else
      FeedsOf(ops[..|ops| - 1])
      + (match ops[|ops| - 1] case Output(bytes) => [Feed(bytes)] case Resize(_) => [] case Finish => [Flush])
  }

  /** The stage in which everything before `consumed` was fed and the first `i` entries took effect. */
  ghost predicate OnTrack<S>(b: Backend<S>, s: seq<Byte>, h: seq<SizeEvent>, i: nat, st: Stage<S>)
    requires GoodHistory(h, |s|)
  {
    && 1 <= i <= |h| && st.consumed <= |s| && h[i - 1].offset <= st.consumed
    && st.surface == Shown(b, s[..st.consumed], h[..i])
    && Seen(s[..st.consumed], st.overlay)
  }

  lemma FeedKeepsTrack<S(!new)>(b: Backend<S>, s: seq<Byte>, h: seq<SizeEvent>, i: nat, st: Stage<S>, end: nat)
    requires Lawful(b) && GoodHistory(h, |s|) && OnTrack(b, s, h, i, st)
    requires st.consumed <= end <= |s|
    ensures FeedUpTo(b, s, st, end).consumed == end && OnTrack(b, s, h, i, FeedUpTo(b, s, st, end))
  {
    hide Seen, Updated;
    if end > st.consumed {
      var done, chunk := s[..st.consumed], s[st.consumed..end];
      assert s[..end] == done + chunk;
      SeenGrows(done, chunk, st.overlay);
      ShownGrows(b, done, chunk, h[..i]);
    }
  }

  lemma {:induction false} ReplayKeepsTrack<S(!new)>(b: Backend<S>, s: seq<Byte>, h: seq<SizeEvent>, i: nat, st: Stage<S>)
    requires Lawful(b) && GoodHistory(h, |s|) && OnTrack(b, s, h, i, st)
    requires i < |h| ==> st.consumed <= h[i].offset
    ensures
      var last := Replayed(b, h, i, s, st);
      last.surface == Shown(b, s, h) && Seen(s, last.overlay)
    decreases |h| - i
  {
    hide Shown, Lawful, Seen, Updated, FeedUpTo;
    if i == |h| {
      FeedKeepsTrack(b, s, h, i, st, |s|);
      assert s[..|s|] == s && h[..|h|] == h;
    } else {
      var end := h[i].offset;
      assert end <= h[|h| - 1].offset;
      var fed := FeedUpTo(b, s, st, end);
      FeedKeepsTrack(b, s, h, i, st, end);
      ShownResizes(b, s[..end], h[..i], h[i].size);
      assert h[..i + 1] == h[..i] + [SizeEvent(end, h[i].size)];
      ReplayKeepsTrack(b, s, h, i + 1, fed.(surface := b.resize(fed.surface, h[i].size)));
    }
  }

  /** Resizes before the first byte leave a blank surface of the last size. */
  lemma {:induction false} BlankStart<S(!new)>(b: Backend<S>, h: seq<SizeEvent>, n: nat)
    requires Lawful(b) && 1 <= n <= |h| && h[0].offset == 0 && Sorted(h) && h[n - 1].offset == 0
    ensures Shown(b, [], h[..n]) == b.create(h[n - 1].size)
    decreases n
  {
    if n > 1 {
      BlankStart(b, h, n - 1);
      assert h[..n][..n - 1] == h[..n - 1];
      var none: seq<Byte> := [];
      assert none[..0] == [] && none[0..] == [];
    }
  }

  /** Replaying a whole stream reaches what a surface shows that saw the stream and the resizes live. */
  lemma ReplayShows<S(!new)>(b: Backend<S>, s: seq<Byte>, h: seq<SizeEvent>)
    requires Lawful(b) && GoodHistory(h, |s|) && LossesDoNotShow(s)
    ensures FinalSurface(b, PaneReplay(h, 0, s))
      == Success(Snapshot(Shown(b, s, h), Merge(Apply(s, DEFAULTS).modes, b.modes(Shown(b, s, h)))))
  {
    hide Lawful, Apply, LossesDoNotShow, Seen, Merge, Updated, FeedUpTo;
    var n := EntriesAt(h, 0);
    BlankStart(b, h, n);
    var st := Stage(b.create(h[n - 1].size), FRESH, 0);
    assert s[..0] == [];
    NothingSeen();
    ReplayKeepsTrack(b, s, h, n, st);
    SeenIsAll(s, Replayed(b, h, n, s, st).overlay);
  }

  /**
   * A dump whose raw transcript was never rotated replays, and to the snapshot of the live pane: the same surface
   * and the same merged modes, although the replay cuts the stream at resizes only; for any output but such on which
   * a cut can show in the modes at all.
   */
  lemma ReplayRefinesLive<S(!new)>(
    b: Backend<S>, size: Size, mode: TranscriptMode, maxBytes: nat, maxLines: nat, ops: seq<PaneOp>)
    requires Lawful(b) && mode.Raw() && LossesDoNotShow(OutputOf(ops))
    requires LiveRun(b, Spawn(b, size, mode, maxBytes, maxLines), ops).log.RetainedRawStart() == 0
    ensures
      var p := LiveRun(b, Spawn(b, size, mode, maxBytes, maxLines), ops);
      && FromDump(Dump(p)).Success?
      && FinalSurface(b, FromDump(Dump(p)).value) == Success(LiveSnapshot(b, p))
  {
    hide Lawful, Apply, LossesDoNotShow, Seen, Merge, Shown, LiveRun, OutputOf, FeedsOf, FinalSurface, SortByOffset;
    var p, s := LiveRun(b, Spawn(b, size, mode, maxBytes, maxLines), ops), OutputOf(ops);
    LiveShows(b, size, mode, maxBytes, maxLines, ops);
    LiveStreams(b, size, mode, maxBytes, maxLines, ops);
    RawIsSuffix(mode, maxBytes, maxLines, FeedsOf(ops));
    assert p.log.raw == s;
    SeenIsAll(s, p.overlay);
    SortKeepsSorted(p.history);
    ReplayShows(b, s, p.history);
  }

  /** A rotated transcript is refused rather than replayed from the middle. */
  lemma RotatedIsRefused<S>(
    b: Backend<S>, size: Size, mode: TranscriptMode, maxBytes: nat, maxLines: nat, ops: seq<PaneOp>)
    ensures
      var p := LiveRun(b, Spawn(b, size, mode, maxBytes, maxLines), ops);
      FromDump(Dump(p)).Success? <==> mode.Raw() && |p.log.raw| == |OutputOf(ops)|
  {
    var p := LiveRun(b, Spawn(b, size, mode, maxBytes, maxLines), ops);
    LiveStreams(b, size, mode, maxBytes, maxLines, ops);
    RawIsSuffix(mode, maxBytes, maxLines, FeedsOf(ops));
    HistoryIsKept(b, size, mode, maxBytes, maxLines, ops);
  }

  lemma {:induction false} HistoryIsKept<S>(
    b: Backend<S>, size: Size, mode: TranscriptMode, maxBytes: nat, maxLines: nat, ops: seq<PaneOp>)
    ensures LiveRun(b, Spawn(b, size, mode, maxBytes, maxLines), ops).history != []
    decreases |ops|
  {
    if ops != [] {
      HistoryIsKept(b, size, mode, maxBytes, maxLines, ops[..|ops| - 1]);
    }
  }
}
