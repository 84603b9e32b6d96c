/** What a pane shows and tells of its frames: the modes, the surface, and the events, against the frames themselves. */
module PaneNews {
  import opened Bytes
  import opened FrameQueue
  import opened ModeOverlay
  import opened OverlayChunks
  import opened OverlayLosses
  import opened ModeMeanings
  import opened Retention
  import opened TranscriptRuns
  import opened PaneLifecycle
  import opened PaneTexts

  // ---------------------------------------------------------------------
  // Overlay and surface
  // ---------------------------------------------------------------------

  /** The bytes of the outputs the surface took, in order, and how many there were. */
  function TakenBytes(frames: seq<PtyFrame>, replies: nat -> FeedReply, from: nat): (seq<Byte>, nat) {
    if frames == [] then ([], 0)
    else
      var n := |frames| - 1;
      var (bytes, count) := TakenBytes(frames[..n], replies, from);
      if frames[n].Output? && replies(from + n) != Rejected then (bytes + frames[n].bytes, count + 1) else (bytes, count)
  }

  lemma FrameShows(v: View, frame: PtyFrame, reply: FeedReply)
    requires Accounted(v.log)
    ensures
      var after := AfterFrame(v, frame, reply);
      && after.overlay == (if frame.Output? then Updated(v.overlay, frame.bytes) else v.overlay)
      && if frame.Output? && reply != Rejected
         then after.surface == v.surface + frame.bytes && after.generation == v.generation + 1
         else after.surface == v.surface && after.generation == v.generation
  {
    hide Step, Updated, Accounted, OffsetOf, FlushedRotation, RecordedRotation;
  }

  /** The overlay has seen all output, whether the surface took it or not; the surface shows what it took. */
  lemma {:induction false} FramesShow(v: View, frames: seq<PtyFrame>, replies: nat -> FeedReply, from: nat)
    requires Accounted(v.log)
    ensures
      var after, (bytes, count) := AfterFrames(v, frames, replies, from), TakenBytes(frames, replies, from);
      && after.overlay == UpdatedAll(v.overlay, OutputChunks(frames))
      && after.surface == v.surface + bytes && after.generation == v.generation + count
    decreases |frames|
  {
    hide AfterFrame, Accounted, Updated;
    if frames == [] {
      assert v.surface + [] == v.surface;
    } else {
      var n := |frames| - 1;
      var before, last := AfterFrames(v, frames[..n], replies, from), frames[n];
      FramesShow(v, frames[..n], replies, from);
      FrameShows(before, last, replies(from + n));
      Regroup(v.surface, TakenBytes(frames[..n], replies, from).0, if last.Output? then last.bytes else []);
      if last.Output? {
        UpdatedAppend(v.overlay, OutputChunks(frames[..n]), [last.bytes]);
        OneUpdate(UpdatedAll(v.overlay, OutputChunks(frames[..n])), last.bytes);
      } else {
        assert OutputChunks(frames[..n]) + [] == OutputChunks(frames[..n]);
      }
    }
  }

  lemma OneUpdate(o: OverlayState, bytes: seq<Byte>)
    ensures UpdatedAll(o, [bytes]) == Updated(o, bytes)
  {
    assert [bytes][1..] == [];
  }

  /** A new pane's tracked modes are those its output has set and not reset, if no loss shows. */
  lemma PaneModesMean(v: View, frames: seq<PtyFrame>, replies: nat -> FeedReply, from: nat)
    requires Accounted(v.log) && v.overlay == FRESH && LossesDoNotShow(OutputBytes(frames))
    ensures
      var m, s := AfterFrames(v, frames, replies, from).overlay.tracked.modes, OutputBytes(frames);
      && (m.bracketedPaste <==> On(s, {2004})) && (m.focusEvents <==> On(s, {1004}))
      && (m.applicationCursor <==> On(s, {1})) && (m.alternateScreen <==> On(s, {47, 1047, 1049}))
      && m.mouse == MouseOf(s)
  {
    hide On, MouseOf, LossesDoNotShow, AfterFrames;
    FramesShow(v, frames, replies, from);
    ChunksAreTheOutput(frames);
    OverlayModesMean(OutputChunks(frames));
  }

  // ---------------------------------------------------------------------
  // Events
  // ---------------------------------------------------------------------

  /** The events that tell of frames, without the place of an output in the transcript. */
  function News(history: seq<EventKind>): seq<EventKind> {
    if history == [] then []
    else
      var last := history[|history| - 1];
      News(history[..|history| - 1])
      + (match last
         case Output(length, _, containsEscape) => [EventKind.Output(length, None, containsEscape)]
         case StateChanged(_, _) => []
         case TranscriptRotated(_) => []
         case Spawned(_) => []
         case other => [other])
  }

  /** What is to be told of a frame, the surface having taken `taken` frames before. */
  function ToTell(frame: PtyFrame, reply: FeedReply, taken: nat): seq<EventKind> {
    match frame
    case Output(_, bytes, _) =>
      [EventKind.Output(|bytes|, None, 0x1B in bytes)]
      + (if reply == Rejected then [EventKind.Error(SurfaceError)]
         else if reply == Accepted(true) then [SurfaceChanged(taken + 1)] else [])
    case Overflow(_, frames, bytes, _) => [EventKind.Overflow(frames, bytes)]
    case Error(_, message, _) => [EventKind.Error(IoError(message))]
    case Exited(_, code, _) => [EventKind.Exited(code)]
    case CursorPositionRequest(_, _) => []
  }

  function AllToTell(frames: seq<PtyFrame>, replies: nat -> FeedReply, from: nat, taken: nat): seq<EventKind> {
    if frames == [] then []
    else
      var n := |frames| - 1;
      AllToTell(frames[..n], replies, from, taken)
      + ToTell(frames[n], replies(from + n), taken + TakenBytes(frames[..n], replies, from).1)
  }

  lemma NewsSnoc(history: seq<EventKind>, kind: EventKind)
    ensures News(history + [kind]) == News(history)
      + (match kind
         case Output(length, _, containsEscape) => [EventKind.Output(length, None, containsEscape)]
         case StateChanged(_, _) => []
         case TranscriptRotated(_) => []
         case Spawned(_) => []
         case other => [other])
  {
    assert (history + [kind])[..|history|] == history;
  }

  lemma FlushTellsNothing(v: View)
    requires Accounted(v.log)
    ensures News(FlushedPane(v).history) == News(v.history)
  {
    hide Step, Accounted, FlushedRotation;
    var r := FlushedRotation(v.log);
    if r.Some? {
      NewsSnoc(v.history, TranscriptRotated(r.value));
    }
  }

  lemma MoveTellsNothing(v: View, state: PaneState)
    ensures News(Moved(v, state).history) == News(v.history)
  {
    NewsSnoc(v.history, StateChanged(v.state, state));
  }

  lemma FailureTells(v: View, error: PaneError)
    requires Accounted(v.log)
    ensures News(FailedPane(v, error).history) == News(v.history) + [EventKind.Error(error)]
  {
    hide FlushedPane, Accounted, News, Moved;
    var flushed := FlushedPane(v);
    FlushTellsNothing(v);
    NewsSnoc(flushed.history, EventKind.Error(error));
    MoveTellsNothing(Settled(Emitted(flushed, EventKind.Error(error)), PaneExit.Failed(error)), PaneState.Failed(error));
  }

  lemma ExitTells(v: View, code: Option<int>)
    requires Accounted(v.log)
    ensures News(ExitedPane(v, code).history) == News(v.history) + [EventKind.Exited(code)]
  {
    hide FlushedPane, Accounted, News, Moved;
    var flushed := FlushedPane(v.(exitObserved := true));
    FlushTellsNothing(v.(exitObserved := true));
    NewsSnoc(flushed.history, EventKind.Exited(code));
    MoveTellsNothing(Settled(Emitted(flushed, EventKind.Exited(code)), PaneExit.Exited(code)), PaneState.Exited(code));
  }

  lemma RecordTellsNothing(v: View, bytes: seq<Byte>)
    requires Accounted(v.log)
    ensures News(RecordedPane(v, bytes).history) == News(v.history) && RecordedPane(v, bytes).generation == v.generation
  {
    hide Step, Accounted, RecordedRotation, Updated;
    var r := RecordedRotation(v.log, bytes);
    if r.Some? {
      NewsSnoc(v.history, TranscriptRotated(r.value));
    }
  }

  lemma OutputTells(v: View, bytes: seq<Byte>, reply: FeedReply)
    requires Accounted(v.log)
    ensures News(OutputPane(v, bytes, reply).history)
      == News(v.history) + ToTell(PtyFrame.Output(0, bytes, 0), reply, v.generation)
  {
    hide RecordedPane, FailedPane, Accounted, News, OffsetOf;
    var recorded := RecordedPane(v, bytes);
    var event := EventKind.Output(|bytes|, OffsetOf(v.log, bytes), 27 in bytes);
    RecordTellsNothing(v, bytes);
    NewsSnoc(recorded.history, event);
    var told := News(v.history) + [EventKind.Output(|bytes|, None, 27 in bytes)];
    if reply.Rejected? {
      FailureTells(Emitted(recorded, event), SurfaceError);
      assert told + [EventKind.Error(SurfaceError)] == News(v.history) + ToTell(PtyFrame.Output(0, bytes, 0), reply, v.generation);
    } else if reply.changed {
      NewsSnoc(recorded.history + [event], SurfaceChanged(v.generation + 1));
      assert told + [SurfaceChanged(v.generation + 1)]
        == News(v.history) + ToTell(PtyFrame.Output(0, bytes, 0), reply, v.generation);
    }
  }

  lemma FrameTells(v: View, frame: PtyFrame, reply: FeedReply)
    requires Accounted(v.log)
    ensures News(AfterFrame(v, frame, reply).history) == News(v.history) + ToTell(frame, reply, v.generation)
  {
    hide OutputPane, FailedPane, ExitedPane, Accounted, News;
    match frame
    case Output(_, bytes, _) => OutputTells(v, bytes, reply);
    case Overflow(_, frames, bytes, _) => NewsSnoc(v.history, EventKind.Overflow(frames, bytes));
    case Error(_, message, _) => FailureTells(v, IoError(message));
    case Exited(_, code, _) => ExitTells(v, code);
    case CursorPositionRequest(_, _) => assert News(v.history) + [] == News(v.history);
  }

  /** In every run each frame is told of, once and in its place, and nothing else is news. */
  lemma {:induction false} EveryFrameIsTold(v: View, frames: seq<PtyFrame>, replies: nat -> FeedReply, from: nat)
    requires Accounted(v.log)
    ensures News(AfterFrames(v, frames, replies, from).history)
      == News(v.history) + AllToTell(frames, replies, from, v.generation)
    decreases |frames|
  {
    hide AfterFrame, Accounted, News, ToTell;
    if frames == [] {
      assert News(v.history) + [] == News(v.history);
    } else {
      var n := |frames| - 1;
      var before := AfterFrames(v, frames[..n], replies, from);
      EveryFrameIsTold(v, frames[..n], replies, from);
      FramesShow(v, frames[..n], replies, from);
      FrameTells(before, frames[n], replies(from + n));
      Regroup(
        News(v.history), AllToTell(frames[..n], replies, from, v.generation),
        ToTell(frames[n], replies(from + n), before.generation));
    }
  }

  /** A pane that goes tells of what arrived late, and of an exit nobody saw if it was killed or failed. */
  lemma LastNews(v: View, late: seq<PtyFrame>, replies: nat -> FeedReply, from: nat)
    requires Accounted(v.log)
    ensures
      var last := AfterFrames(v, late, replies, from);
      News(FinalPane(v, late, replies, from).history)
        == News(v.history) + AllToTell(late, replies, from, v.generation)
           + (if (last.state.Killed? || last.state.Failed?) && !last.exitObserved then [EventKind.Exited(None)] else [])
  {
    hide AfterFrames, FlushedPane, Accounted, News, AllToTell;
    var last := AfterFrames(v, late, replies, from);
    EveryFrameIsTold(v, late, replies, from);
    FlushTellsNothing(last);
    FlushKeepsState(last);
    NewsSnoc(FlushedPane(last).history, EventKind.Exited(None));
    assert News(last.history) + [] == News(last.history);
  }

  lemma FlushKeepsState(v: View)
    requires Accounted(v.log)
    ensures FlushedPane(v).state == v.state && FlushedPane(v).exitObserved == v.exitObserved
  {
  }

  /** The place told with an output: none without a transcript, and the bytes recorded before where bytes are. */
  lemma OffsetIsPlace(v: View, bytes: seq<Byte>)
    requires Consistent(v)
    ensures v.log.mode == Disabled ==> OffsetOf(v.log, bytes) == None
    ensures v.log.mode == RawBytes || v.log.mode == Both ==> OffsetOf(v.log, bytes) == Some(|RawStream(v.ops)|)
    ensures v.log.mode == PlainText ==> OffsetOf(v.log, bytes) == Some(RecordedOffset(v.log, bytes))
  {
    hide RawStream;
    RawIsSuffix(v.log.mode, v.log.maxBytes, v.log.maxLines, v.ops);
  }

  // ---------------------------------------------------------------------
  // Rotations
  // ---------------------------------------------------------------------

  /** The recorded bytes the rotation events say were dropped. */
  function LostBytes(history: seq<EventKind>): nat {
    if history == [] then 0
    else
      var last := history[|history| - 1];
      LostBytes(history[..|history| - 1]) + (if last.TranscriptRotated? then last.rotation.rawBytesDropped else 0)
  }

  /** What is kept and what was told lost is what was recorded. */
  predicate LossIsTold(v: View) {
    v.log.mode == RawBytes || v.log.mode == Both ==> |v.log.raw| + LostBytes(v.history) == |RawStream(v.ops)|
  }

  lemma LostSnoc(history: seq<EventKind>, kind: EventKind)
    ensures LostBytes(history + [kind])
      == LostBytes(history) + (if kind.TranscriptRotated? then kind.rotation.rawBytesDropped else 0)
  {
    assert (history + [kind])[..|history|] == history;
  }

  /** Events that are no rotations change nothing. */
  lemma OtherEvent(v: View, after: View, kind: EventKind)
    requires LossIsTold(v) && !kind.TranscriptRotated?
    requires after.log == v.log && after.ops == v.ops && (after.history == v.history || after.history == v.history + [kind])
    ensures LossIsTold(after)
  {
    LostSnoc(v.history, kind);
  }

  lemma FlushTellsLoss(v: View)
    requires Accounted(v.log) && LossIsTold(v)
    ensures LossIsTold(FlushedPane(v))
  {
    hide RawStream, Enforce, Accounted;
    var r := FlushedRotation(v.log);
    RawSnoc(v.ops, Flush);
    if v.log.pending != [] {
      DrainedIsAccounted(v.log);
      RotationCountsTheLoss(Drained(v.log));
    }
    if r.Some? {
      LostSnoc(v.history, TranscriptRotated(r.value));
    }
    KeptMode(v.log, Flush);
  }

  lemma RecordTellsLoss(v: View, bytes: seq<Byte>)
    requires Accounted(v.log) && LossIsTold(v)
    ensures LossIsTold(RecordedPane(v, bytes))
  {
    hide RawStream, Enforce, Accounted, Updated, ChunkOf, TextOfFrame, ForcedText, Carried;
    var r := RecordedRotation(v.log, bytes);
    RawSnoc(v.ops, Feed(bytes));
    if !Ignored(v.log, bytes) {
      AppendedIsAccounted(v.log, bytes);
      RotationCountsTheLoss(Appended(v.log, bytes));
    }
    if r.Some? {
      LostSnoc(v.history, TranscriptRotated(r.value));
    }
    KeptMode(v.log, Feed(bytes));
  }

  lemma KeptMode(l: Log, op: Op)
    requires Accounted(l)
    ensures Step(l, op).mode == l.mode
  {
  }

  lemma FailureTellsLoss(v: View, error: PaneError)
    requires Accounted(v.log) && LossIsTold(v)
    ensures LossIsTold(FailedPane(v, error))
  {
    hide FlushedPane, Accounted, LossIsTold;
    var flushed := FlushedPane(v);
    var reported := Emitted(flushed, EventKind.Error(error));
    FlushTellsLoss(v);
    OtherEvent(flushed, reported, EventKind.Error(error));
    if reported.state.Live() {
      OtherEvent(reported, FailedPane(v, error), StateChanged(reported.state, PaneState.Failed(error)));
    }
  }

  lemma ExitTellsLoss(v: View, code: Option<int>)
    requires Accounted(v.log) && LossIsTold(v)
    ensures LossIsTold(ExitedPane(v, code))
  {
    hide FlushedPane, Accounted, LossIsTold;
    var noted := v.(exitObserved := true);
    OtherEvent(v, noted, EventKind.Exited(code));
    var flushed := FlushedPane(noted);
    var reported := Emitted(flushed, EventKind.Exited(code));
    FlushTellsLoss(noted);
    OtherEvent(flushed, reported, EventKind.Exited(code));
    if reported.state.Live() {
      OtherEvent(reported, ExitedPane(v, code), StateChanged(reported.state, PaneState.Exited(code)));
    }
  }

  lemma FrameTellsLoss(v: View, frame: PtyFrame, reply: FeedReply)
    requires Accounted(v.log) && LossIsTold(v)
    ensures LossIsTold(AfterFrame(v, frame, reply))
  {
    hide FailedPane, ExitedPane, RecordedPane, Accounted, LossIsTold, OffsetOf;
    match frame
    case Output(_, bytes, _) =>
      var event := EventKind.Output(|bytes|, OffsetOf(v.log, bytes), 27 in bytes);
      var recorded := RecordedPane(v, bytes);
      RecordTellsLoss(v, bytes);
      OtherEvent(recorded, Emitted(recorded, event), event);
      if reply.Rejected? {
        FailureTellsLoss(Emitted(recorded, event), SurfaceError);
      } else {
        var fed := recorded.(surface := recorded.surface + bytes, generation := recorded.generation + 1);
        OtherEvent(recorded, Emitted(fed, event), event);
        OtherEvent(Emitted(fed, event), OutputPane(v, bytes, reply), SurfaceChanged(recorded.generation + 1));
      }
    case Overflow(_, frames, bytes, _) =>
      OtherEvent(v, AfterFrame(v, frame, reply), EventKind.Overflow(frames, bytes));
    case Error(_, message, _) => FailureTellsLoss(v, IoError(message));
    case Exited(_, code, _) => ExitTellsLoss(v, code);
    case CursorPositionRequest(_, _) =>
  }

  /** In every run the rotation events account for every recorded byte that is no longer kept. */
  lemma {:induction false} EveryLossIsTold(v: View, frames: seq<PtyFrame>, replies: nat -> FeedReply, from: nat)
    requires Accounted(v.log) && LossIsTold(v)
    ensures LossIsTold(AfterFrames(v, frames, replies, from))
    decreases |frames|
  {
    hide AfterFrame, Accounted, LossIsTold;
    if frames != [] {
      var n := |frames| - 1;
      EveryLossIsTold(v, frames[..n], replies, from);
      FrameTellsLoss(AfterFrames(v, frames[..n], replies, from), frames[n], replies(from + n));
    }
  }

  lemma NewPaneHasNoLoss(log: Log)
    requires log.raw == []
    ensures LossIsTold(NewView(log))
  {
  }
}
