/** What becomes of a pane, frame by frame: its state, its exit, its transcript and its events. */
module PaneLifecycle {
  import opened Bytes
  import opened FrameQueue
  import opened ModeOverlay
  import opened Retention
  import opened TranscriptRuns

  datatype KillReason = UserRequested | HostRequested | ConfigLimit

  datatype PaneError = InvalidConfig | SpawnError | IoError(message: string) | SurfaceError | NotFound(id: nat) | InvalidState

  datatype PaneState =
    Starting | Running | Exited(code: Option<int>) | Killed(reason: KillReason) | Failed(error: PaneError)
  {
    predicate Live() { Starting? || Running? }
  }

  datatype PaneExit = Exited(code: Option<int>) | Killed(reason: KillReason) | Failed(error: PaneError)

  datatype EventKind =
    | Spawned(program: string)
    | StateChanged(before: PaneState, after: PaneState)
    | Output(length: nat, offset: Option<nat>, containsEscape: bool)
    | SurfaceChanged(generation: nat)
    | TranscriptRotated(rotation: Rotation)
    | Overflow(droppedFrames: nat, droppedBytes: nat)
    | Error(error: PaneError)
    | Exited(code: Option<int>)

  datatype PaneEvent = PaneEvent(id: nat, seqNo: nat, kind: EventKind)

  /** A surface takes a frame or not, and says whether anything visible changed. */
  datatype FeedReply = Rejected | Accepted(changed: bool)

  /** A pane with every event it ever emitted and everything its transcript went through. */
  datatype View = View(
    state: PaneState, exit: Option<PaneExit>, exitObserved: bool, log: Log, overlay: OverlayState,
    surface: seq<Byte>, generation: nat, history: seq<EventKind>, ops: seq<Op>)

  function NewView(log: Log): View {
    View(Starting, None, false, log, FRESH, [], 0, [], [])
  }

  // ---------------------------------------------------------------------
  // One step at a time
  // ---------------------------------------------------------------------

  function Emitted(v: View, kind: EventKind): View { v.(history := v.history + [kind]) }

  function Noted(v: View, rotated: Option<Rotation>): View {
    if rotated.None? then v else Emitted(v, TranscriptRotated(rotated.value))
  }

  function Moved(v: View, state: PaneState): View {
    if v.state == state then v else Emitted(v.(state := state), StateChanged(v.state, state))
  }

  /** A kill or a failure on record is never overwritten. */
  function Settled(v: View, exit: PaneExit): View {
    if v.exit.Some? && !v.exit.value.Exited? then v else v.(exit := Some(exit))
  }

  function FlushedPane(v: View): (after: View)
    requires Accounted(v.log)
    ensures Accounted(after.log)
  {
    Noted(v.(log := Step(v.log, Flush), ops := v.ops + [Flush]), FlushedRotation(v.log))
  }

  function FailedPane(v: View, error: PaneError): (after: View)
    requires Accounted(v.log)
    ensures Accounted(after.log)
  {
    var reported := Emitted(FlushedPane(v), EventKind.Error(error));
    if reported.state.Live() then Moved(Settled(reported, PaneExit.Failed(error)), PaneState.Failed(error)) else reported
  }

  function ExitedPane(v: View, code: Option<int>): (after: View)
    requires Accounted(v.log)
    ensures Accounted(after.log)
  {
    var reported := Emitted(FlushedPane(v.(exitObserved := true)), EventKind.Exited(code));
    if reported.state.Live() then Moved(Settled(reported, PaneExit.Exited(code)), PaneState.Exited(code)) else reported
  }

  function OffsetOf(l: Log, bytes: seq<Byte>): Option<nat> {
    if l.mode.Disabled? then None else Some(RecordedOffset(l, bytes))
  }

  /** The frame in the overlay and the transcript, before the surface sees it. */
  function RecordedPane(v: View, bytes: seq<Byte>): (after: View)
    requires Accounted(v.log)
    ensures Accounted(after.log)
  {
    Noted(
      v.(overlay := Updated(v.overlay, bytes), log := Step(v.log, Feed(bytes)), ops := v.ops + [Feed(bytes)]),
      RecordedRotation(v.log, bytes))
  }

  function OutputPane(v: View, bytes: seq<Byte>, reply: FeedReply): (after: View)
    requires Accounted(v.log)
    ensures Accounted(after.log)
  {
    var event := EventKind.Output(|bytes|, OffsetOf(v.log, bytes), 27 in bytes);
    var recorded := RecordedPane(v, bytes);
    if reply.Rejected? then FailedPane(Emitted(recorded, event), SurfaceError)
    else
      var generation := recorded.generation + 1;
      var fed := Emitted(recorded.(surface := recorded.surface + bytes, generation := generation), event);
      if reply.changed then Emitted(fed, SurfaceChanged(generation)) else fed
  }

  function AfterFrame(v: View, frame: PtyFrame, reply: FeedReply): (after: View)
    requires Accounted(v.log)
    ensures Accounted(after.log)
  {
    match frame
    case Output(_, bytes, _) => OutputPane(v, bytes, reply)
    case Overflow(_, frames, bytes, _) => Emitted(v, EventKind.Overflow(frames, bytes))
    case Error(_, message, _) => FailedPane(v, IoError(message))
    case Exited(_, code, _) => ExitedPane(v, code)
    case CursorPositionRequest(_, _) => v
  }

  /** The pane after `frames`, answered by the surface with `replies` from `from` on. */
  function AfterFrames(v: View, frames: seq<PtyFrame>, replies: nat -> FeedReply, from: nat): (after: View)
    requires Accounted(v.log)
    ensures Accounted(after.log)
  {
    if frames == [] then v
    else
      var n := |frames| - 1;
      AfterFrame(AfterFrames(v, frames[..n], replies, from), frames[n], replies(from + n))
  }

  function WithExitEvent(v: View): View {
    if (v.state.Killed? || v.state.Failed?) && !v.exitObserved then
      Emitted(v.(exitObserved := true), EventKind.Exited(None))
    else v
  }

  /** The last rites of a terminal pane: what arrived late, the pending text, and an exit event if none was seen. */
  function FinalPane(v: View, late: seq<PtyFrame>, replies: nat -> FeedReply, from: nat): (after: View)
    requires Accounted(v.log)
    ensures Accounted(after.log)
  {
    WithExitEvent(FlushedPane(AfterFrames(v, late, replies, from)))
  }

  // ---------------------------------------------------------------------
  // What the events say
  // ---------------------------------------------------------------------

  /** The state the events lead to from Starting, each change taking up the one before and none leaving the end. */
  function Track(history: seq<EventKind>): Option<PaneState> {
    if history == [] then Some(Starting)
    else
      var before, last := Track(history[..|history| - 1]), history[|history| - 1];
      if before.None? || !last.StateChanged? then before
      else if last.before == before.value && last.before.Live() && last.after != last.before then Some(last.after)
      else None
  }

  predicate Observed(history: seq<EventKind>) { exists i :: 0 <= i < |history| && history[i].Exited? }

  function ExitOf(state: PaneState): Option<PaneExit> {
    match state
    case Exited(code) => Some(PaneExit.Exited(code))
    case Killed(reason) => Some(PaneExit.Killed(reason))
    case Failed(error) => Some(PaneExit.Failed(error))
    case _ => None
  }

  /** State, exit, exit observation and transcript are what events and transcript operations say. */
  predicate Consistent(v: View) {
    && Track(v.history) == Some(v.state)
    && v.exit == ExitOf(v.state)
    && (v.exitObserved <==> Observed(v.history))
    && (v.state.Exited? ==> v.exitObserved)
    && v.log == Run(Empty(v.log.mode, v.log.maxBytes, v.log.maxLines), v.ops)
    && Accounted(v.log)
  }

  lemma TrackSnoc(history: seq<EventKind>, kind: EventKind)
    ensures Track(history + [kind]) ==
      var before := Track(history);
      if before.None? || !kind.StateChanged? then before
      else if kind.before == before.value && kind.before.Live() && kind.after != kind.before then Some(kind.after)
      else None
    ensures Observed(history + [kind]) <==> Observed(history) || kind.Exited?
  {
    hide Observed;
    assert (history + [kind])[..|history|] == history;
    ObservedSnoc(history, kind);
  }

  lemma ObservedSnoc(history: seq<EventKind>, kind: EventKind)
    ensures Observed(history + [kind]) <==> Observed(history) || kind.Exited?
  {
    var longer := history + [kind];
    assert forall i :: 0 <= i < |history| ==> longer[i] == history[i];
    if kind.Exited? {
      assert longer[|history|].Exited?;
    }
  }

  /** An event that is neither an exit nor a change of state changes nothing else. */
  lemma PushKeeps(v: View, kind: EventKind)
    requires Consistent(v) && !kind.StateChanged? && !kind.Exited?
    ensures Consistent(Emitted(v, kind))
  {
    TrackSnoc(v.history, kind);
  }

  lemma OpKeeps(v: View, op: Op)
    requires Consistent(v)
    ensures Consistent(v.(log := Step(v.log, op), ops := v.ops + [op]))
    ensures var l := Step(v.log, op); l.mode == v.log.mode && l.maxBytes == v.log.maxBytes && l.maxLines == v.log.maxLines
  {
    assert (v.ops + [op])[..|v.ops|] == v.ops;
  }

  lemma FlushKeeps(v: View)
    requires Consistent(v)
    ensures Consistent(FlushedPane(v)) && FlushedPane(v).state == v.state && FlushedPane(v).exit == v.exit
    ensures FlushedPane(v).exitObserved == v.exitObserved
  {
    hide Run, Track, Observed, Step;
    OpKeeps(v, Flush);
    var flushed := v.(log := Step(v.log, Flush), ops := v.ops + [Flush]);
    if FlushedRotation(v.log).Some? {
      PushKeeps(flushed, TranscriptRotated(FlushedRotation(v.log).value));
    }
  }

  /** A live pane ends, with the exit that goes with the state. */
  lemma EndKeeps(v: View, state: PaneState)
    requires Consistent(v) && v.state.Live() && !state.Live() && (state.Exited? ==> v.exitObserved)
    ensures Consistent(Moved(Settled(v, ExitOf(state).value), state))
  {
    TrackSnoc(v.history, StateChanged(v.state, state));
  }

  lemma FailureKeeps(v: View, error: PaneError)
    requires Consistent(v)
    ensures
      var after := FailedPane(v, error);
      && Consistent(after) && after.state == (if v.state.Live() then PaneState.Failed(error) else v.state)
  {
    hide Run, Track, Observed, Step, Noted;
    FlushKeeps(v);
    PushKeeps(FlushedPane(v), EventKind.Error(error));
    if v.state.Live() {
      EndKeeps(Emitted(FlushedPane(v), EventKind.Error(error)), PaneState.Failed(error));
    }
  }

  lemma ExitKeeps(v: View, code: Option<int>)
    requires Consistent(v)
    ensures
      var after := ExitedPane(v, code);
      && Consistent(after) && after.state == (if v.state.Live() then PaneState.Exited(code) else v.state)
  {
    hide Run, Track, Observed, Step;
    FlushKeeps(v);
    var flushed := FlushedPane(v);
    assert FlushedPane(v.(exitObserved := true)) == flushed.(exitObserved := true);
    TrackSnoc(flushed.history, EventKind.Exited(code));
    if v.state.Live() {
      EndKeeps(Emitted(flushed.(exitObserved := true), EventKind.Exited(code)), PaneState.Exited(code));
    }
  }

  lemma RecordKeeps(v: View, bytes: seq<Byte>)
    requires Consistent(v)
    ensures Consistent(RecordedPane(v, bytes)) && RecordedPane(v, bytes).state == v.state
  {
    hide Run, Track, Observed, Step, Updated;
    OpKeeps(v, Feed(bytes));
    var recorded := v.(
      overlay := Updated(v.overlay, bytes), log := Step(v.log, Feed(bytes)), ops := v.ops + [Feed(bytes)]);
    if RecordedRotation(v.log, bytes).Some? {
      PushKeeps(recorded, TranscriptRotated(RecordedRotation(v.log, bytes).value));
    }
  }

  lemma OutputKeeps(v: View, bytes: seq<Byte>, reply: FeedReply)
    requires Consistent(v)
    ensures
      var after := OutputPane(v, bytes, reply);
      && Consistent(after)
      && after.state == (if v.state.Live() && reply.Rejected? then PaneState.Failed(SurfaceError) else v.state)
  {
    hide Run, Track, Observed, RecordedPane, OffsetOf, FailedPane;
    RecordKeeps(v, bytes);
    var event := EventKind.Output(|bytes|, OffsetOf(v.log, bytes), 27 in bytes);
    var recorded := RecordedPane(v, bytes);
    if reply.Rejected? {
      PushKeeps(recorded, event);
      FailureKeeps(Emitted(recorded, event), SurfaceError);
    } else {
      var fed := recorded.(surface := recorded.surface + bytes, generation := recorded.generation + 1);
      PushKeeps(fed, event);
      PushKeeps(Emitted(fed, event), SurfaceChanged(fed.generation));
    }
  }

  /** How a frame ends a live pane, if it does. */
  function EndOf(frame: PtyFrame, reply: FeedReply): Option<PaneState> {
    match frame
    case Output(_, _, _) => if reply.Rejected? then Some(PaneState.Failed(SurfaceError)) else None
    case Error(_, message, _) => Some(PaneState.Failed(IoError(message)))
    case Exited(_, code, _) => Some(PaneState.Exited(code))
    case _ => None
  }

  lemma FrameKeeps(v: View, frame: PtyFrame, reply: FeedReply)
    requires Consistent(v)
    ensures
      var after := AfterFrame(v, frame, reply);
      && Consistent(after)
      && after.state == (if v.state.Live() && EndOf(frame, reply).Some? then EndOf(frame, reply).value else v.state)
  {
    hide Consistent, OutputPane, FailedPane, ExitedPane;
    match frame
    case Output(_, bytes, _) => OutputKeeps(v, bytes, reply);
    case Overflow(_, frames, bytes, _) => PushKeeps(v, EventKind.Overflow(frames, bytes));
    case Error(_, message, _) => FailureKeeps(v, IoError(message));
    case Exited(_, code, _) => ExitKeeps(v, code);
    case CursorPositionRequest(_, _) =>
  }

  // ---------------------------------------------------------------------
  // Whole runs
  // ---------------------------------------------------------------------

  /** The end that the first ending frame decides, or no end. */
  function FirstEnd(frames: seq<PtyFrame>, replies: nat -> FeedReply, from: nat): Option<PaneState> {
    if frames == [] then None
    else if EndOf(frames[0], replies(from)).Some? then EndOf(frames[0], replies(from))
    else FirstEnd(frames[1..], replies, from + 1)
  }

  lemma {:induction false} FirstEndSnoc(frames: seq<PtyFrame>, last: PtyFrame, replies: nat -> FeedReply, from: nat)
    ensures FirstEnd(frames + [last], replies, from) ==
      if FirstEnd(frames, replies, from).Some? then FirstEnd(frames, replies, from)
      else EndOf(last, replies(from + |frames|))
    decreases |frames|
  {
    if frames == [] {
      assert (frames + [last])[1..] == [];
    } else {
      assert (frames + [last])[1..] == frames[1..] + [last];
      FirstEndSnoc(frames[1..], last, replies, from + 1);
    }
  }

  /** A live pane ends as its first ending frame says; a terminal pane stays as it is, whatever comes. */
  lemma {:induction false} FirstEndDecides(v: View, frames: seq<PtyFrame>, replies: nat -> FeedReply, from: nat)
    requires Consistent(v)
    ensures
      var after, end := AfterFrames(v, frames, replies, from), FirstEnd(frames, replies, from);
      && Consistent(after)
      && after.state == (if v.state.Live() && end.Some? then end.value else v.state)
      && (!v.state.Live() ==> after.exit == v.exit)
    decreases |frames|
  {
    hide AfterFrame, Consistent, EndOf;
    ExitFollowsState(v);
    if frames == [] {
    } else {
      var n := |frames| - 1;
      FirstEndDecides(v, frames[..n], replies, from);
      FrameKeeps(AfterFrames(v, frames[..n], replies, from), frames[n], replies(from + n));
      assert frames == frames[..n] + [frames[n]];
      FirstEndSnoc(frames[..n], frames[n], replies, from);
      EndsAreTerminal(frames, replies, from);
      EndsAreTerminal(frames[..n], replies, from);
      ExitFollowsState(AfterFrames(v, frames, replies, from));
    }
  }

  lemma ExitFollowsState(v: View)
    requires Consistent(v)
    ensures v.exit == ExitOf(v.state) && Accounted(v.log)
  {
  }

  lemma {:induction false} EndsAreTerminal(frames: seq<PtyFrame>, replies: nat -> FeedReply, from: nat)
    ensures FirstEnd(frames, replies, from).Some? ==> !FirstEnd(frames, replies, from).value.Live()
    decreases |frames|
  {
    if frames != [] {
      EndsAreTerminal(frames[1..], replies, from + 1);
    }
  }

  function OutputBytes(frames: seq<PtyFrame>): seq<Byte> {
    if frames == [] then []
    else
      var last := frames[|frames| - 1];
      OutputBytes(frames[..|frames| - 1]) + (if last.Output? then last.bytes else [])
  }

  /** What the output frames are to a transcript. */
  function OutputFeeds(frames: seq<PtyFrame>): seq<Op> {
    if frames == [] then []
    else
      var last := frames[|frames| - 1];
      OutputFeeds(frames[..|frames| - 1]) + (if last.Output? then [Feed(last.bytes)] else [])
  }

  /** As long as the pane lives its transcript is fed the output frames and is never flushed. */
  lemma {:induction false} LiveMeansUnflushed(v: View, frames: seq<PtyFrame>, replies: nat -> FeedReply, from: nat)
    requires Consistent(v) && AfterFrames(v, frames, replies, from).state.Live()
    ensures AfterFrames(v, frames, replies, from).ops == v.ops + OutputFeeds(frames)
    decreases |frames|
  {
    hide AfterFrame, Consistent, OpsOf;
    ExitFollowsState(v);
    if frames == [] {
      assert v.ops + [] == v.ops;
    } else {
      var n := |frames| - 1;
      var before := AfterFrames(v, frames[..n], replies, from);
      FirstEndDecides(v, frames[..n], replies, from);
      FrameKeeps(before, frames[n], replies(from + n));
      assert EndOf(frames[n], replies(from + n)).None? && before.state.Live();
      LiveMeansUnflushed(v, frames[..n], replies, from);
      FrameOps(before, frames[n], replies(from + n));
      LiveOps(frames[n], replies(from + n));
      var last := frames[n];
      assert (v.ops + OutputFeeds(frames[..n])) + (if last.Output? then [Feed(last.bytes)] else [])
        == v.ops + OutputFeeds(frames);
    }
  }

  /** What a frame is to the transcript: fed if it is output, flushed behind if it ends or fails the pane. */
  function OpsOf(frame: PtyFrame, reply: FeedReply): seq<Op> {
    match frame
    case Output(_, bytes, _) => if reply.Rejected? then [Feed(bytes), Flush] else [Feed(bytes)]
    case Error(_, _, _) => [Flush]
    case Exited(_, _, _) => [Flush]
    case _ => []
  }

  lemma FrameOps(v: View, frame: PtyFrame, reply: FeedReply)
    requires Accounted(v.log)
    ensures AfterFrame(v, frame, reply).ops == v.ops + OpsOf(frame, reply)
  {
    hide Step, Updated, Accounted, OffsetOf, FlushedRotation, RecordedRotation;
    match frame
    case Output(_, bytes, _) => assert (v.ops + [Feed(bytes)]) + [Flush] == v.ops + [Feed(bytes), Flush];
    case _ => assert v.ops + [] == v.ops;
  }

  lemma LiveOps(frame: PtyFrame, reply: FeedReply)
    requires EndOf(frame, reply).None?
    ensures OpsOf(frame, reply) == if frame.Output? then [Feed(frame.bytes)] else []
  {
  }

  /** Every output byte is recorded, in order, whether the surface took the frame or not and whatever the state. */
  lemma {:induction false} EveryOutputIsRecorded(v: View, frames: seq<PtyFrame>, replies: nat -> FeedReply, from: nat)
    requires Accounted(v.log)
    ensures RawStream(AfterFrames(v, frames, replies, from).ops) == RawStream(v.ops) + OutputBytes(frames)
    decreases |frames|
  {
    hide AfterFrame, Accounted, RawStream;
    if frames == [] {
      assert RawStream(v.ops) + [] == RawStream(v.ops);
    } else {
      var n := |frames| - 1;
      EveryOutputIsRecorded(v, frames[..n], replies, from);
      var before, last := AfterFrames(v, frames[..n], replies, from), frames[n];
      FrameFeeds(before, last, replies(from + n));
      var bytes := if last.Output? then last.bytes else [];
      Regroup(RawStream(v.ops), OutputBytes(frames[..n]), bytes);
    }
  }

  lemma FrameFeeds(v: View, frame: PtyFrame, reply: FeedReply)
    requires Accounted(v.log)
    ensures RawStream(AfterFrame(v, frame, reply).ops)
      == RawStream(v.ops) + (if frame.Output? then frame.bytes else [])
  {
    hide AfterFrame, Accounted, RawStream;
    FrameOps(v, frame, reply);
    OpsBytes(frame, reply);
    RawStreamAppend(v.ops, OpsOf(frame, reply));
  }

  lemma OpsBytes(frame: PtyFrame, reply: FeedReply)
    ensures RawStream(OpsOf(frame, reply)) == if frame.Output? then frame.bytes else []
  {
    RawSnoc([], Flush);
    assert [] + [Flush] == [Flush];
    if frame.Output? {
      RawSnoc([], Feed(frame.bytes));
      assert [] + [Feed(frame.bytes)] == [Feed(frame.bytes)] && [] + frame.bytes == frame.bytes;
      RawSnoc([Feed(frame.bytes)], Flush);
      assert [Feed(frame.bytes)] + [Flush] == [Feed(frame.bytes), Flush];
    }
  }

  lemma RawSnoc(ops: seq<Op>, op: Op)
    ensures RawStream(ops + [op]) == RawStream(ops) + (match op case Feed(bytes) => bytes case Flush => [])
    ensures op.Flush? ==> RawStream(ops + [op]) == RawStream(ops)
  {
    assert (ops + [op])[..|ops|] == ops;
    assert RawStream(ops) + [] == RawStream(ops);
  }

  /** A terminal pane leaves with the exit it had, and with an exit event among its events. */
  lemma FinalPaneIsComplete(v: View, late: seq<PtyFrame>, replies: nat -> FeedReply, from: nat)
    requires Consistent(v) && !v.state.Live()
    ensures
      var final := FinalPane(v, late, replies, from);
      && Consistent(final) && final.state == v.state && final.exit == v.exit && final.exit.Some?
      && Observed(final.history) && final.log.pending == []
  {
    hide Run, Track, Observed, AfterFrames, Step;
    FirstEndDecides(v, late, replies, from);
    var drained := AfterFrames(v, late, replies, from);
    FlushKeeps(drained);
    FlushEmpties(drained.log);
    var flushed := FlushedPane(drained);
    TrackSnoc(flushed.history, EventKind.Exited(None));
  }

  lemma FlushEmpties(l: Log)
    requires Accounted(l)
    ensures Step(l, Flush).pending == []
  {
  }

  // ---------------------------------------------------------------------
  // Reading a history
  // ---------------------------------------------------------------------

  lemma {:induction false} TrackPrefix(history: seq<EventKind>, n: nat)
    requires Track(history).Some? && n <= |history|
    ensures Track(history[..n]).Some?
    decreases |history|
  {
    if n < |history| {
      assert history[..|history| - 1][..n] == history[..n];
      TrackPrefix(history[..|history| - 1], n);
    } else {
      assert history[..n] == history;
    }
  }

  lemma {:induction false} TrackRests(history: seq<EventKind>, from: nat)
    requires Track(history).Some? && from <= |history|
    requires forall k :: from <= k < |history| ==> !history[k].StateChanged?
    ensures Track(history) == Track(history[..from])
    decreases |history|
  {
    if from < |history| {
      var shorter := history[..|history| - 1];
      assert shorter[..from] == history[..from];
      TrackRests(shorter, from);
    } else {
      assert history[..from] == history;
    }
  }

  /** Changes of state form an unbroken chain from Starting, and nothing follows a terminal one. */
  lemma ChainIsUnbroken(history: seq<EventKind>, i: nat, j: nat)
    requires Track(history).Some? && i < j < |history| && history[i].StateChanged? && history[j].StateChanged?
    requires forall k :: i < k < j ==> !history[k].StateChanged?
    ensures history[i].after == history[j].before && history[i].after.Live()
  {
    TrackPrefix(history, j + 1);
    TrackPrefix(history, i + 1);
    TrackPrefix(history, j);
    assert history[..j + 1][..j] == history[..j] && history[..i + 1][..i] == history[..i];
    TrackRests(history[..j], i + 1);
    assert history[..j][..i + 1] == history[..i + 1];
  }

  lemma FirstChangeLeavesStarting(history: seq<EventKind>, j: nat)
    requires Track(history).Some? && j < |history| && history[j].StateChanged?
    requires forall k :: 0 <= k < j ==> !history[k].StateChanged?
    ensures history[j].before == Starting
  {
    TrackPrefix(history, j + 1);
    TrackPrefix(history, j);
    assert history[..j + 1][..j] == history[..j];
    TrackRests(history[..j], 0);
    assert history[..j][..0] == [];
  }

  /** Terminal states are absorbing: a change into one is the last change there is. */
  lemma {:induction false} TerminalIsLast(history: seq<EventKind>, i: nat, j: nat)
    requires Track(history).Some? && i < j < |history|
    requires history[i].StateChanged? && !history[i].after.Live()
    ensures !history[j].StateChanged?
    decreases j
  {
    if history[j].StateChanged? {
      forall k | i < k < j ensures !history[k].StateChanged? {
        TerminalIsLast(history, i, k);
      }
      ChainIsUnbroken(history, i, j);
    }
  }
}
