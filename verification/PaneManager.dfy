/** The manager that owns the panes: each method against its effect in `PaneLifecycle`, events numbered and retained. */
module PaneManager {
  import opened Bytes
  import opened FrameQueue
  import opened ModeOverlay
  import opened Retention
  import opened TranscriptRuns
  import opened PaneLifecycle

  datatype EventLogRetention = Unlimited | Bounded(maxEvents: nat) | Disabled

  /** The last events a policy keeps. */
  function Kept(retention: EventLogRetention, events: seq<PaneEvent>): (kept: seq<PaneEvent>)
    ensures |kept| <= |events| && kept == events[|events| - |kept|..]
  {
    match retention
    case Unlimited => events
    case Disabled => []
    case Bounded(max) => events[|events| - Min(max, |events|)..]
  }

  lemma KeptLength(retention: EventLogRetention, events: seq<PaneEvent>)
    ensures |Kept(retention, events)| ==
      match retention case Unlimited => |events| case Bounded(max) => Min(max, |events|) case Disabled => 0
  {
  }

  /** A pane's events numbered from 1 on. */
  function Numbered(id: nat, history: seq<EventKind>): (events: seq<PaneEvent>)
    ensures |events| == |history|
    ensures forall i :: 0 <= i < |events| ==> events[i] == PaneEvent(id, i + 1, history[i])
  {
    if history == [] then []
    else
      var n := |history| - 1;
      Numbered(id, history[..n]) + [PaneEvent(id, n + 1, history[n])]
  }

  /** The events of one pane. */
  function OfPane(id: nat, events: seq<PaneEvent>): seq<PaneEvent> {
    if events == [] then []
    else
      var last := events[|events| - 1];
      OfPane(id, events[..|events| - 1]) + (if last.id == id then [last] else [])
  }

  datatype Pane = Pane(
    state: PaneState, exit: Option<PaneExit>, exitEventObserved: bool, transcript: Log, overlay: OverlayState,
    surface: seq<Byte>, surfaceGeneration: nat, nextSeq: nat, eventLog: seq<PaneEvent>, eventLogEventsDropped: nat)

  /** A pane is what its view says, and its event log the retained end of its history. */
  function PaneOf(id: nat, v: View, retention: EventLogRetention): Pane {
    var kept := Kept(retention, Numbered(id, v.history));
    Pane(
      v.state, v.exit, v.exitObserved, v.log, v.overlay, v.surface, v.generation, |v.history|, kept,
      |v.history| - |kept|)
  }

  /** A pane that got the next number and the event in its log. */
  lemma EmittedPane(id: nat, v: View, kind: EventKind, pane: Pane, retention: EventLogRetention)
    requires
      var before := PaneOf(id, v, retention);
      && pane == before.(
           nextSeq := |v.history| + 1, eventLog := pane.eventLog, eventLogEventsDropped := pane.eventLogEventsDropped)
      && pane.eventLog == Kept(retention, Numbered(id, v.history) + [PaneEvent(id, |v.history| + 1, kind)])
      && pane.eventLogEventsDropped + |pane.eventLog| == |v.history| + 1
    ensures pane == PaneOf(id, Emitted(v, kind), retention)
  {
    hide Kept, Numbered;
    NumberedSnoc(id, v.history, kind);
  }

  lemma NumberedSnoc(id: nat, history: seq<EventKind>, kind: EventKind)
    ensures Numbered(id, history + [kind]) == Numbered(id, history) + [PaneEvent(id, |history| + 1, kind)]
  {
    assert (history + [kind])[..|history|] == history;
  }

  lemma OfPaneSnoc(id: nat, events: seq<PaneEvent>, event: PaneEvent)
    ensures OfPane(id, events + [event]) == OfPane(id, events) + (if event.id == id then [event] else [])
  {
    assert (events + [event])[..|events|] == events;
  }

  lemma EventsSnoc(id: nat, events: seq<PaneEvent>, event: PaneEvent, from: nat)
    requires from <= |events|
    ensures OfPane(id, (events + [event])[from..])
      == OfPane(id, events[from..]) + (if event.id == id then [event] else [])
  {
    assert (events + [event])[from..] == events[from..] + [event];
    OfPaneSnoc(id, events[from..], event);
  }

  lemma {:induction false} ExitIsEmitted(id: nat, history: seq<EventKind>)
    requires Observed(history)
    ensures exists event :: event in Numbered(id, history) && event.kind.Exited?
  {
    var i :| 0 <= i < |history| && history[i].Exited?;
    assert Numbered(id, history)[i] in Numbered(id, history);
  }

  /** Appends to a pane's event log, evicting the oldest; every event is either kept or counted as dropped. */
  method RetainEventLog(pane: Pane, event: PaneEvent, retention: EventLogRetention, ghost emitted: seq<PaneEvent>)
    returns (after: Pane)
    requires pane.eventLog == Kept(retention, emitted)
    requires pane.eventLogEventsDropped == |emitted| - |pane.eventLog|
    ensures after == pane.(eventLog := after.eventLog, eventLogEventsDropped := after.eventLogEventsDropped)
    ensures after.eventLog == Kept(retention, emitted + [event])
    ensures after.eventLogEventsDropped + |after.eventLog| == |emitted| + 1
  {
    match retention
    case Unlimited =>
      after := pane.(eventLog := pane.eventLog + [event]);
    case Disabled =>
      after := pane.(eventLogEventsDropped := pane.eventLogEventsDropped + 1);
    case Bounded(max) =>
      if max == 0 {
        after := pane.(eventLogEventsDropped := pane.eventLogEventsDropped + 1);
      } else {
        var log := pane.eventLog + [event];
        var excess := if |log| > max then |log| - max else 0;
        after := pane.(eventLog := log[excess..], eventLogEventsDropped := pane.eventLogEventsDropped + excess);
      }
  }

  /**
   * What is stored of a pane is what its history says, and what was emitted of it since it was spawned is its
   * history, numbered.
   */
  predicate Faithful(
    id: nat, pane: Pane, v: View, bornAt: nat, emitted: seq<PaneEvent>, retention: EventLogRetention)
  {
    && pane == PaneOf(id, v, retention) && Accounted(v.log)
    && bornAt <= |emitted| && OfPane(id, emitted[bornAt..]) == Numbered(id, v.history)
  }

  lemma Stored(id: nat, pane: Pane, v: View, bornAt: nat, emitted: seq<PaneEvent>, retention: EventLogRetention)
    requires Faithful(id, pane, v, bornAt, emitted, retention)
    ensures Accounted(v.log) && pane.state == v.state && pane.exit == v.exit && pane.exitEventObserved == v.exitObserved
    ensures pane.transcript == v.log && pane.overlay == v.overlay
    ensures pane.surface == v.surface && pane.surfaceGeneration == v.generation
  {
  }

  lemma LogOf(id: nat, pane: Pane, v: View, bornAt: nat, emitted: seq<PaneEvent>, retention: EventLogRetention)
    requires Faithful(id, pane, v, bornAt, emitted, retention)
    ensures pane.nextSeq == |v.history| && pane.eventLog == Kept(retention, Numbered(id, v.history))
    ensures pane.eventLogEventsDropped == |v.history| - |pane.eventLog|
  {
  }

  lemma QueueSnoc(emitted: seq<PaneEvent>, events: seq<PaneEvent>, event: PaneEvent, handed: nat)
    requires handed <= |emitted| && events == emitted[handed..]
    ensures events + [event] == (emitted + [event])[handed..]
  {
  }

  lemma OthersStay(
    id: nat, pane: Pane, v: View, bornAt: nat, emitted: seq<PaneEvent>, retention: EventLogRetention, event: PaneEvent)
    requires Faithful(id, pane, v, bornAt, emitted, retention) && event.id != id
    ensures Faithful(id, pane, v, bornAt, emitted + [event], retention)
  {
    hide Kept, PaneOf, Accounted;
    EventsSnoc(id, emitted, event, bornAt);
    assert OfPane(id, emitted[bornAt..]) + [] == OfPane(id, emitted[bornAt..]);
  }

  lemma OwnGrows(
    id: nat, before: Pane, v: View, kind: EventKind, pane: Pane, bornAt: nat, emitted: seq<PaneEvent>,
    retention: EventLogRetention)
    requires Faithful(id, before, v, bornAt, emitted, retention)
    requires pane == before.(
      nextSeq := |v.history| + 1, eventLog := pane.eventLog, eventLogEventsDropped := pane.eventLogEventsDropped)
    requires pane.eventLog == Kept(retention, Numbered(id, v.history) + [PaneEvent(id, |v.history| + 1, kind)])
    requires pane.eventLogEventsDropped + |pane.eventLog| == |v.history| + 1
    ensures
      Faithful(id, pane, Emitted(v, kind), bornAt, emitted + [PaneEvent(id, |v.history| + 1, kind)], retention)
  {
    hide Kept, PaneOf, Accounted, OfPane;
    var event := PaneEvent(id, |v.history| + 1, kind);
    EmittedPane(id, v, kind, pane, retention);
    EventsSnoc(id, emitted, event, bornAt);
    NumberedSnoc(id, v.history, kind);
  }

  lemma StoredIsFaithful(
    id: nat, before: Pane, v: View, pane: Pane, v': View, bornAt: nat, emitted: seq<PaneEvent>,
    retention: EventLogRetention)
    requires Faithful(id, before, v, bornAt, emitted, retention) && v'.history == v.history && Accounted(v'.log)
    requires pane == before.(
      state := v'.state, exit := v'.exit, exitEventObserved := v'.exitObserved, transcript := v'.log,
      overlay := v'.overlay, surface := v'.surface, surfaceGeneration := v'.generation)
    ensures Faithful(id, pane, v', bornAt, emitted, retention)
  {
  }

  datatype PaneConfig = PaneConfig(
    id: Option<nat>, valid: bool, program: string, mode: TranscriptMode, maxBytes: nat, maxLines: nat)

  class PaneManager {
    const retention: EventLogRetention
    const maxPtyFramesPerDrain: nat
    /** What surfaces, spawners and processes answer, call by call. */
    const replies: nat -> FeedReply
    const refusals: nat -> bool
    var calls: nat
    var nextPaneId: nat
    var panes: map<nat, Pane>
    var events: seq<PaneEvent>
    /** What each pane's process has queued. */
    var ptys: map<nat, seq<PtyFrame>>
    ghost var views: map<nat, View>
    /** Every event ever emitted, and how many there were when each pane was spawned. */
    ghost var emitted: seq<PaneEvent>
    ghost var born: map<nat, nat>
    /** How many events were handed over. */
    ghost var handed: nat

    constructor (
      retention: EventLogRetention, maxPtyFramesPerDrain: nat, replies: nat -> FeedReply, refusals: nat -> bool)
      ensures Valid() && panes == map[] && emitted == []
    {
      this.retention, this.maxPtyFramesPerDrain := retention, Max(maxPtyFramesPerDrain, 1);
      this.replies, this.refusals, calls, nextPaneId := replies, refusals, 0, 0;
      panes, events, ptys, views, emitted, born, handed := map[], [], map[], map[], [], map[], 0;
    }

    ghost predicate Coherent()
      reads this`panes, this`views, this`emitted, this`born, this`events, this`ptys, this`nextPaneId, this`handed
    {
      && panes.Keys == views.Keys == born.Keys == ptys.Keys
      && (forall id :: id in panes ==> Faithful(id, panes[id], views[id], born[id], emitted, retention))
      && (forall id :: id in panes ==> id <= nextPaneId)
      && handed <= |emitted| && events == emitted[handed..]
    }

    /** What holds between calls, over every run; every event not yet handed over is queued. */
    ghost predicate Valid()
      reads this`panes, this`views, this`emitted, this`born, this`events, this`ptys, this`nextPaneId, this`handed
    {
      Coherent() && (forall id :: id in views ==> Consistent(views[id]))
    }

    // -------------------------------------------------------------------
    // Events and state
    // -------------------------------------------------------------------

    /** Records what happened to one pane apart from its events. */
    method Store(id: nat, pane: Pane, ghost v: View)
      requires Coherent() && id in panes && v.history == views[id].history && Accounted(v.log)
      requires pane == panes[id].(
        state := v.state, exit := v.exit, exitEventObserved := v.exitObserved, transcript := v.log,
        overlay := v.overlay, surface := v.surface, surfaceGeneration := v.generation)
      modifies this`panes, this`views
      ensures Coherent() && panes.Keys == old(panes).Keys && views == old(views)[id := v]
    {
      hide Faithful, Accounted;
      StoredIsFaithful(id, panes[id], views[id], pane, v, born[id], emitted, retention);
      panes := panes[id := pane];
      views := views[id := v];
    }

    method PushEvent(id: nat, kind: EventKind)
      requires Coherent() && id in panes
      modifies this`panes, this`events, this`views, this`emitted
      ensures Coherent() && panes.Keys == old(panes).Keys
      ensures views == old(views)[id := Emitted(old(views)[id], kind)]
      ensures emitted == old(emitted) + [PaneEvent(id, |old(views)[id].history| + 1, kind)]
      ensures events == old(events) + [PaneEvent(id, |old(views)[id].history| + 1, kind)]
    {
      hide Faithful, Kept, Numbered;
      ghost var v := views[id];
      LogOf(id, panes[id], v, born[id], emitted, retention);
      var pane := panes[id].(nextSeq := panes[id].nextSeq + 1);
      var event := PaneEvent(id, pane.nextSeq, kind);
      pane := RetainEventLog(pane, event, retention, Numbered(id, v.history));
      OwnGrows(id, panes[id], v, kind, pane, born[id], emitted, retention);
      Publish(id, pane, event, Emitted(v, kind));
    }

    /** The event, in every place that keeps it. */
    method Publish(id: nat, pane: Pane, event: PaneEvent, ghost v: View)
      requires Coherent() && id in panes && event.id == id
      requires Faithful(id, pane, v, born[id], emitted + [event], retention)
      modifies this`panes, this`events, this`views, this`emitted
      ensures Coherent() && panes.Keys == old(panes).Keys && views == old(views)[id := v]
      ensures emitted == old(emitted) + [event] && events == old(events) + [event]
    {
      hide Faithful;
      forall k | k in panes && k != id
        ensures Faithful(k, panes[k], views[k], born[k], emitted + [event], retention)
      {
        OthersStay(k, panes[k], views[k], born[k], emitted, retention, event);
      }
      QueueSnoc(emitted, events, event, handed);
      panes := panes[id := pane];
      views := views[id := v];
      events := events + [event];
      emitted := emitted + [event];
    }

    method TransitionState(id: nat, state: PaneState)
      requires Coherent() && id in panes
      modifies this`panes, this`events, this`views, this`emitted
      ensures old(emitted) <= emitted
      ensures Coherent() && panes.Keys == old(panes).Keys
      ensures views == old(views)[id := Moved(old(views)[id], state)]
    {
      hide Accounted, Coherent;
      Reads(id);
      var pane := panes[id];
      if pane.state == state {
        return;
      }
      Store(id, pane.(state := state), views[id].(state := state));
      PushEvent(id, StateChanged(pane.state, state));
    }

    /** What a coherent manager stores of a pane. */
    lemma Reads(id: nat)
      requires Coherent() && id in panes
      ensures id in views && Accounted(views[id].log)
      ensures panes[id].state == views[id].state && panes[id].exit == views[id].exit
      ensures panes[id].exitEventObserved == views[id].exitObserved && panes[id].transcript == views[id].log
      ensures panes[id].overlay == views[id].overlay && panes[id].surface == views[id].surface && panes[id].surfaceGeneration == views[id].generation
      ensures views == views[id := views[id]] && id in ptys
    {
      hide Faithful;
      Stored(id, panes[id], views[id], born[id], emitted, retention);
    }

    method SetExitIfNotKilledOrFailed(id: nat, exit: PaneExit)
      requires Coherent() && id in panes
      modifies this`panes, this`views
      ensures Coherent() && panes.Keys == old(panes).Keys
      ensures views == old(views)[id := Settled(old(views)[id], exit)]
    {
      hide Accounted, Coherent;
      Reads(id);
      var pane := panes[id];
      if pane.exit.Some? && (pane.exit.value.Killed? || pane.exit.value.Failed?) {
        return;
      }
      Store(id, pane.(exit := Some(exit)), views[id].(exit := Some(exit)));
    }

    method RecordExitEventObserved(id: nat)
      requires Coherent() && id in panes
      modifies this`panes, this`views
      ensures Coherent() && panes.Keys == old(panes).Keys
      ensures views == old(views)[id := old(views)[id].(exitObserved := true)]
    {
      hide Accounted, Coherent;
      Reads(id);
      Store(id, panes[id].(exitEventObserved := true), views[id].(exitObserved := true));
    }

    method NoteRotation(id: nat, rotated: Option<Rotation>)
      requires Coherent() && id in panes
      modifies this`panes, this`events, this`views, this`emitted
      ensures old(emitted) <= emitted
      ensures Coherent() && panes.Keys == old(panes).Keys
      ensures views == old(views)[id := Noted(old(views)[id], rotated)]
    {
      hide Accounted, Coherent;
      Reads(id);
      if rotated.Some? {
        PushEvent(id, TranscriptRotated(rotated.value));
      }
    }

    /** Flushes the pane's pending text, and tells of a rotation. */
    method FlushTranscript(id: nat)
      requires Coherent() && id in panes && Accounted(views[id].log)
      modifies this`panes, this`events, this`views, this`emitted
      ensures old(emitted) <= emitted
      ensures Coherent() && panes.Keys == old(panes).Keys
      ensures views == old(views)[id := FlushedPane(old(views)[id])]
    {
      hide Accounted, Coherent;
      Reads(id);
      ghost var v := views[id];
      var log := panes[id].transcript;
      Store(id, panes[id].(transcript := Step(log, Flush)), v.(log := Step(v.log, Flush), ops := v.ops + [Flush]));
      NoteRotation(id, FlushedRotation(log));
    }

    // -------------------------------------------------------------------
    // Frames
    // -------------------------------------------------------------------

    method FailPane(id: nat, error: PaneError)
      requires Coherent() && id in panes && Accounted(views[id].log)
      modifies this`panes, this`events, this`views, this`emitted
      ensures old(emitted) <= emitted
      ensures Coherent() && panes.Keys == old(panes).Keys
      ensures views == old(views)[id := FailedPane(old(views)[id], error)]
    {
      hide Accounted, Coherent, FlushedPane, Emitted, Moved, Settled;
      FlushTranscript(id);
      PushEvent(id, EventKind.Error(error));
      Reads(id);
      if panes[id].state.Starting? || panes[id].state.Running? {
        SetExitIfNotKilledOrFailed(id, PaneExit.Failed(error));
        TransitionState(id, PaneState.Failed(error));
      }
    }

    method HandleExitFrame(id: nat, code: Option<int>)
      requires Coherent() && id in panes && Accounted(views[id].log)
      modifies this`panes, this`events, this`views, this`emitted
      ensures old(emitted) <= emitted
      ensures Coherent() && panes.Keys == old(panes).Keys
      ensures views == old(views)[id := ExitedPane(old(views)[id], code)]
    {
      hide Accounted, Coherent, FlushedPane, Emitted, Moved, Settled;
      Reads(id);
      RecordExitEventObserved(id);
      FlushTranscript(id);
      PushEvent(id, EventKind.Exited(code));
      Reads(id);
      if panes[id].state.Live() {
        SetExitIfNotKilledOrFailed(id, PaneExit.Exited(code));
        TransitionState(id, PaneState.Exited(code));
      }
    }

    /** Transcript and overlay get the bytes before the surface may refuse them. */
    method RecordBytes(id: nat, bytes: seq<Byte>) returns (offset: Option<nat>)
      requires Coherent() && id in panes && Accounted(views[id].log)
      modifies this`panes, this`events, this`views, this`emitted
      ensures old(emitted) <= emitted
      ensures Coherent() && panes.Keys == old(panes).Keys
      ensures views == old(views)[id := RecordedPane(old(views)[id], bytes)]
      ensures offset == OffsetOf(old(views)[id].log, bytes)
    {
      hide Accounted, Coherent, Updated, RecordedOffset, RecordedRotation;
      Reads(id);
      ghost var v := views[id];
      var pane := panes[id];
      var log := pane.transcript;
      offset := if log.mode.Disabled? then None else Some(RecordedOffset(log, bytes));
      Store(
        id, pane.(overlay := Updated(pane.overlay, bytes), transcript := Step(log, Feed(bytes))),
        v.(overlay := Updated(v.overlay, bytes), log := Step(v.log, Feed(bytes)), ops := v.ops + [Feed(bytes)]));
      NoteRotation(id, RecordedRotation(log, bytes));
    }

    /** Offers the frame to the surface; a frame it takes starts a new generation. */
    method FeedSurfaceBytes(id: nat, bytes: seq<Byte>) returns (reply: FeedReply)
      requires Coherent() && id in panes
      modifies this`panes, this`views
      ensures Coherent() && panes.Keys == old(panes).Keys && reply == replies(calls)
      ensures views == old(views)[id :=
        var v := old(views)[id];
        if reply.Rejected? then v else v.(surface := v.surface + bytes, generation := v.generation + 1)]
    {
      hide Accounted, Coherent;
      Reads(id);
      reply := replies(calls);
      if reply.Accepted? {
        var pane := panes[id];
        ghost var v := views[id];
        Store(
          id, pane.(surface := pane.surface + bytes, surfaceGeneration := pane.surfaceGeneration + 1),
          v.(surface := v.surface + bytes, generation := v.generation + 1));
      }
    }

    method HandleOutputFrame(id: nat, bytes: seq<Byte>) returns (reply: FeedReply)
      requires Coherent() && id in panes && Accounted(views[id].log)
      modifies this`panes, this`events, this`views, this`emitted
      ensures old(emitted) <= emitted
      ensures Coherent() && panes.Keys == old(panes).Keys && reply == replies(calls)
      ensures views == old(views)[id := OutputPane(old(views)[id], bytes, reply)]
    {
      hide Accounted, Coherent, RecordedPane, OffsetOf, FailedPane;
      var offset := RecordBytes(id, bytes);
      var containsEscape := 27 in bytes;
      reply := FeedSurfaceBytes(id, bytes);
      PushEvent(id, EventKind.Output(|bytes|, offset, containsEscape));
      SettleOutput(id, reply);
    }

    /** What follows from the surface's reply. */
    method SettleOutput(id: nat, reply: FeedReply)
      requires Coherent() && id in panes && Accounted(views[id].log)
      modifies this`panes, this`events, this`views, this`emitted
      ensures old(emitted) <= emitted
      ensures Coherent() && panes.Keys == old(panes).Keys
      ensures views == old(views)[id :=
        var v := old(views)[id];
        if reply.Rejected? then FailedPane(v, SurfaceError)
        else if reply.changed then Emitted(v, SurfaceChanged(v.generation)) else v]
    {
      hide Accounted, Coherent, FailedPane;
      Reads(id);
      if reply.Rejected? {
        FailPane(id, SurfaceError);
      } else if reply.changed {
        PushEvent(id, SurfaceChanged(panes[id].surfaceGeneration));
      }
    }

    method HandlePtyFrame(id: nat, frame: PtyFrame)
      requires Coherent() && id in panes && Accounted(views[id].log)
      modifies this`panes, this`events, this`views, this`emitted, this`calls
      ensures old(emitted) <= emitted
      ensures Coherent() && panes.Keys == old(panes).Keys && calls == old(calls) + 1
      ensures views == old(views)[id := AfterFrame(old(views)[id], frame, replies(old(calls)))]
    {
      hide Accounted, Coherent, OutputPane, FailedPane, ExitedPane, Emitted;
      Reads(id);
      match frame {
        case Output(_, bytes, _) => var _ := HandleOutputFrame(id, bytes);
        case Overflow(_, frames, bytes, _) => PushEvent(id, EventKind.Overflow(frames, bytes));
        case Error(_, message, _) => FailPane(id, IoError(message));
        case Exited(_, code, _) => HandleExitFrame(id, code);
        case CursorPositionRequest(_, _) =>
      }
      calls := calls + 1;
    }

    method TryRecv(id: nat) returns (frame: Option<PtyFrame>)
      requires Coherent() && id in panes
      modifies this`ptys
      ensures Coherent() && id in ptys
      ensures old(ptys)[id] == [] ==> frame.None? && ptys == old(ptys)
      ensures old(ptys)[id] != [] ==> frame == Some(old(ptys)[id][0]) && ptys == old(ptys)[id := old(ptys)[id][1..]]
    {
      hide Faithful;
      if ptys[id] == [] {
        return None;
      }
      frame := Some(ptys[id][0]);
      ptys := ptys[id := ptys[id][1..]];
    }

    /** Handles up to `limit` queued frames. */
    method DrainFrames(id: nat, limit: nat)
      requires Coherent() && id in panes && Accounted(views[id].log)
      modifies this`panes, this`events, this`views, this`emitted, this`calls, this`ptys
      ensures old(emitted) <= emitted
      ensures Coherent() && panes.Keys == old(panes).Keys
      ensures
        var n := Min(limit, |old(ptys)[id]|);
        && views == old(views)[id := AfterFrames(old(views)[id], old(ptys)[id][..n], replies, old(calls))]
        && ptys == old(ptys)[id := old(ptys)[id][n..]] && calls == old(calls) + n
    {
      hide Accounted, Coherent, AfterFrame;
      Reads(id);
      ghost var queued := ptys[id];
      var n := 0;
      while n < limit
        invariant n <= Min(limit, |queued|) && id in views && id in ptys
        invariant Coherent() && panes.Keys == old(panes).Keys && calls == old(calls) + n && old(emitted) <= emitted
        invariant views == old(views)[id := AfterFrames(old(views)[id], queued[..n], replies, old(calls))]
        invariant ptys == old(ptys)[id := queued[n..]]
      {
        Reads(id);
        var frame := TryRecv(id);
        if frame.None? {
          break;
        }
        HandlePtyFrame(id, frame.value);
        assert queued[..n + 1][..n] == queued[..n];
        n := n + 1;
      }
    }

    /** Output of an attached pane: a frame the surface refuses fails the pane, and the attach with it. */
    method RecordAttachOutputFrame(id: nat, bytes: seq<Byte>) returns (ok: bool)
      requires Valid() && id in panes
      modifies this`panes, this`events, this`views, this`emitted, this`calls
      ensures old(emitted) <= emitted
      ensures Valid() && panes.Keys == old(panes).Keys && id in views && id in old(views) && Accounted(old(views)[id].log)
      ensures views[id] == OutputPane(old(views)[id], bytes, replies(old(calls))) && ok == replies(old(calls)).Accepted?
      ensures calls == old(calls) + 1
      ensures views == old(views)[id := views[id]]
    {
      hide Accounted, Coherent, Consistent, OutputPane;
      Reads(id);
      OutputKeeps(views[id], bytes, replies(calls));
      var reply := HandleOutputFrame(id, bytes);
      calls := calls + 1;
      ok := reply.Accepted?;
    }

    /** The other frames of an attached pane are handled as ever. */
    method HandleAttachFrame(id: nat, frame: PtyFrame)
      requires Valid() && id in panes && !frame.Output?
      modifies this`panes, this`events, this`views, this`emitted, this`calls
      ensures old(emitted) <= emitted
      ensures Valid() && panes.Keys == old(panes).Keys && id in views && id in old(views) && Accounted(old(views)[id].log)
      ensures views[id] == AfterFrame(old(views)[id], frame, replies(old(calls)))
      ensures calls == old(calls) + 1
      ensures frame.Exited? || !old(views)[id].state.Live() ==> !views[id].state.Live()
      ensures views == old(views)[id := views[id]]
    {
      hide Accounted, Coherent, Consistent, AfterFrame;
      Reads(id);
      FrameKeeps(views[id], frame, replies(calls));
      HandlePtyFrame(id, frame);
    }

    method NextAttachPtyFrame(id: nat) returns (frame: Option<PtyFrame>)
      requires Valid() && id in panes
      modifies this`ptys
      ensures Valid() && id in ptys && id in old(ptys)
      ensures frame.None? ==> ptys == old(ptys) && ptys[id] == []
      ensures frame.Some? ==> old(ptys)[id] == [frame.value] + ptys[id] && ptys == old(ptys)[id := ptys[id]]
    {
      hide Faithful, Consistent;
      frame := TryRecv(id);
      assert frame.Some? ==> old(ptys)[id] == [old(ptys)[id][0]] + old(ptys)[id][1..];
    }

    // -------------------------------------------------------------------
    // The operations of the manager
    // -------------------------------------------------------------------

    /** A process queues more output. */
    method Arrive(id: nat, frames: seq<PtyFrame>)
      requires Valid() && id in panes
      modifies this`ptys
      ensures Valid() && id in old(ptys) && ptys == old(ptys)[id := old(ptys)[id] + frames]
    {
      hide Faithful, Consistent;
      ptys := ptys[id := ptys[id] + frames];
    }

    method Ask() returns (ok: bool)
      modifies this`calls
      ensures ok == !refusals(old(calls)) && calls == old(calls) + 1
    {
      ok := !refusals(calls);
      calls := calls + 1;
    }

    /** Registers a pane that has no event yet. */
    method Insert(id: nat, log: Log)
      requires Coherent() && id !in panes && id <= nextPaneId && Accounted(log)
      modifies this`panes, this`ptys, this`views, this`born
      ensures Coherent() && panes.Keys == old(panes).Keys + {id} && views == old(views)[id := NewView(log)]
      ensures born == old(born)[id := |emitted|]
    {
      hide Faithful, Accounted;
      var pane := Pane(Starting, None, false, log, FRESH, [], 0, 0, [], 0);
      NewIsFaithful(id, log, emitted, retention);
      panes := panes[id := pane];
      ptys := ptys[id := []];
      views := views[id := NewView(log)];
      born := born[id := |emitted|];
    }

    /**
     * A new pane runs, with a number nobody has or with the number asked for; a refused spawn leaves every pane and
     * every event as it was.
     */
    method Spawn(config: PaneConfig) returns (result: Result<nat, PaneError>)
      requires Valid()
      modifies this
      ensures Valid() && old(emitted) <= emitted && handed == old(handed)
      ensures result.Success? <==>
        && config.valid && (config.id.Some? ==> config.id.value !in old(panes))
        && !refusals(old(calls)) && !refusals(old(calls) + 1)
      ensures result.Success? ==>
        && result.value == (if config.id.Some? then config.id.value else old(nextPaneId) + 1)
        && result.value !in old(panes) && panes.Keys == old(panes).Keys + {result.value}
        && views == old(views)[result.value := SpawnedView(config)]
        && born == old(born)[result.value := |old(emitted)|]
      ensures result.Failure? ==>
        panes == old(panes) && views == old(views) && ptys == old(ptys) && emitted == old(emitted) && events == old(events)
      ensures nextPaneId >= old(nextPaneId)
    {
      hide Faithful, Accounted, Consistent, SpawnedView;
      if !config.valid {
        return Failure(InvalidConfig);
      }
      var id := if config.id.Some? then config.id.value else nextPaneId + 1;
      nextPaneId := Max(nextPaneId, id);
      if id in panes {
        return Failure(SpawnError);
      }
      var ok := Ask();
      if !ok {
        return Failure(SpawnError);
      }
      ok := Ask();
      if !ok {
        return Failure(SpawnError);
      }
      Start(id, config);
      return Success(id);
    }

    /** Inserts the pane and tells of it. */
    method Start(id: nat, config: PaneConfig)
      requires Valid() && id !in panes && id <= nextPaneId
      modifies this`panes, this`events, this`ptys, this`views, this`emitted, this`born
      ensures old(emitted) <= emitted
      ensures Valid() && panes.Keys == old(panes).Keys + {id} && views == old(views)[id := SpawnedView(config)]
      ensures born == old(born)[id := |old(emitted)|]
    {
      hide Faithful, Accounted, Consistent, Coherent, Emitted, Moved;
      NewLog(config);
      Insert(id, Empty(config.mode, config.maxBytes, config.maxLines));
      PushEvent(id, Spawned(config.program));
      TransitionState(id, Running);
      SpawnedIsConsistent(config);
    }

    /** A kill reaches a running pane only, and only if the process takes it; the pane stays, killed. */
    method Kill(id: nat, reason: KillReason) returns (result: Result<(), PaneError>)
      requires Valid()
      modifies this`panes, this`events, this`views, this`emitted, this`calls
      ensures old(emitted) <= emitted
      ensures Valid() && panes.Keys == old(panes).Keys
      ensures id !in old(panes) ==> result == Failure(NotFound(id))
      ensures id in old(views) && !old(views)[id].state.Running? ==> result == Failure(InvalidState)
      ensures result.Failure? ==> views == old(views) && panes == old(panes) && emitted == old(emitted)
      ensures result.Success? <==>
        id in old(views) && old(views)[id].state.Running? && !refusals(old(calls))
      ensures result.Success? ==> id in old(views) && views == old(views)[id := KilledView(old(views)[id], reason)]
    {
      hide Valid, KilledView;
      LooksUp(id);
      if id !in panes {
        return Failure(NotFound(id));
      }
      if !panes[id].state.Running? {
        return Failure(InvalidState);
      }
      var ok := Ask();
      if !ok {
        return Failure(IoError("kill"));
      }
      Terminate(id, reason);
      return Success(());
    }

    lemma LooksUp(id: nat)
      requires Valid()
      ensures panes.Keys == views.Keys
      ensures id in panes ==> panes[id].state == views[id].state && panes[id].exit == views[id].exit
    {
      hide Faithful, Accounted, Consistent, Coherent;
      Known();
      if id in panes {
        Reads(id);
      }
    }

    lemma Known()
      requires Coherent()
      ensures panes.Keys == views.Keys == born.Keys == ptys.Keys
    {
    }

    method Terminate(id: nat, reason: KillReason)
      requires Valid() && id in panes && id in views && views[id].state.Running?
      modifies this`panes, this`events, this`views, this`emitted
      ensures old(emitted) <= emitted
      ensures Valid() && panes.Keys == old(panes).Keys
      ensures views == old(views)[id := KilledView(old(views)[id], reason)]
    {
      hide Faithful, Accounted, Consistent, Coherent, Moved, Settled;
      KillIsConsistent(views[id], reason);
      SetExitIfNotKilledOrFailed(id, PaneExit.Killed(reason));
      TransitionState(id, PaneState.Killed(reason));
    }

    /** What is left to do before a terminal pane goes. */
    method FlushTerminalPaneBeforeRemove(id: nat)
      requires Coherent() && id in panes && Accounted(views[id].log)
      modifies this`panes, this`events, this`views, this`emitted, this`calls, this`ptys
      ensures old(emitted) <= emitted
      ensures Coherent() && panes.Keys == old(panes).Keys
      ensures views == old(views)[id := FinalPane(old(views)[id], old(ptys)[id], replies, old(calls))]
    {
      hide Faithful, Accounted, Consistent, Coherent, FlushedPane, AfterFrames, WithExitEvent;
      Known();
      ghost var queued := ptys[id];
      Reads(id);
      ghost var drained := AfterFrames(views[id], queued, replies, calls);
      assert queued[..Min(|queued|, |queued|)] == queued;
      DrainFrames(id, |ptys[id]|);
      assert views == old(views)[id := drained];
      Reads(id);
      FlushTranscript(id);
      SynthesizeExit(id);
    }

    /** A pane that was killed or failed without an exit frame still gets an exit event. */
    method SynthesizeExit(id: nat)
      requires Coherent() && id in panes
      modifies this`panes, this`events, this`views, this`emitted
      ensures old(emitted) <= emitted
      ensures Coherent() && panes.Keys == old(panes).Keys
      ensures views == old(views)[id := WithExitEvent(old(views)[id])]
    {
      hide Faithful, Accounted, Consistent, Coherent;
      Reads(id);
      var pane := panes[id];
      if (pane.state.Killed? || pane.state.Failed?) && !pane.exitEventObserved {
        RecordExitEventObserved(id);
        PushEvent(id, EventKind.Exited(None));
      }
    }

    /** The pane leaves the manager, with what arrived `late` handled first. */
    method TakeOut(id: nat, late: seq<PtyFrame>) returns (exit: Option<PaneExit>)
      requires Valid() && id in panes && id in views && !views[id].state.Live() && id in ptys && ptys[id] == []
      modifies this`panes, this`events, this`views, this`emitted, this`calls, this`ptys, this`born
      ensures old(emitted) <= emitted
      ensures Valid() && exit == ExitOf(old(views)[id].state) && exit.Some?
      ensures id in old(born) && views == old(views) - {id}
      ensures LeftBehind(id, old(born)[id], FinalPane(old(views)[id], late, replies, old(calls)))
    {
      hide Faithful, Accounted, Consistent, Coherent, FinalPane;
      Known();
      Arrive(id, late);
      assert ptys[id] == late;
      Reads(id);
      FinalPaneIsComplete(views[id], late, replies, calls);
      FlushTerminalPaneBeforeRemove(id);
      exit := Delete(id);
    }

    /** All that is left of a pane spawned after `bornAt` events is its events, an exit event among them. */
    ghost predicate LeftBehind(id: nat, bornAt: nat, last: View)
      reads this`emitted, this`panes
    {
      && id !in panes && bornAt <= |emitted|
      && OfPane(id, emitted[bornAt..]) == Numbered(id, last.history)
      && exists event :: event in OfPane(id, emitted[bornAt..]) && event.kind.Exited?
    }

    method Delete(id: nat) returns (exit: Option<PaneExit>)
      requires Coherent() && id in panes && id in views && id in born && Consistent(views[id]) && Observed(views[id].history)
      modifies this`panes, this`views, this`ptys, this`born
      ensures Coherent() && exit == ExitOf(old(views)[id].state)
      ensures panes.Keys == old(panes).Keys - {id} && views == old(views) - {id} && born == old(born) - {id}
      ensures LeftBehind(id, old(born)[id], old(views)[id])
    {
      hide Faithful, Accounted, Consistent, Observed;
      Reads(id);
      ExitFollowsState(views[id]);
      exit := RemoveExit(panes[id]);
      IsLeftBehind(id, panes[id], views[id], born[id], emitted, retention);
      panes, views, ptys, born := panes - {id}, views - {id}, ptys - {id}, born - {id};
    }

    /**
     * A live pane is not removed: what it has put out is handled, but its transcript is only fed, never flushed. A
     * terminal pane goes, with the exit of its state and with an exit event emitted; its sequence numbers ran from 1
     * without a gap to the end.
     */
    method Remove(id: nat, late: seq<PtyFrame>) returns (result: Result<Option<PaneExit>, PaneError>)
      requires Valid()
      modifies this`panes, this`events, this`views, this`emitted, this`calls, this`ptys, this`born
      ensures old(emitted) <= emitted
      ensures Valid()
      ensures id !in old(views) ==> result == Failure(NotFound(id)) && views == old(views) && emitted == old(emitted)
      ensures id in old(views) ==> id in old(ptys) && id in old(born)
      ensures id in old(views) ==>
        var v := AfterFrames(old(views)[id], old(ptys)[id], replies, old(calls));
        if v.state.Live() then
          && result == Failure(InvalidState) && views == old(views)[id := v]
          && v.ops == old(views)[id].ops + OutputFeeds(old(ptys)[id])
        else
          && result == Success(ExitOf(v.state)) && result.value.Some? && views == old(views) - {id}
          && LeftBehind(id, old(born)[id], FinalPane(v, late, replies, old(calls) + |old(ptys)[id]|))
    {
      hide Faithful, Accounted, Consistent, Coherent, AfterFrames, FinalPane, LeftBehind;
      Known();
      if id !in panes {
        return Failure(NotFound(id));
      }
      DrainAllPaneFrames(id);
      Known();
      LooksUp(id);
      if panes[id].state.Live() {
        return Failure(InvalidState);
      }
      var exit := TakeOut(id, late);
      return Success(exit);
    }

    /** Handles everything queued. */
    method DrainAllPaneFrames(id: nat)
      requires Valid() && id in panes && id in views && id in ptys
      modifies this`panes, this`events, this`views, this`emitted, this`calls, this`ptys
      ensures old(emitted) <= emitted
      ensures Valid() && panes.Keys == old(panes).Keys
      ensures views == old(views)[id := AfterFrames(old(views)[id], old(ptys)[id], replies, old(calls))]
      ensures id in ptys && ptys == old(ptys)[id := []] && calls == old(calls) + |old(ptys)[id]|
      ensures views[id].state.Live() ==> views[id].ops == old(views)[id].ops + OutputFeeds(old(ptys)[id])
    {
      hide Faithful, Accounted, Consistent, Coherent, AfterFrames;
      ghost var queued := ptys[id];
      Reads(id);
      FirstEndDecides(views[id], queued, replies, calls);
      if AfterFrames(views[id], queued, replies, calls).state.Live() {
        LiveMeansUnflushed(views[id], queued, replies, calls);
      }
      assert queued[..Min(|queued|, |queued|)] == queued && queued[|queued|..] == [];
      DrainFrames(id, |ptys[id]|);
    }

    /** A successful kill and removal returns the kill, and nothing but the kill can have failed. */
    method KillAndRemove(id: nat, reason: KillReason, late: seq<PtyFrame>)
      returns (result: Result<Option<PaneExit>, PaneError>)
      requires Valid()
      modifies this`panes, this`events, this`views, this`emitted, this`calls, this`ptys, this`born
      ensures old(emitted) <= emitted
      ensures Valid()
      ensures result.Success? ==> result.value == Some(PaneExit.Killed(reason)) && views == old(views) - {id}
      ensures result.Failure? ==> views == old(views) && emitted == old(emitted)
      ensures result.Success? <==> id in old(views) && old(views)[id].state.Running? && !refusals(old(calls))
    {
      hide Coherent, AfterFrames, FinalPane, LeftBehind, Consistent, KilledView;
      var killed := Kill(id, reason);
      if killed.Failure? {
        return Failure(killed.error);
      }
      KillIsConsistent(old(views)[id], reason);
      Known();
      FirstEndDecides(views[id], ptys[id], replies, calls);
      result := Remove(id, late);
      assert views == old(views) - {id};
    }

    /** A bounded number of frames of each pane, in the order of the panes' numbers. */
    method PollPanes()
      requires Valid()
      modifies this`panes, this`events, this`views, this`emitted, this`calls, this`ptys
      ensures old(emitted) <= emitted
      ensures Valid() && panes.Keys == old(panes).Keys
      ensures forall id :: id in old(views) ==>
        && id in views && id in old(ptys)
        && IsPolled(views[id], old(views)[id], old(ptys)[id], maxPtyFramesPerDrain, replies)
    {
      hide Valid, IsPolled, PolledUpTo;
      KnownPanes();
      ghost var before, queued := views, ptys;
      NonePolled(before, queued, maxPtyFramesPerDrain, replies);
      for id := 0 to nextPaneId + 1
        invariant Valid() && panes.Keys == old(panes).Keys == views.Keys == ptys.Keys && old(emitted) <= emitted
        invariant PolledUpTo(before, queued, views, ptys, id, maxPtyFramesPerDrain, replies)
      {
        ghost var vs, qs := views, ptys;
        if id in panes {
          PollPaneFrames(id);
          KnownPanes();
        }
        OneMorePolled(before, queued, vs, qs, views, ptys, id, maxPtyFramesPerDrain, replies);
      }
      AllPolled(before, queued, views, ptys, nextPaneId + 1, maxPtyFramesPerDrain, replies);
    }

    lemma KnownPanes()
      requires Valid()
      ensures panes.Keys == views.Keys == born.Keys == ptys.Keys && forall id :: id in views ==> id <= nextPaneId
    {
      hide Faithful, Consistent;
    }

    method PollPaneFrames(id: nat)
      requires Valid() && id in panes && id in views && id in ptys
      modifies this`panes, this`events, this`views, this`emitted, this`calls, this`ptys
      ensures old(emitted) <= emitted
      ensures Valid() && panes.Keys == old(panes).Keys
      ensures views == old(views)[id := Polled(old(views)[id], old(ptys)[id], maxPtyFramesPerDrain, replies, old(calls))]
      ensures id in views && IsPolled(views[id], old(views)[id], old(ptys)[id], maxPtyFramesPerDrain, replies)
      ensures forall k :: k in old(ptys) && k != id ==> k in ptys && ptys[k] == old(ptys)[k]
    {
      hide Faithful, Accounted, Consistent, Coherent, AfterFrames;
      Reads(id);
      FirstEndDecides(views[id], ptys[id][..Min(maxPtyFramesPerDrain, |ptys[id]|)], replies, calls);
      DrainFrames(id, maxPtyFramesPerDrain);
    }

    /**
     * Polls, then hands over everything queued: what waited before, then what the poll emitted, which is every event
     * emitted and not handed over before.
     */
    method DrainEvents() returns (out: seq<PaneEvent>)
      requires Valid()
      modifies this`panes, this`events, this`views, this`emitted, this`calls, this`ptys, this`handed
      ensures Valid() && events == [] && panes.Keys == old(panes).Keys
      ensures old(emitted) <= emitted && out == old(events) + emitted[|old(emitted)|..]
      ensures old(handed) <= handed == |emitted| && out == emitted[old(handed)..]
    {
      hide Faithful, Consistent, IsPolled;
      PollPanes();
      out := events;
      WaitedThenPolled(old(emitted), emitted, old(handed));
      assert emitted[|emitted|..] == [];
      events, handed := [], |emitted|;
    }
  }

  lemma WaitedThenPolled(before: seq<PaneEvent>, emitted: seq<PaneEvent>, handed: nat)
    requires before <= emitted && handed <= |before|
    ensures emitted[handed..] == before[handed..] + emitted[|before|..]
  {
  }

  /** A pane after one poll. */
  ghost function Polled(v: View, queued: seq<PtyFrame>, limit: nat, replies: nat -> FeedReply, from: nat): View {
    if Accounted(v.log) then AfterFrames(v, queued[..Min(limit, |queued|)], replies, from) else v
  }

  ghost predicate IsPolled(after: View, v: View, queued: seq<PtyFrame>, limit: nat, replies: nat -> FeedReply) {
    exists from :: after == Polled(v, queued, limit, replies, from)
  }

  /** The panes numbered below `id` are polled, the others as they were. */
  ghost predicate PolledUpTo(
    before: map<nat, View>, queued: map<nat, seq<PtyFrame>>, views: map<nat, View>, ptys: map<nat, seq<PtyFrame>>,
    id: nat, limit: nat, replies: nat -> FeedReply)
  {
    forall k :: k in before ==>
      && k in queued && k in views && k in ptys
      && (k < id ==> IsPolled(views[k], before[k], queued[k], limit, replies))
      && (k >= id ==> views[k] == before[k] && ptys[k] == queued[k])
  }

  lemma NonePolled(before: map<nat, View>, queued: map<nat, seq<PtyFrame>>, limit: nat, replies: nat -> FeedReply)
    requires before.Keys == queued.Keys
    ensures PolledUpTo(before, queued, before, queued, 0, limit, replies)
  {
  }

  lemma OneMorePolled(
    before: map<nat, View>, queued: map<nat, seq<PtyFrame>>, vs: map<nat, View>, qs: map<nat, seq<PtyFrame>>,
    views: map<nat, View>, ptys: map<nat, seq<PtyFrame>>, id: nat, limit: nat, replies: nat -> FeedReply)
    requires PolledUpTo(before, queued, vs, qs, id, limit, replies) && before.Keys == vs.Keys
    requires vs.Keys == views.Keys == ptys.Keys == qs.Keys
    requires if id in vs then views == vs[id := views[id]] && IsPolled(views[id], vs[id], qs[id], limit, replies)
             else views == vs
    requires forall k :: k in qs && k != id ==> ptys[k] == qs[k]
    ensures PolledUpTo(before, queued, views, ptys, id + 1, limit, replies)
  {
    hide IsPolled;
    forall k | k in before
      ensures k in queued && k in views && k in ptys
      ensures k < id + 1 ==> IsPolled(views[k], before[k], queued[k], limit, replies)
      ensures k >= id + 1 ==> views[k] == before[k] && ptys[k] == queued[k]
    {
    }
  }

  lemma AllPolled(
    before: map<nat, View>, queued: map<nat, seq<PtyFrame>>, views: map<nat, View>, ptys: map<nat, seq<PtyFrame>>,
    id: nat, limit: nat, replies: nat -> FeedReply)
    requires PolledUpTo(before, queued, views, ptys, id, limit, replies) && forall k :: k in views ==> k < id
    ensures forall k :: k in before ==>
      k in queued && k in views && IsPolled(views[k], before[k], queued[k], limit, replies)
  {
    hide IsPolled;
  }

  /** The exit on record, or else the one the state tells. */
  function RemoveExit(pane: Pane): Option<PaneExit> {
    if pane.exit.Some? then pane.exit
    else
      match pane.state
      case Exited(code) => Some(PaneExit.Exited(code))
      case Killed(reason) => Some(PaneExit.Killed(reason))
      case Failed(error) => Some(PaneExit.Failed(error))
      case _ => None
  }

  lemma IsLeftBehind(
    id: nat, pane: Pane, v: View, bornAt: nat, emitted: seq<PaneEvent>, retention: EventLogRetention)
    requires Faithful(id, pane, v, bornAt, emitted, retention) && Observed(v.history)
    ensures bornAt <= |emitted| && OfPane(id, emitted[bornAt..]) == Numbered(id, v.history)
    ensures exists event :: event in OfPane(id, emitted[bornAt..]) && event.kind.Exited?
  {
    ExitIsEmitted(id, v.history);
  }

  function SpawnedView(config: PaneConfig): View {
    Moved(Emitted(NewView(Empty(config.mode, config.maxBytes, config.maxLines)), Spawned(config.program)), Running)
  }

  lemma NewLog(config: PaneConfig)
    ensures Accounted(Empty(config.mode, config.maxBytes, config.maxLines))
  {
  }

  lemma SpawnedIsConsistent(config: PaneConfig)
    ensures Consistent(SpawnedView(config)) && SpawnedView(config).state == Running
    ensures Accounted(SpawnedView(config).log)
  {
    TrackSnoc([], Spawned(config.program));
    assert [] + [Spawned(config.program)] == [Spawned(config.program)];
    TrackSnoc([Spawned(config.program)], StateChanged(Starting, Running));
  }

  /** What a new pane is and has told. */
  lemma SpawnTells(config: PaneConfig)
    ensures
      var v := SpawnedView(config);
      && v.state == Running && v.exit == None && v.surface == [] && v.generation == 0 && v.ops == []
      && v.log == Empty(config.mode, config.maxBytes, config.maxLines)
      && v.history == [Spawned(config.program), StateChanged(Starting, Running)]
  {
  }

  /** What a kill does to a running pane, and tells. */
  lemma KillTells(v: View, reason: KillReason)
    requires Consistent(v) && v.state == Running
    ensures KilledView(v, reason) == v.(
      state := PaneState.Killed(reason), exit := Some(PaneExit.Killed(reason)),
      history := v.history + [StateChanged(Running, PaneState.Killed(reason))])
  {
  }

  function KilledView(v: View, reason: KillReason): View {
    Moved(Settled(v, PaneExit.Killed(reason)), PaneState.Killed(reason))
  }

  lemma KillIsConsistent(v: View, reason: KillReason)
    requires Consistent(v) && v.state.Running?
    ensures Consistent(KilledView(v, reason)) && KilledView(v, reason).state == PaneState.Killed(reason)
  {
    EndKeeps(v, PaneState.Killed(reason));
  }

  lemma NewIsFaithful(id: nat, log: Log, emitted: seq<PaneEvent>, retention: EventLogRetention)
    requires Accounted(log)
    ensures Faithful(
      id, Pane(Starting, None, false, log, FRESH, [], 0, 0, [], 0), NewView(log), |emitted|, emitted, retention)
  {
    assert emitted[|emitted|..] == [];
  }
}
