/** The output of a pane attached through the manager: shown or scrolled away, surface and transcript get all of it. */
module ManagerAttach {
  import opened Bytes
  import opened FrameQueue
  import opened Retention
  import opened TranscriptRuns
  import opened PaneLifecycle
  import opened PaneManager
  import AttachBridge
  import AttachSession

  const MAX_PTY_FRAMES_PER_TICK: nat := 32

  // ---------------------------------------------------------------------
  // The balance of what was received
  // ---------------------------------------------------------------------

  /** What a pane had recorded and shown before the attach. */
  datatype Baseline = Baseline(recorded: seq<Byte>, surface: seq<Byte>)

  function BaselineOf(v: View): Baseline { Baseline(RawStream(v.ops), v.surface) }

  /** Everything received is in the transcript's stream and on the surface, or waits to be replayed to both. */
  predicate Balanced(
    v: View, waiting: seq<Byte>, start: Baseline, received: seq<Byte>, policy: AttachSession.OutputPolicy)
  {
    && RawStream(v.ops) + waiting == start.recorded + received
    && v.surface + waiting == start.surface + received
    && (policy.FanoutToSurfaceAndStdout? ==> waiting == [])
  }

  lemma StartsBalanced(v: View, policy: AttachSession.OutputPolicy)
    ensures Balanced(v, [], BaselineOf(v), [], policy)
  {
  }

  lemma WaitingKeepsBalance(
    v: View, waiting: seq<Byte>, start: Baseline, received: seq<Byte>, policy: AttachSession.OutputPolicy, bytes: seq<Byte>)
    requires Balanced(v, waiting, start, received, policy) && !policy.FanoutToSurfaceAndStdout?
    ensures Balanced(v, waiting + bytes, start, received + bytes, policy)
  {
    hide RawStream;
    Regroup(RawStream(v.ops), waiting, bytes);
    Regroup(v.surface, waiting, bytes);
    Regroup(start.recorded, received, bytes);
    Regroup(start.surface, received, bytes);
  }

  /** A frame the surface takes is in the transcript's stream and on the surface. */
  lemma AcceptedOutput(v: View, bytes: seq<Byte>, reply: FeedReply)
    requires Accounted(v.log) && reply.Accepted?
    ensures
      var after := OutputPane(v, bytes, reply);
      && RawStream(after.ops) == RawStream(v.ops) + bytes && after.surface == v.surface + bytes
  {
    hide Accounted, RecordedPane, RawStream, Step;
    FrameFeeds(v, PtyFrame.Output(0, bytes, 0), reply);
    RecordingLeavesSurface(v, bytes);
  }

  lemma RecordingLeavesSurface(v: View, bytes: seq<Byte>)
    requires Accounted(v.log)
    ensures RecordedPane(v, bytes).surface == v.surface
  {
  }

  lemma OutputKeepsBalance(
    v: View, start: Baseline, received: seq<Byte>, policy: AttachSession.OutputPolicy, bytes: seq<Byte>, reply: FeedReply)
    requires Accounted(v.log) && reply.Accepted? && Balanced(v, [], start, received, policy)
    ensures Balanced(OutputPane(v, bytes, reply), [], start, received + bytes, policy)
  {
    hide Accounted, OutputPane, RawStream;
    AcceptedOutput(v, bytes, reply);
    Regroup(start.recorded, received, bytes);
    Regroup(start.surface, received, bytes);
  }

  lemma ReplayKeepsBalance(
    v: View, waiting: seq<Byte>, start: Baseline, received: seq<Byte>, policy: AttachSession.OutputPolicy, reply: FeedReply)
    requires Accounted(v.log) && reply.Accepted? && Balanced(v, waiting, start, received, policy)
    ensures Balanced(OutputPane(v, waiting, reply), [], start, received, policy)
  {
    hide Accounted, OutputPane, RawStream;
    AcceptedOutput(v, waiting, reply);
  }

  /** A frame that is not output leaves stream and surface alone. */
  lemma OtherKeepsBalance(
    v: View, waiting: seq<Byte>, start: Baseline, received: seq<Byte>, policy: AttachSession.OutputPolicy,
    frame: PtyFrame, reply: FeedReply)
    requires Accounted(v.log) && !frame.Output? && Balanced(v, waiting, start, received, policy)
    ensures Balanced(AfterFrame(v, frame, reply), waiting, start, received, policy)
  {
    hide Accounted, RawStream, Step;
    FrameFeeds(v, frame, reply);
    assert RawStream(v.ops) + [] == RawStream(v.ops);
  }

  lemma BalancedIsComplete(v: View, start: Baseline, received: seq<Byte>, policy: AttachSession.OutputPolicy)
    requires Balanced(v, [], start, received, policy)
    ensures RawStream(v.ops) == start.recorded + received && v.surface == start.surface + received
  {
    assert RawStream(v.ops) + [] == RawStream(v.ops) && v.surface + [] == v.surface;
  }

  lemma OutputBytesSnoc(a: seq<PtyFrame>, b: PtyFrame)
    ensures OutputBytes(a + [b]) == OutputBytes(a) + (if b.Output? then b.bytes else [])
  {
    assert (a + [b])[..|a|] == a;
  }

  lemma {:induction false} OutputBytesAppend(a: seq<PtyFrame>, b: seq<PtyFrame>)
    ensures OutputBytes(a + b) == OutputBytes(a) + OutputBytes(b)
    decreases |b|
  {
    if b == [] {
      assert a + b == a && OutputBytes(a) + [] == OutputBytes(a);
    } else {
      var n := |b| - 1;
      assert a + b == (a + b[..n]) + [b[n]];
      OutputBytesAppend(a, b[..n]);
      OutputBytesSnoc(a + b[..n], b[n]);
      Regroup(OutputBytes(a), OutputBytes(b[..n]), if b[n].Output? then b[n].bytes else []);
    }
  }

  // ---------------------------------------------------------------------
  // The attached pane's output
  // ---------------------------------------------------------------------

  /** One round of the attached loop: what the PTY has queued by then, and whether the viewport is at the tail. */
  datatype Tick = Tick(arrivals: seq<PtyFrame>, atTail: bool)

  function ArrivalsOf(ticks: seq<Tick>): seq<seq<PtyFrame>> {
    if ticks == [] then [] else ArrivalsOf(ticks[..|ticks| - 1]) + [ticks[|ticks| - 1].arrivals]
  }

  /** What stdout gets of the rounds' frames `parts`: those of the rounds with the viewport at the tail. */
  function ShownOf(ticks: seq<Tick>, parts: seq<seq<PtyFrame>>): seq<Byte>
    requires |parts| <= |ticks|
  {
    if parts == [] then []
    else
      var n := |parts| - 1;
      ShownOf(ticks, parts[..n]) + (if ticks[n].atTail then OutputBytes(parts[n]) else [])
  }

  /** All of it if the viewport was at the tail throughout, and nothing if it never was. */
  lemma {:induction false} ShownAllOrNothing(ticks: seq<Tick>, parts: seq<seq<PtyFrame>>)
    requires |parts| <= |ticks|
    ensures AlwaysAtTail(ticks) ==> ShownOf(ticks, parts) == OutputBytes(Concat(parts))
    ensures NeverAtTail(ticks) ==> ShownOf(ticks, parts) == []
    decreases |parts|
  {
    if parts != [] {
      var n := |parts| - 1;
      ShownAllOrNothing(ticks, parts[..n]);
      assert parts == parts[..n] + [parts[n]] && ticks[n] in ticks;
      ConcatSnoc(parts[..n], parts[n]);
      OutputBytesAppend(Concat(parts[..n]), parts[n]);
    }
  }

  predicate AlwaysAtTail(ticks: seq<Tick>) { forall t :: t in ticks ==> t.atTail }

  predicate NeverAtTail(ticks: seq<Tick>) { forall t :: t in ticks ==> !t.atTail }

  /** The PTY reported an error among these frames. */
  predicate Erring(frames: seq<PtyFrame>) { exists frame :: frame in frames && frame.Error? }

  predicate SomeErring(batches: seq<seq<PtyFrame>>) { exists frames :: frames in batches && Erring(frames) }

  lemma LeftErring(taken: seq<PtyFrame>, left: seq<PtyFrame>, queued: seq<PtyFrame>, arrivals: seq<PtyFrame>)
    requires taken + left == queued + arrivals
    ensures Erring(left) ==> Erring(queued) || Erring(arrivals)
  {
    if Erring(left) {
      var frame :| frame in left && frame.Error?;
      assert frame in taken + left;
      assert frame in queued || frame in arrivals;
    }
  }

  lemma {:induction false} ArrivalsAreTicks(ticks: seq<Tick>, n: nat)
    requires n < |ticks|
    ensures |ArrivalsOf(ticks)| == |ticks| && ArrivalsOf(ticks)[n] == ticks[n].arrivals
    decreases |ticks|
  {
    var k := |ticks| - 1;
    if k > 0 {
      ArrivalsAreTicks(ticks[..k], if n < k then n else 0);
    }
  }

  class AttachOutputDrain {
    const manager: PaneManager
    const id: nat
    const policy: AttachSession.OutputPolicy
    const stdoutFails: nat -> bool
    ghost const start: Baseline
    var writes: nat
    var stdout: seq<Byte>
    var replayBuffer: seq<Byte>
    var childExitCode: Option<int>
    /** The output taken from the PTY. */
    ghost var received: seq<Byte>

    constructor (manager: PaneManager, id: nat, policy: AttachSession.OutputPolicy, stdoutFails: nat -> bool)
      requires manager.Valid() && id in manager.panes && id in manager.views
      ensures this.manager == manager && this.id == id && this.policy == policy
      ensures Conserved() && received == [] && stdout == [] && start == BaselineOf(manager.views[id])
    {
      hide manager.Valid, Balanced, RawStream;
      this.manager, this.id, this.policy, this.stdoutFails := manager, id, policy, stdoutFails;
      writes, stdout, replayBuffer, childExitCode, received := 0, [], [], None, [];
      start := BaselineOf(manager.views[id]);
      StartsBalanced(manager.views[id], policy);
    }

    ghost predicate Conserved()
      reads this, manager
    {
      && manager.Valid() && id in manager.panes && id in manager.views
      && Balanced(manager.views[id], replayBuffer, start, received, policy)
    }

    /** There was reason to give up: a write or a feed failed, the last of those made, or the PTY reported an error. */
    ghost predicate Justified(
      failure: Option<AttachBridge.AttachError>, writesBefore: nat, callsBefore: nat, erring: bool)
      reads this`writes, manager`calls
    {
      && writes >= writesBefore && manager.calls >= callsBefore
      && (failure.None?
          || (failure.value.TerminalOutputFailed? && writes > writesBefore && stdoutFails(writes - 1))
          || (failure.value.SurfaceFeedFailed? && manager.calls > callsBefore
              && manager.replies(manager.calls - 1).Rejected?)
          || (failure.value.PtyRuntimeFailed? && erring))
    }

    method WriteStdout(bytes: seq<Byte>) returns (ok: bool)
      modifies this`writes, this`stdout
      ensures ok == !stdoutFails(old(writes)) && writes == old(writes) + 1
      ensures ok ==> stdout == old(stdout) + bytes
    {
      ok := !stdoutFails(writes);
      writes := writes + 1;
      if ok {
        stdout := stdout + bytes;
      }
    }

    /** One output frame: to stdout if the viewport is at the tail, and to the pane or the buffer in any case. */
    method DeliverOutput(bytes: seq<Byte>, forwardStdout: bool) returns (failure: Option<AttachBridge.AttachError>)
      requires Conserved()
      modifies this`writes, this`stdout, this`replayBuffer, this`received
      modifies manager`panes, manager`events, manager`views, manager`emitted, manager`calls
      ensures Justified(failure, old(writes), old(manager.calls), false)
      ensures manager.panes.Keys == old(manager.panes).Keys
      ensures failure.None? ==>
        && Conserved() && received == old(received) + bytes
        && stdout == old(stdout) + (if forwardStdout then bytes else [])
    {
      hide Accounted, Balanced, OutputPane, manager.Valid;
      assert stdout + [] == stdout;
      if forwardStdout {
        var ok := WriteStdout(bytes);
        if !ok {
          return Some(AttachBridge.TerminalOutputFailed);
        }
      }
      failure := TakeIn(bytes);
    }

    /** The pane's half of an output frame. */
    method TakeIn(bytes: seq<Byte>) returns (failure: Option<AttachBridge.AttachError>)
      requires Conserved()
      modifies this`replayBuffer, this`received
      modifies manager`panes, manager`events, manager`views, manager`emitted, manager`calls
      ensures Justified(failure, old(writes), old(manager.calls), false)
      ensures manager.panes.Keys == old(manager.panes).Keys
      ensures failure.None? ==> Conserved() && received == old(received) + bytes
    {
      hide Accounted, OutputPane, RawStream, manager.Valid;
      ghost var v, reply, before := manager.views[id], manager.replies(manager.calls), received;
      received := received + bytes;
      match policy {
        case FanoutToSurfaceAndStdout =>
          var ok := manager.RecordAttachOutputFrame(id, bytes);
          if !ok {
            return Some(AttachBridge.SurfaceFeedFailed);
          }
          OutputKeepsBalance(v, start, before, policy, bytes, reply);
        case StdoutOnlyThenReplay =>
          WaitingKeepsBalance(v, replayBuffer, start, before, policy, bytes);
          replayBuffer := replayBuffer + bytes;
      }
      failure := None;
    }

    method HandleOther(frame: PtyFrame)
      requires Conserved() && !frame.Output?
      modifies manager`panes, manager`events, manager`views, manager`emitted, manager`calls
      ensures Conserved() && manager.panes.Keys == old(manager.panes).Keys && id in old(manager.views)
      ensures manager.calls == old(manager.calls) + 1
      ensures frame.Exited? || !old(manager.views)[id].state.Live() ==> !manager.views[id].state.Live()
    {
      hide Accounted, Balanced, AfterFrame, manager.Valid;
      ghost var v, reply := manager.views[id], manager.replies(manager.calls);
      manager.HandleAttachFrame(id, frame);
      OtherKeepsBalance(v, replayBuffer, start, received, policy, frame, reply);
    }

    /** One frame; the first exit code is kept. */
    method HandleFrame(frame: PtyFrame, forwardStdout: bool)
      returns (failure: Option<AttachBridge.AttachError>)
      requires Conserved()
      modifies this`writes, this`stdout, this`replayBuffer, this`received, this`childExitCode
      modifies manager`panes, manager`events, manager`views, manager`emitted, manager`calls
      ensures Justified(failure, old(writes), old(manager.calls), frame.Error?)
      ensures manager.panes.Keys == old(manager.panes).Keys
      ensures failure.None? ==>
        && Conserved() && received == old(received) + BytesIn(frame)
        && stdout == old(stdout) + (if forwardStdout then BytesIn(frame) else [])
        && (frame.Exited? ==> !manager.views[id].state.Live())
        && childExitCode == (if frame.Exited? && old(childExitCode).None? then frame.code else old(childExitCode))
      ensures frame.Error? ==> failure.Some?
    {
      hide Accounted, Balanced, manager.Valid;
      assert received + [] == received && stdout + [] == stdout;
      failure := None;
      match frame {
        case Output(_, bytes, _) =>
          failure := DeliverOutput(bytes, forwardStdout);
        case Exited(_, code, _) =>
          if childExitCode.None? {
            childExitCode := code;
          }
          HandleOther(frame);
        case Error(_, _, _) =>
          HandleOther(frame);
          failure := Some(AttachBridge.PtyRuntimeFailed);
        case Overflow(_, _, _, _) =>
          HandleOther(frame);
        case CursorPositionRequest(_, _) =>
      }
    }

    /** Up to `maxFrames` frames; a child that exits is noted, and the rest of its output still taken. */
    method DrainAttachOutput(maxFrames: nat, forwardStdout: bool)
      returns (failure: Option<AttachBridge.AttachError>, childExited: bool, ghost taken: seq<PtyFrame>)
      requires Conserved() && id in manager.ptys
      modifies this`writes, this`stdout, this`replayBuffer, this`received, this`childExitCode
      modifies manager`panes, manager`events, manager`views, manager`emitted, manager`calls, manager`ptys
      ensures Justified(failure, old(writes), old(manager.calls), Erring(old(manager.ptys)[id]))
      ensures manager.panes.Keys == old(manager.panes).Keys && id in manager.ptys
      ensures failure.None? ==>
        && Conserved() && received == old(received) + OutputBytes(taken)
        && stdout == old(stdout) + (if forwardStdout then OutputBytes(taken) else [])
        && old(manager.ptys)[id] == taken + manager.ptys[id]
        && (|taken| == maxFrames || manager.ptys[id] == [])
        && (childExited <==> SawExit(taken))
    {
      hide Accounted, Balanced, manager.Valid;
      failure, childExited, taken := None, false, [];
      assert received + [] == received && stdout + [] == stdout;
      for n := 0 to maxFrames
        invariant manager.panes.Keys == old(manager.panes).Keys && id in manager.ptys
        invariant failure.None? && Conserved() && |taken| == n && received == old(received) + OutputBytes(taken)
        invariant stdout == old(stdout) + (if forwardStdout then OutputBytes(taken) else [])
        invariant old(manager.ptys)[id] == taken + manager.ptys[id]
        invariant childExited <==> SawExit(taken)
        invariant Justified(None, old(writes), old(manager.calls), false)
      {
        var frame := manager.NextAttachPtyFrame(id);
        if frame.None? {
          return;
        }
        failure := HandleFrame(frame.value, forwardStdout);
        if failure.Some? {
          return;
        }
        OutputBytesSnoc(taken, frame.value);
        Regroup(old(received), OutputBytes(taken), BytesIn(frame.value));
        Regroup(old(stdout), OutputBytes(taken), BytesIn(frame.value));
        Regroup(taken, [frame.value], manager.ptys[id]);
        SawExitSnoc(taken, frame.value);
        taken := taken + [frame.value];
        childExited := childExited || frame.value.Exited?;
      }
    }

    /** More output arrives and is drained. */
    method Round(arrivals: seq<PtyFrame>, forwardStdout: bool)
      returns (failure: Option<AttachBridge.AttachError>, childExited: bool, ghost taken: seq<PtyFrame>)
      requires Conserved() && id in manager.ptys
      modifies this`writes, this`stdout, this`replayBuffer, this`received, this`childExitCode
      modifies manager`panes, manager`events, manager`views, manager`emitted, manager`calls, manager`ptys
      ensures Justified(failure, old(writes), old(manager.calls), Erring(old(manager.ptys)[id]) || Erring(arrivals))
      ensures id in manager.ptys
      ensures failure.None? ==>
        && Conserved() && received == old(received) + OutputBytes(taken)
        && stdout == old(stdout) + (if forwardStdout then OutputBytes(taken) else [])
        && taken + manager.ptys[id] == old(manager.ptys)[id] + arrivals
        && (childExited <==> SawExit(taken))
    {
      hide Accounted, Balanced, manager.Valid, OutputBytes;
      manager.Arrive(id, arrivals);
      failure, childExited, taken := DrainAttachOutput(MAX_PTY_FRAMES_PER_TICK, forwardStdout);
    }

    /** The end of the attach: the last of the output, then the replay. */
    method FinishOutput(rounds: seq<seq<PtyFrame>>, forwardStdout: bool)
      returns (failure: Option<AttachBridge.AttachError>, ghost taken: seq<PtyFrame>)
      requires Conserved() && id in manager.ptys
      modifies this`writes, this`stdout, this`replayBuffer, this`received, this`childExitCode
      modifies manager`panes, manager`events, manager`views, manager`emitted, manager`calls, manager`ptys
      ensures Justified(failure, old(writes), old(manager.calls), Erring(old(manager.ptys)[id]) || SomeErring(rounds))
      ensures id in manager.ptys
      ensures failure.None? ==>
        && Conserved() && replayBuffer == [] && received == old(received) + OutputBytes(taken)
        && stdout == old(stdout) + (if forwardStdout then OutputBytes(taken) else [])
        && taken + manager.ptys[id] == old(manager.ptys)[id] + Concat(rounds)
    {
      hide Accounted, Balanced, manager.Valid;
      failure, taken := None, [];
      assert received + [] == received && stdout + [] == stdout && manager.ptys[id] + [] == manager.ptys[id];
      for n := 0 to |rounds|
        invariant id in manager.ptys && failure.None? && Conserved()
        invariant received == old(received) + OutputBytes(taken)
        invariant stdout == old(stdout) + (if forwardStdout then OutputBytes(taken) else [])
        invariant taken + manager.ptys[id] == old(manager.ptys)[id] + Concat(rounds[..n])
        invariant Justified(None, old(writes), old(manager.calls), false)
        invariant Erring(manager.ptys[id]) ==> Erring(old(manager.ptys)[id]) || SomeErring(rounds)
      {
        ghost var more, queued := [], manager.ptys[id];
        var childExited;
        assert rounds[n] in rounds;
        failure, childExited, more := Round(rounds[n], forwardStdout);
        if failure.Some? {
          return;
        }
        LeftErring(more, manager.ptys[id], queued, rounds[n]);
        TakenGrows(taken, more, queued, rounds[n], manager.ptys[id], old(manager.ptys)[id], rounds, n);
        BytesGrow(old(received), taken, more);
        BytesGrow(old(stdout), taken, more);
        taken := taken + more;
      }
      assert rounds[..|rounds|] == rounds;
      if policy.StdoutOnlyThenReplay? && replayBuffer != [] {
        failure := Replay();
      } else {
        OnlyTheBufferWaits();
      }
    }

    lemma OnlyTheBufferWaits()
      requires Conserved() && !(policy.StdoutOnlyThenReplay? && replayBuffer != [])
      ensures replayBuffer == []
    {
      hide manager.Valid, RawStream;
    }

    /** The whole buffer, as one output frame. */
    method Replay() returns (failure: Option<AttachBridge.AttachError>)
      requires Conserved()
      modifies this`replayBuffer
      modifies manager`panes, manager`events, manager`views, manager`emitted, manager`calls
      ensures Justified(failure, old(writes), old(manager.calls), false)
      ensures failure.None? ==> Conserved() && replayBuffer == []
    {
      hide Accounted, OutputPane, RawStream, manager.Valid, Balanced;
      ghost var v, reply := manager.views[id], manager.replies(manager.calls);
      var replay := replayBuffer;
      replayBuffer := [];
      var ok := manager.RecordAttachOutputFrame(id, replay);
      if !ok {
        return Some(AttachBridge.SurfaceFeedFailed);
      }
      ReplayKeepsBalance(v, replay, start, received, policy, reply);
      return None;
    }

    /** Rounds until the child exits or there are no more; `parts` has what each of them took. */
    method AttachedRounds(ticks: seq<Tick>)
      returns (
        failure: Option<AttachBridge.AttachError>, childExited: bool, ghost parts: seq<seq<PtyFrame>>)
      requires Conserved() && id in manager.ptys && received == [] && stdout == []
      modifies this`writes, this`stdout, this`replayBuffer, this`received, this`childExitCode
      modifies manager`panes, manager`events, manager`views, manager`emitted, manager`calls, manager`ptys
      ensures Justified(
        failure, old(writes), old(manager.calls), Erring(old(manager.ptys)[id]) || SomeErring(ArrivalsOf(ticks)))
      ensures id in manager.ptys
      ensures failure.None? ==>
        && Conserved() && Tally(ticks, parts, childExited, received, stdout, manager.ptys[id], old(manager.ptys)[id])
        && (!childExited ==> |parts| == |ticks|)
    {
      hide Accounted, Balanced, manager.Valid, SawExit, Tally, Erring, ArrivalsOf, OutputBytes;
      failure, childExited, parts := None, false, [];
      NothingTaken(ticks, manager.ptys[id]);
      var n := 0;
      while n < |ticks| && !childExited
        invariant 0 <= n <= |ticks| && |parts| == n && id in manager.ptys && failure.None? && Conserved()
        invariant Tally(ticks, parts, childExited, received, stdout, manager.ptys[id], old(manager.ptys)[id])
        invariant Justified(None, old(writes), old(manager.calls), false)
      {
        ghost var more, queued, got, shown := [], manager.ptys[id], received, stdout;
        StillErring(ticks, parts, childExited, got, shown, queued, old(manager.ptys)[id], n);
        failure, childExited, more := Round(ticks[n].arrivals, ticks[n].atTail);
        if failure.Some? {
          return;
        }
        TallyGrows(ticks, parts, got, shown, queued, old(manager.ptys)[id], more, manager.ptys[id]);
        parts := parts + [more];
        n := n + 1;
      }
    }

    /**
     * The output of one attach: rounds until the child exits or the user detaches, then the end. If nothing fails,
     * what was taken from the PTY is the front of what was queued and what arrived; transcript and surface have got
     * exactly that, in order, wherever the viewport was; and of the output, stdout was forwarded exactly what was
     * taken with the viewport at the tail.
     */
    method AttachedOutput(ticks: seq<Tick>, rounds: seq<seq<PtyFrame>>, endsAtTail: bool)
      returns (
        failure: Option<AttachBridge.AttachError>, childExited: bool, ghost parts: seq<seq<PtyFrame>>,
        ghost last: seq<PtyFrame>)
      requires Conserved() && id in manager.ptys && received == [] && stdout == []
      modifies this`writes, this`stdout, this`replayBuffer, this`received, this`childExitCode
      modifies manager`panes, manager`events, manager`views, manager`emitted, manager`calls, manager`ptys
      ensures Justified(
        failure, old(writes), old(manager.calls),
        Erring(old(manager.ptys)[id]) || SomeErring(ArrivalsOf(ticks)) || SomeErring(rounds))
      ensures failure.None? ==>
        && manager.Valid() && id in manager.views && id in manager.ptys && EndsWithExit(ticks, parts, childExited)
        && RawStream(manager.views[id].ops) == start.recorded + OutputBytes(Concat(parts) + last)
        && manager.views[id].surface == start.surface + OutputBytes(Concat(parts) + last)
        && stdout == ShownOf(ticks, parts) + (if endsAtTail then OutputBytes(last) else [])
        && (Concat(parts) + last) + manager.ptys[id]
           == old(manager.ptys)[id] + Concat(ArrivalsOf(ticks[..|parts|]) + rounds)
    {
      hide Accounted, Balanced, manager.Valid, OutputBytes, ArrivalsOf, RawStream, EndedByExit, ShownOf, Concat, Erring;
      last := [];
      failure, childExited, parts := AttachedRounds(ticks);
      if failure.Some? {
        return;
      }
      ghost var queued := manager.ptys[id];
      failure, last := FinishOutput(rounds, endsAtTail);
      if failure.Some? {
        return;
      }
      BalancedIsComplete(manager.views[id], start, received, policy);
      OutputBytesAppend(Concat(parts), last);
      AllBatches(
        Concat(parts), last, queued, manager.ptys[id], old(manager.ptys)[id], ArrivalsOf(ticks[..|parts|]), rounds);
    }
  }

  /** An exit is seen in the last round, and only there, if there is one; without it the rounds all took place. */
  predicate EndsWithExit(ticks: seq<Tick>, parts: seq<seq<PtyFrame>>, childExited: bool) {
    |parts| <= |ticks| && EndedByExit(parts, childExited) && (!childExited ==> |parts| == |ticks|)
  }

  /** What rounds that took `parts` have received, shown and left in the queue, which held `first` before them. */
  predicate Tally(
    ticks: seq<Tick>, parts: seq<seq<PtyFrame>>, childExited: bool, received: seq<Byte>, stdout: seq<Byte>,
    queue: seq<PtyFrame>, first: seq<PtyFrame>)
  {
    && |parts| <= |ticks| && EndedByExit(parts, childExited)
    && received == OutputBytes(Concat(parts)) && stdout == ShownOf(ticks, parts)
    && Concat(parts) + queue == first + Concat(ArrivalsOf(ticks[..|parts|]))
    && (Erring(queue) ==> Erring(first) || SomeErring(ArrivalsOf(ticks)))
  }

  lemma NothingTaken(ticks: seq<Tick>, queue: seq<PtyFrame>)
    ensures Tally(ticks, [], false, [], [], queue, queue)
  {
    assert [] + queue == queue + [];
    assert ticks[..0] == [];
  }

  lemma StillErring(
    ticks: seq<Tick>, parts: seq<seq<PtyFrame>>, childExited: bool, received: seq<Byte>, stdout: seq<Byte>,
    queue: seq<PtyFrame>, first: seq<PtyFrame>, n: nat)
    requires Tally(ticks, parts, childExited, received, stdout, queue, first) && n < |ticks|
    ensures Erring(queue) || Erring(ticks[n].arrivals) ==> Erring(first) || SomeErring(ArrivalsOf(ticks))
  {
    hide Erring, OutputBytes, EndedByExit;
    ArrivalsAreTicks(ticks, n);
    assert ticks[n].arrivals in ArrivalsOf(ticks);
  }

  lemma TallyGrows(
    ticks: seq<Tick>, parts: seq<seq<PtyFrame>>, received: seq<Byte>, stdout: seq<Byte>, queue: seq<PtyFrame>,
    first: seq<PtyFrame>, more: seq<PtyFrame>, left: seq<PtyFrame>)
    requires Tally(ticks, parts, false, received, stdout, queue, first) && |parts| < |ticks|
    requires more + left == queue + ticks[|parts|].arrivals
    ensures
      var tick := ticks[|parts|];
      Tally(
        ticks, parts + [more], SawExit(more), received + OutputBytes(more),
        stdout + (if tick.atTail then OutputBytes(more) else []), left, first)
  {
    hide Erring, OutputBytes, SawExit;
    var n, grown := |parts|, parts + [more];
    assert grown[..n] == parts && grown[n] == more;
    assert ticks[..n + 1][..n] == ticks[..n];
    StillErring(ticks, parts, false, received, stdout, queue, first, n);
    LeftErring(more, left, queue, ticks[n].arrivals);
    BatchGrows(Concat(parts), more, queue, ticks[n].arrivals, left, first, ArrivalsOf(ticks[..n]));
    OutputBytesAppend(Concat(parts), more);
    ConcatSnoc(parts, more);
  }

  predicate EndedByExit(parts: seq<seq<PtyFrame>>, childExited: bool) {
    && (forall k :: 0 <= k < |parts| - 1 ==> !SawExit(parts[k]))
    && (childExited <==> parts != [] && SawExit(parts[|parts| - 1]))
  }

  lemma BytesGrow(before: seq<Byte>, taken: seq<PtyFrame>, more: seq<PtyFrame>)
    ensures (before + OutputBytes(taken)) + OutputBytes(more) == before + OutputBytes(taken + more)
  {
    OutputBytesAppend(taken, more);
    Regroup(before, OutputBytes(taken), OutputBytes(more));
  }

  /** What was taken and what is still queued is what was queued and what arrived. */
  lemma BatchGrows<T>(
    taken: seq<T>, more: seq<T>, queued: seq<T>, arrivals: seq<T>, left: seq<T>, first: seq<T>, batches: seq<seq<T>>)
    requires taken + queued == first + Concat(batches) && more + left == queued + arrivals
    ensures (taken + more) + left == first + Concat(batches + [arrivals])
  {
    ConcatSnoc(batches, arrivals);
    Regroup(taken, more, left);
    Regroup(taken, queued, arrivals);
    Regroup(first, Concat(batches), arrivals);
  }

  lemma TakenGrows<T>(
    taken: seq<T>, more: seq<T>, queued: seq<T>, arrivals: seq<T>, left: seq<T>, first: seq<T>,
    rounds: seq<seq<T>>, n: nat)
    requires n < |rounds| && rounds[n] == arrivals
    requires taken + queued == first + Concat(rounds[..n]) && more + left == queued + arrivals
    ensures (taken + more) + left == first + Concat(rounds[..n + 1])
  {
    BatchGrows(taken, more, queued, arrivals, left, first, rounds[..n]);
    assert rounds[..n + 1] == rounds[..n] + [arrivals];
  }

  lemma AllBatches<T>(
    taken: seq<T>, last: seq<T>, queued: seq<T>, left: seq<T>, first: seq<T>, batches: seq<seq<T>>, rounds: seq<seq<T>>)
    requires taken + queued == first + Concat(batches) && last + left == queued + Concat(rounds)
    ensures (taken + last) + left == first + Concat(batches + rounds)
  {
    ConcatAppend(batches, rounds);
    Regroup(taken, last, left);
    Regroup(taken, queued, Concat(rounds));
    Regroup(first, Concat(batches), Concat(rounds));
  }

  function BytesIn(frame: PtyFrame): seq<Byte> { if frame.Output? then frame.bytes else [] }

  predicate SawExit(taken: seq<PtyFrame>) { exists i :: 0 <= i < |taken| && taken[i].Exited? }

  lemma SawExitSnoc(taken: seq<PtyFrame>, frame: PtyFrame)
    ensures SawExit(taken + [frame]) <==> SawExit(taken) || frame.Exited?
  {
    var longer := taken + [frame];
    assert longer[|taken|] == frame && forall i :: 0 <= i < |taken| ==> longer[i] == taken[i];
  }
}
