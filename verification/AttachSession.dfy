/** The blocking attach session: whatever fails, the terminal is given back and the session ends. */
module AttachSession {
  import opened Bytes
  import opened DetachEncoding
  import opened DetachMatcher
  import opened MatcherRuns
  import opened MatcherSlices
  import opened FrameQueue
  import opened AttachBridge

  const DETACH_DRAIN_QUIET: nat := 200
  const DETACH_DRAIN_MAX_WAIT: nat := 2000
  const MAX_PTY_FRAMES_PER_TICK: nat := 32

  datatype OutputPolicy = FanoutToSurfaceAndStdout | StdoutOnlyThenReplay
  datatype ResizePolicy = KeepEmbeddedSize | UseRealTerminalSize
  datatype Options = Options(output: OutputPolicy, resize: ResizePolicy, chord: seq<Byte>, timeout: nat)

  datatype DetachReason = UserChord | ErrorReason

  datatype EventKind =
    | AttachStarted(terminalSize: Size, embeddedSize: Size)
    | AttachEnded(reason: DetachReason, restoredSize: Size)
    | Resized(size: Size)
    | InputSent(length: nat)
    | ErrorEvent(error: AttachError)

  datatype Event = Event(seqNo: nat, kind: EventKind)

  datatype AttachOutcome = AttachOutcome(
    reason: DetachReason, childExitCode: Option<int>, terminalSize: Size, restoredSize: Size,
    remainingInput: seq<Byte>)

  /** `StillAttached` is a run observed before it finished. */
  datatype RunResult = Finished(result: Result<AttachOutcome, AttachError>) | StillAttached

  datatype StdinPoll = Idle | Forwarded | Detached(remainingInput: seq<Byte>)

  // ---------------------------------------------------------------------
  // The event stream
  // ---------------------------------------------------------------------

  /** Whether an attach is open at the end of the events; `None` when starts and ends do not alternate. */
  function Open(events: seq<Event>): Option<bool> {
    if events == [] then Some(false)
    else
      var before, kind := Open(events[..|events| - 1]), events[|events| - 1].kind;
      if before.None? then None
      else if kind.AttachStarted? then (if before.value then None else Some(true))
      else if kind.AttachEnded? then (if before.value then Some(false) else None)
      else before
  }

  predicate Consecutive(events: seq<Event>, first: nat) {
    forall i :: 0 <= i < |events| ==> events[i].seqNo == first + i + 1
  }

  /** No attach starts or ends from there on. */
  predicate Quiet(events: seq<Event>, from: nat) {
    forall i :: from <= i < |events| ==> !events[i].kind.AttachStarted? && !events[i].kind.AttachEnded?
  }

  lemma OpenSnoc(events: seq<Event>, e: Event)
    ensures Open(events + [e]) ==
      var before := Open(events);
      if before.None? then None
      else if e.kind.AttachStarted? then (if before.value then None else Some(true))
      else if e.kind.AttachEnded? then (if before.value then Some(false) else None)
      else before
  {
    assert (events + [e])[..|events|] == events;
  }

  /** What the attached loop carries from tick to tick, with the host's logs as they were when it began. */
  class AttachLoopState {
    var detachReason: Option<DetachReason>
    var restoredEmbeddedSize: bool
    var replayBuffer: seq<Byte>
    var childExitCode: Option<int>
    var terminalSize: Size
    ghost const received0: seq<Byte>
    ghost const stdout0: seq<Byte>
    ghost const surface0: seq<Byte>
    ghost const stdin0: seq<Byte>
    ghost const input0: seq<Byte>
    ghost const taken0: seq<PtyFrame>
    ghost var streamed: seq<Byte>
    ghost var typed: seq<Byte>
    ghost var sent: seq<Byte>

    constructor (terminalSize: Size, host: Host)
      ensures this.terminalSize == terminalSize && detachReason == None && !restoredEmbeddedSize
      ensures OutputConserved(host, FanoutToSurfaceAndStdout) && OutputConserved(host, StdoutOnlyThenReplay)
      ensures InputLogged(host) && typed == [] && sent == []
      ensures received0 == host.received && stdout0 == host.stdout && surface0 == host.surface
      ensures stdin0 == host.stdinRead && input0 == host.ptyInput && taken0 == host.taken
    {
      this.terminalSize := terminalSize;
      detachReason, restoredEmbeddedSize, replayBuffer, childExitCode := None, false, [], None;
      received0, stdout0, surface0 := host.received, host.stdout, host.surface;
      stdin0, input0, taken0 := host.stdinRead, host.ptyInput, host.taken;
      streamed, typed, sent := [], [], [];
    }

    /** Everything received went to stdout, and to the surface or the replay buffer, and an exit was noted. */
    ghost predicate OutputConserved(host: Host, policy: OutputPolicy)
      reads this`replayBuffer, this`streamed, this`childExitCode, host`received, host`stdout, host`surface, host`taken
    {
      && host.received == received0 + streamed
      && host.stdout == stdout0 + streamed
      && host.surface + replayBuffer == surface0 + streamed
      && (policy.FanoutToSurfaceAndStdout? ==> replayBuffer == [])
      && ExitNoted(host)
    }

    /** The exit code on record is the first that a frame taken since told. */
    ghost predicate ExitNoted(host: Host)
      reads this`childExitCode, host`taken
    {
      taken0 <= host.taken && childExitCode == FirstExitCode(host.taken[|taken0|..])
    }

    /** `typed` is what was read from stdin, `sent` what went to the PTY. */
    ghost predicate InputLogged(host: Host)
      reads this`typed, this`sent, host`stdinRead, host`ptyInput
    {
      host.stdinRead == stdin0 + typed && host.ptyInput == input0 + sent
    }
  }

  /** The first exit code told by an exit frame. */
  function FirstExitCode(frames: seq<PtyFrame>): Option<int> {
    if frames == [] then None
    else if frames[0].Exited? && frames[0].code.Some? then frames[0].code
    else FirstExitCode(frames[1..])
  }

  lemma {:induction false} FirstExitCodeSnoc(frames: seq<PtyFrame>, frame: PtyFrame)
    ensures FirstExitCode(frames + [frame])
      == if FirstExitCode(frames).None? && frame.Exited? then frame.code else FirstExitCode(frames)
    decreases |frames|
  {
    if frames == [] {
      assert [frame][1..] == [];
    } else {
      assert (frames + [frame])[1..] == frames[1..] + [frame];
      FirstExitCodeSnoc(frames[1..], frame);
    }
  }

  /** One frame more since the start. */
  lemma TakenSince(before: seq<PtyFrame>, taken: seq<PtyFrame>, frame: PtyFrame)
    requires before <= taken
    ensures before <= taken + [frame] && (taken + [frame])[|before|..] == taken[|before|..] + [frame]
  {
  }

  /** New output behind what was shown and what waits to be replayed. */
  lemma StreamGrows(surface: seq<Byte>, replay: seq<Byte>, before: seq<Byte>, streamed: seq<Byte>, bytes: seq<Byte>)
    requires surface + replay == before + streamed
    ensures surface + (replay + bytes) == before + (streamed + bytes)
    ensures replay == [] ==> (surface + bytes) + replay == before + (streamed + bytes)
  {
    assert surface + (replay + bytes) == (surface + replay) + bytes;
    assert before + (streamed + bytes) == (before + streamed) + bytes;
  }

  /**
   * What was typed up to a detach, and what of it was sent: all but the chord and what remains behind it. A chord
   * that is one Ctrl letter may have been typed in an encoding; then the last chunk read as keys is what was sent of
   * it, the chord, and what remains read as keys; what remains is the end of the chunk, and what was sent of it is free
   of the chord.
   */
  ghost predicate DetachedInput(chord: seq<Byte>, typed: seq<Byte>, sent: seq<Byte>, remaining: seq<Byte>) {
    if CtrlLetter(chord).None? then sent + (chord + remaining) == typed
    else exists earlier, chunk, forward ::
      && typed == earlier + chunk && sent == earlier + forward && EndsWith(chunk, remaining)
      && chord[0] !in forward
      && Normalize(chunk, chord) == forward + (chord + Normalize(remaining, chord))
  }

  /** Feeding a slice moves bytes from what is fed and held to what is sent and held. */
  lemma FeedAccounts(m: Matcher, bytes: seq<Byte>, at: nat, sent: seq<Byte>, typed: seq<Byte>)
    requires m.Valid() && m.Before(at) && sent + m.held == typed
    ensures
      var (m', r) := FedBytes(m, bytes, at);
      && (!r.detached ==> (sent + r.forward) + m'.held == typed + bytes)
      && (r.detached ==> DetachedInput(m.chord, typed + bytes, sent + r.forward, r.remaining))
  {
    hide FedBytes, CtrlLetter, Normalize;
    var (m', r) := FedBytes(m, bytes, at);
    ManyConserves(m, bytes, at);
    assert [] + typed == typed && [] + (typed + bytes) == typed + bytes;
    if !r.detached {
      Carry(sent, r.forward, m'.held, [], m.held, typed, bytes);
    } else if CtrlLetter(m.chord).None? {
      Carry(sent, r.forward, m.chord + r.remaining, [], m.held, typed, bytes);
    } else {
      EncodedChordAgrees(m, bytes, at);
      RemainingIsTheEnd(m, bytes, at);
      LetterHoldsNothing(m);
      assert sent + [] == sent;
    }
  }

  // ---------------------------------------------------------------------
  // The session
  // ---------------------------------------------------------------------

  class BlockingAttachSession {
    const options: Options
    const embeddedSize: Size
    const pollInterval: nat
    const initialEventSeq: nat
    const bridge: AttachBridge
    var nextEventSeq: nat
    var events: seq<Event>
    /** Every event ever emitted, drained or not. */
    ghost var history: seq<Event>
    /** Whether the last attach started has not ended yet. */
    ghost var open: bool
    /** The events up to and including the start of the last attach. */
    ghost var lastStart: seq<Event>

    constructor (options: Options, embeddedSize: Size, initialEventSeq: nat, pollInterval: nat)
      ensures this.options == options && this.embeddedSize == embeddedSize
      ensures fresh(bridge) && Resting()
    {
      this.options, this.embeddedSize, this.initialEventSeq := options, embeddedSize, initialEventSeq;
      this.pollInterval := Max(pollInterval, 1);
      nextEventSeq, events, history, open, lastStart := initialEventSeq, [], [], false, [];
      bridge := new AttachBridge();
    }

    /** Sequence numbers run on without a gap, starts and ends alternate, and an open attach is the last started. */
    ghost predicate Numbered()
      reads this`nextEventSeq, this`history, this`open, this`lastStart
    {
      && nextEventSeq == initialEventSeq + |history| && Consecutive(history, initialEventSeq)
      && Open(history) == Some(open) && lastStart <= history && (open ==> Quiet(history, |lastStart|))
    }

    /** The attach last started ended with the last event, and not before. */
    ghost predicate Ended(reason: DetachReason)
      reads this`history, this`lastStart
    {
      && lastStart < history && history[|history| - 1].kind == AttachEnded(reason, embeddedSize)
      && Quiet(history[..|history| - 1], |lastStart|)
    }

    /** Between runs. */
    ghost predicate Resting()
      reads this`nextEventSeq, this`history, this`open, this`lastStart, bridge
    {
      Numbered() && !open && bridge.state == Embedded
    }

    method DrainEvents() returns (out: seq<Event>)
      modifies this`events
      ensures out == old(events) && events == []
    {
      out := events;
      events := [];
    }

    method PushEvent(kind: EventKind)
      requires Numbered() && !kind.AttachStarted?
      requires kind.AttachEnded? ==> open && kind.restoredSize == embeddedSize
      modifies this`nextEventSeq, this`events, this`history, this`open
      ensures Numbered() && open == (old(open) && !kind.AttachEnded?)
      ensures events == old(events) + [Event(nextEventSeq, kind)]
      ensures history == old(history) + [Event(nextEventSeq, kind)]
      ensures kind.AttachEnded? ==> Ended(kind.reason)
    {
      nextEventSeq := nextEventSeq + 1;
      OpenSnoc(history, Event(nextEventSeq, kind));
      events := events + [Event(nextEventSeq, kind)];
      history := history + [Event(nextEventSeq, kind)];
      assert history[..|history| - 1] == old(history);
      open := open && !kind.AttachEnded?;
    }

    method PushStarted(terminalSize: Size)
      requires Numbered() && !open
      modifies this`nextEventSeq, this`events, this`history, this`open, this`lastStart
      ensures Numbered() && open && lastStart == history
      ensures events == old(events) + [Event(nextEventSeq, AttachStarted(terminalSize, embeddedSize))]
      ensures history == old(history) + [Event(nextEventSeq, AttachStarted(terminalSize, embeddedSize))]
    {
      nextEventSeq := nextEventSeq + 1;
      var event := Event(nextEventSeq, AttachStarted(terminalSize, embeddedSize));
      OpenSnoc(history, event);
      events, history := events + [event], history + [event];
      open, lastStart := true, history;
    }

    method PushError(error: AttachError)
      requires Numbered()
      modifies this`nextEventSeq, this`events, this`history, this`open
      ensures Numbered() && open == old(open)
      ensures history == old(history) + [Event(nextEventSeq, ErrorEvent(error))]
    {
      PushEvent(ErrorEvent(error));
    }

    method ResizeAttachedTarget(host: Host, size: Size) returns (failure: Option<AttachError>)
      requires Numbered() && open
      modifies this`nextEventSeq, this`events, this`history, this`open
      modifies host`calls, host`faults, host`ptySize, host`surfaceSize
      ensures host.faults == Noted(old(host.faults), failure)
      ensures Numbered() && open
      ensures failure.None? ==> host.ptySize == size && host.surfaceSize == size
      ensures failure.Some? ==> history == old(history) && failure.value in {PtyResizeFailed, SurfaceResizeFailed}
      ensures failure.None? ==> history == old(history) + [Event(nextEventSeq, Resized(size))]
    {
      var ok := host.ResizePty(size);
      if !ok {
        return Some(PtyResizeFailed);
      }
      ok := host.ResizeSurface(size);
      if !ok {
        return Some(SurfaceResizeFailed);
      }
      PushEvent(Resized(size));
      return None;
    }

    /** Forwards bytes the matcher let go, if there are any. */
    method ForwardInput(host: Host, state: AttachLoopState, bytes: seq<Byte>) returns (failure: Option<AttachError>)
      requires Numbered() && open && host.ptyInput == state.input0 + state.sent
      modifies this`nextEventSeq, this`events, this`history, this`open
      modifies host`calls, host`faults, host`ptyInput, state`sent
      ensures host.faults == Noted(old(host.faults), failure)
      ensures Numbered() && open
      ensures failure.None? ==> state.sent == old(state.sent) + bytes && host.ptyInput == state.input0 + state.sent
      ensures failure.None? && bytes != [] ==> history == old(history) + [Event(nextEventSeq, InputSent(|bytes|))]
      ensures failure.Some? || bytes == [] ==> history == old(history)
    {
      if bytes == [] {
        assert state.sent + bytes == state.sent;
        return None;
      }
      var ok := host.WriteInput(bytes);
      if !ok {
        return Some(PtyWriteFailed);
      }
      state.sent := state.sent + bytes;
      PushEvent(InputSent(|bytes|));
      return None;
    }

    /** A chunk of stdin: what the matcher lets go is sent, and a detach ends the poll. */
    method HandleChunk(host: Host, state: AttachLoopState, matcher: DetachMatcher, bytes: seq<Byte>, at: nat)
      returns (failure: Option<AttachError>, poll: StdinPoll)
      requires Numbered() && open && host.stdinRead == state.stdin0 + state.typed + bytes
      requires host.ptyInput == state.input0 + state.sent
      requires matcher.View().Valid() && matcher.View().Before(at) && matcher.chord == options.chord
      requires state.sent + matcher.held == state.typed
      modifies this`nextEventSeq, this`events, this`history, this`open
      modifies host`calls, host`faults, host`ptyInput, state`typed, state`sent, matcher
      ensures host.faults == Noted(old(host.faults), failure)
      ensures Numbered() && open
      ensures failure.None? ==> state.InputLogged(host) && matcher.View().Valid() && matcher.View().Before(at)
      ensures failure.None? && !poll.Detached? ==> state.sent + matcher.held == state.typed
      ensures failure.None? && poll.Detached? ==>
        DetachedInput(options.chord, state.typed, state.sent, poll.remainingInput)
    {
      hide FedBytes, DetachedInput;
      FeedAccounts(matcher.View(), bytes, at, state.sent, state.typed);
      var result := matcher.FeedBytes(bytes, at);
      state.typed := state.typed + bytes;
      failure := ForwardInput(host, state, result.forward);
      poll := if result.detached then Detached(result.remaining) else Forwarded;
    }

    method PollStdin(host: Host, state: AttachLoopState, matcher: DetachMatcher)
      returns (failure: Option<AttachError>, poll: StdinPoll)
      requires Numbered() && open && state.InputLogged(host)
      requires Listening(host, state, matcher)
      modifies this`nextEventSeq, this`events, this`history, this`open
      modifies host`calls, host`faults, host`now, host`lastAt, host`stdinRead, host`ptyInput
      modifies state`typed, state`sent, matcher
      ensures host.faults == Noted(old(host.faults), failure)
      ensures Numbered() && open
      ensures failure.None? ==> state.InputLogged(host)
      ensures failure.None? && !poll.Detached? ==> Listening(host, state, matcher)
      ensures failure.None? && poll.Detached? ==>
        DetachedInput(options.chord, state.typed, state.sent, poll.remainingInput)
    {
      var ok, chunk := host.ReadStdin();
      if !ok {
        return Some(TerminalInputFailed), Idle;
      }
      if chunk.Some? {
        failure, poll := HandleChunk(host, state, matcher, chunk.value.bytes, chunk.value.at);
        return;
      }
      var now := host.Clock();
      ghost var held := matcher.held;
      var released := matcher.CheckTimeout(now);
      if released != [] {
        assert matcher.held == [] && released == held;
        failure := ForwardInput(host, state, released);
        assert state.sent + [] == state.sent;
        return failure, Forwarded;
      }
      assert matcher.held == held;
      return None, Idle;
    }

    method DrainOutput(host: Host, state: AttachLoopState, maxFrames: nat)
      returns (failure: Option<AttachError>, sawOutput: bool)
      requires state.OutputConserved(host, options.output)
      modifies host`calls, host`faults, host`received, host`stdout, host`surface, host`taken, host`takenAt, host`dry
      modifies state`replayBuffer, state`childExitCode, state`streamed
      ensures host.faults == Noted(old(host.faults), failure)
      ensures failure.None? ==> state.OutputConserved(host, options.output)
      ensures old(host.taken) <= host.taken && host.takenAt == if sawOutput then host.now else old(host.takenAt)
      ensures sawOutput <==> host.taken != old(host.taken)
      ensures failure.None? ==> |host.taken| == |old(host.taken)| + maxFrames || host.dry
    {
      sawOutput := false;
      for n := 0 to maxFrames
        invariant state.OutputConserved(host, options.output) && host.faults == old(host.faults)
        invariant old(host.taken) <= host.taken && |host.taken| == |old(host.taken)| + n && (sawOutput <==> n > 0)
        invariant host.takenAt == if sawOutput then host.now else old(host.takenAt)
      {
        ghost var taken := host.taken;
        var ok, frame := host.TryRecv();
        if !ok {
          return Some(PtyReadFailed), sawOutput;
        }
        if frame.None? {
          assert host.received + [] == host.received && taken + [] == taken;
          return None, sawOutput;
        }
        sawOutput := true;
        TakenSince(state.taken0, taken, frame.value);
        FirstExitCodeSnoc(taken[|state.taken0|..], frame.value);
        match frame.value {
          case Output(_, bytes, _) =>
            failure := DeliverOutput(host, state, bytes);
            if failure.Some? {
              return failure, sawOutput;
            }
          case Exited(_, code, _) =>
            if state.childExitCode.None? {
              state.childExitCode := code;
            }
          case Error(_, _, _) =>
            return Some(PtyRuntimeFailed), sawOutput;
          case Overflow(_, _, _, _) =>
          case CursorPositionRequest(_, _) =>
        }
      }
      return None, sawOutput;
    }

    /** One output frame, already received. */
    method DeliverOutput(host: Host, state: AttachLoopState, bytes: seq<Byte>) returns (failure: Option<AttachError>)
      requires host.received == state.received0 + state.streamed + bytes
      requires host.stdout == state.stdout0 + state.streamed
      requires host.surface + state.replayBuffer == state.surface0 + state.streamed
      requires options.output.FanoutToSurfaceAndStdout? ==> state.replayBuffer == []
      requires state.ExitNoted(host)
      modifies host`calls, host`faults, host`stdout, host`surface, state`replayBuffer, state`streamed
      ensures host.faults == Noted(old(host.faults), failure)
      ensures failure.None? ==> state.OutputConserved(host, options.output)
    {
      var ok := host.WriteStdout(bytes);
      if !ok {
        return Some(TerminalOutputFailed);
      }
      match options.output {
        case FanoutToSurfaceAndStdout =>
          ok := host.FeedSurface(bytes);
          if !ok {
            return Some(SurfaceFeedFailed);
          }
        case StdoutOnlyThenReplay =>
          state.replayBuffer := state.replayBuffer + bytes;
      }
      StreamGrows(old(host.surface), old(state.replayBuffer), state.surface0, state.streamed, bytes);
      assert host.stdout == state.stdout0 + (state.streamed + bytes);
      state.streamed := state.streamed + bytes;
      return None;
    }

    /** Keeps draining until the PTY has been quiet for 200 ms, or 2 s are over. */
    method DrainDetachingOutput(host: Host, state: AttachLoopState) returns (failure: Option<AttachError>)
      requires state.OutputConserved(host, options.output)
      modifies host`calls, host`faults, host`now, host`received, host`stdout, host`surface, host`taken, host`takenAt, host`dry
      modifies state`replayBuffer, state`childExitCode, state`streamed
      ensures host.faults == Noted(old(host.faults), failure)
      ensures failure.None? ==> state.OutputConserved(host, options.output)
      ensures failure.None? && host.now < old(host.now) + 2000 ==>
        && host.now >= old(host.now) + 200
        && (host.taken != old(host.taken) ==> host.now >= host.takenAt + 200)
    {
      var started := host.Clock();
      var lastActivity := started;
      while true
        invariant state.OutputConserved(host, options.output)
        invariant old(host.now) <= started <= lastActivity <= host.now && host.faults == old(host.faults)
        invariant old(host.taken) <= host.taken
        invariant host.taken != old(host.taken) ==> host.takenAt <= lastActivity
        decreases DETACH_DRAIN_MAX_WAIT - (host.now - started)
      {
        var sawOutput;
        failure, sawOutput := DrainOutput(host, state, MAX_PTY_FRAMES_PER_TICK);
        if failure.Some? {
          return;
        }
        if sawOutput {
          lastActivity := host.Clock();
        }
        var now := host.Clock();
        if now - lastActivity >= DETACH_DRAIN_QUIET || now - started >= DETACH_DRAIN_MAX_WAIT {
          return None;
        }
        host.Sleep(Max(pollInterval, 1));
      }
    }

    method ReplayBuffered(host: Host, state: AttachLoopState) returns (failure: Option<AttachError>)
      requires state.OutputConserved(host, options.output)
      modifies host`calls, host`faults, host`surface, state`replayBuffer
      ensures host.faults == Noted(old(host.faults), failure)
      ensures failure.None? ==> state.OutputConserved(host, options.output) && state.replayBuffer == []
    {
      if options.output.StdoutOnlyThenReplay? && state.replayBuffer != [] {
        var ok := host.FeedSurface(state.replayBuffer);
        if !ok {
          return Some(SurfaceFeedFailed);
        }
        state.replayBuffer := [];
        assert host.surface + [] == host.surface;
      }
      return None;
    }

    method RestoreSize(host: Host, state: AttachLoopState) returns (failure: Option<AttachError>)
      requires Numbered() && open
      modifies this`nextEventSeq, this`events, this`history, this`open
      modifies host`calls, host`faults, host`ptySize, host`surfaceSize
      modifies state`restoredEmbeddedSize
      ensures host.faults == Noted(old(host.faults), failure)
      ensures Numbered() && open
      ensures failure.None? && options.resize.UseRealTerminalSize? ==> host.ptySize == embeddedSize == host.surfaceSize
      ensures options.resize.KeepEmbeddedSize? ==>
        host.ptySize == old(host.ptySize) && host.surfaceSize == old(host.surfaceSize)
    {
      hide Numbered;
      if options.resize.UseRealTerminalSize? {
        failure := ResizeAttachedTarget(host, embeddedSize);
        if failure.Some? {
          return;
        }
        state.restoredEmbeddedSize := true;
      }
      return None;
    }

    /** The last of the output, the replay and the old size. */
    method WindUp(host: Host, state: AttachLoopState) returns (failure: Option<AttachError>)
      requires Numbered() && open && state.OutputConserved(host, options.output)
      modifies this`nextEventSeq, this`events, this`history, this`open
      modifies host`calls, host`faults, host`now, host`received, host`stdout, host`surface, host`taken, host`takenAt
      modifies host`dry, host`ptySize, host`surfaceSize
      modifies state`replayBuffer, state`childExitCode, state`streamed, state`restoredEmbeddedSize
      ensures host.faults == Noted(old(host.faults), failure)
      ensures Numbered() && open
      ensures failure.None? ==>
        && state.OutputConserved(host, options.output) && state.replayBuffer == []
        && (options.resize.UseRealTerminalSize? ==> host.ptySize == embeddedSize == host.surfaceSize)
      ensures options.resize.KeepEmbeddedSize? ==>
        host.ptySize == old(host.ptySize) && host.surfaceSize == old(host.surfaceSize)
    {
      hide Numbered, state.OutputConserved;
      failure := DrainDetachingOutput(host, state);
      if failure.Some? {
        return;
      }
      failure := ReplayBuffered(host, state);
      if failure.Some? {
        return;
      }
      failure := RestoreSize(host, state);
    }

    method FinishDetach(
      host: Host, guard: AttachGuard, state: AttachLoopState, reason: DetachReason, remaining: seq<Byte>)
      returns (failure: Option<AttachError>, outcome: Option<AttachOutcome>)
      requires Numbered() && open && bridge.state == Attached && guard.host == host && guard.token.Some?
      requires state.OutputConserved(host, options.output)
      modifies this`nextEventSeq, this`events, this`history, this`open, bridge, guard
      modifies host`calls, host`faults, host`now, host`received, host`stdout, host`surface, host`taken, host`takenAt
      modifies host`dry, host`ptySize, host`surfaceSize, host`restoreAttempts, host`restores
      modifies state`replayBuffer, state`childExitCode, state`streamed, state`restoredEmbeddedSize
      ensures host.faults == Noted(old(host.faults), failure)
      ensures failure.Some? <==> outcome.None?
      ensures failure.Some? ==>
        && Numbered() && open && bridge.state == Detaching && guard.token.Some?
        && old(host.restoreAttempts) <= host.restoreAttempts <= old(host.restoreAttempts) + 1
        && host.restores == old(host.restores)
      ensures failure.None? ==>
        && Resting() && Ended(reason) && guard.token.None?
        && host.restoreAttempts == old(host.restoreAttempts) + 1 && host.restores == old(host.restores) + 1
        && state.OutputConserved(host, options.output) && state.replayBuffer == []
        && (options.resize.UseRealTerminalSize? ==> host.ptySize == embeddedSize == host.surfaceSize)
        && outcome.value == AttachOutcome(reason, state.childExitCode, state.terminalSize, embeddedSize, remaining)
      ensures options.resize.KeepEmbeddedSize? ==>
        host.ptySize == old(host.ptySize) && host.surfaceSize == old(host.surfaceSize)
    {
      hide Numbered, Ended, state.OutputConserved;
      outcome := None;
      bridge.BeginDetach();
      failure := WindUp(host, state);
      if failure.Some? {
        return;
      }
      var ok := guard.Detach();
      if !ok {
        return Some(RestoreFailed), None;
      }
      bridge.ConfirmDetached();
      PushEvent(AttachEnded(reason, embeddedSize));
      return None, Some(AttachOutcome(reason, state.childExitCode, state.terminalSize, embeddedSize, remaining));
    }

    ghost predicate LastRead(size: Size, host: Host)
      reads host`sizesRead
    {
      host.sizesRead != [] && size == host.sizesRead[|host.sizesRead| - 1]
    }

    /** PTY and surface have the real terminal's size, if that was asked for. */
    ghost predicate FollowsTerminal(host: Host, state: AttachLoopState)
      reads host`ptySize, host`surfaceSize, state`terminalSize
    {
      options.resize.UseRealTerminalSize? ==> host.ptySize == state.terminalSize == host.surfaceSize
    }

    /** A resize that failed is among the events. */
    ghost predicate ResizeFailureReported()
      reads this`history
    {
      exists event :: event in history && event.kind in {ErrorEvent(PtyResizeFailed), ErrorEvent(SurfaceResizeFailed)}
    }

    /** The matcher is ready for what is read next, and holds all that was typed and not sent. */
    ghost predicate Listening(host: Host, state: AttachLoopState, matcher: DetachMatcher)
      reads matcher, state`typed, state`sent, host`lastAt
    {
      && matcher.View().Valid() && matcher.View().Before(host.lastAt) && matcher.chord == options.chord
      && state.sent + matcher.held == state.typed
    }

    /** The chord is the reason on record exactly from the detach on. */
    ghost predicate DetachNoted(state: AttachLoopState)
      reads bridge, state`detachReason
    {
      state.detachReason == if bridge.state == Detaching then Some(UserChord) else None
    }

    /** What every tick keeps. */
    ghost predicate InLoop(host: Host, guard: AttachGuard, state: AttachLoopState, matcher: DetachMatcher)
      reads this`nextEventSeq, this`history, this`open, this`lastStart, bridge, guard, state, matcher
      reads host`received, host`stdout, host`surface, host`taken, host`stdinRead, host`ptyInput, host`lastAt
      reads host`ptySize, host`surfaceSize
    {
      && Numbered() && open && bridge.state == Attached && guard.host == host && guard.token.Some?
      && state.OutputConserved(host, options.output) && state.InputLogged(host)
      && Listening(host, state, matcher) && FollowsTerminal(host, state) && state.detachReason.None?
    }

    /** Takes the real terminal's size if asked to, and confirms the attach. */
    method ConfirmAttached(host: Host, state: AttachLoopState) returns (failure: Option<AttachError>)
      requires Numbered() && open && bridge.state == Attaching
      modifies this`nextEventSeq, this`events, this`history, this`open, bridge
      modifies host`calls, host`faults, host`sizesRead, host`ptySize, host`surfaceSize
      ensures host.faults == Noted(old(host.faults), failure)
      ensures Numbered() && open && (bridge.state == Attaching || bridge.state == Attached)
      ensures failure.None? ==> bridge.state == Attached
      ensures options.resize.KeepEmbeddedSize? ==>
        host.ptySize == old(host.ptySize) && host.surfaceSize == old(host.surfaceSize)
      ensures failure.None? ==> FollowsTerminal(host, state)
    {
      hide Numbered;
      if options.resize.UseRealTerminalSize? {
        failure := ResizeAttachedTarget(host, state.terminalSize);
        if failure.Some? {
          return;
        }
      }
      bridge.ConfirmAttached();
      var size := host.TerminalSize();
      failure := if size.None? then Some(TerminalSizeFailed) else None;
    }

    /** What an attached phase that detached leaves behind: everything given back, and the outcome. */
    ghost predicate DetachedWith(outcome: AttachOutcome, host: Host, guard: AttachGuard, state: AttachLoopState)
      reads this`nextEventSeq, this`history, this`open, this`lastStart, bridge, guard, state, host
    {
      && Resting() && Ended(UserChord) && guard.token.None?
      && state.OutputConserved(host, options.output) && state.replayBuffer == [] && state.InputLogged(host)
      && DetachedInput(options.chord, state.typed, state.sent, outcome.remainingInput)
      && (options.resize.UseRealTerminalSize? ==> host.ptySize == embeddedSize == host.surfaceSize)
      && outcome.reason == UserChord && outcome.restoredSize == embeddedSize
      && outcome.childExitCode == state.childExitCode && LastRead(outcome.terminalSize, host)
    }

    /** The result of the attached phase: an outcome, a failure, or neither yet. */
    method RunAttached(host: Host, guard: AttachGuard, state: AttachLoopState, ticks: nat)
      returns (failure: Option<AttachError>, outcome: Option<AttachOutcome>)
      requires Numbered() && open && bridge.state == Attaching && guard.host == host && guard.token.Some?
      requires state.OutputConserved(host, options.output) && state.InputLogged(host)
      requires state.sent == [] && state.typed == []
      requires state.detachReason.None?
      modifies this`nextEventSeq, this`events, this`history, this`open, bridge, guard, host, state
      ensures failure.Some? ==> DetachNoted(state)
      ensures host.faults == Noted(old(host.faults), failure)
      ensures failure.None? || outcome.None?
      ensures failure.Some? ==>
        && Numbered() && open && bridge.state != Embedded && guard.token.Some?
        && old(host.restoreAttempts) <= host.restoreAttempts <= old(host.restoreAttempts) + 1
        && host.restores == old(host.restores)
      ensures outcome.Some? ==>
        && DetachedWith(outcome.value, host, guard, state)
        && host.restoreAttempts == old(host.restoreAttempts) + 1 && host.restores == old(host.restores) + 1
      ensures failure.None? && outcome.None? ==>
        && Numbered() && open && bridge.state == Attached && guard.token.Some?
        && host.restoreAttempts == old(host.restoreAttempts) && host.restores == old(host.restores)
      ensures options.resize.KeepEmbeddedSize? ==>
        host.ptySize == old(host.ptySize) && host.surfaceSize == old(host.surfaceSize)
    {
      hide Numbered, FollowsTerminal, DetachedWith;
      var matcher := new DetachMatcher(options.chord, options.timeout);
      failure := ConfirmAttached(host, state);
      if failure.Some? {
        return failure, None;
      }
      assert state.sent + matcher.held == state.typed;
      failure, outcome := AttachedLoop(host, guard, state, matcher, ticks);
    }

    /** Round after round, until the chord, a failure, or the last round observed. */
    method AttachedLoop(host: Host, guard: AttachGuard, state: AttachLoopState, matcher: DetachMatcher, ticks: nat)
      returns (failure: Option<AttachError>, outcome: Option<AttachOutcome>)
      requires InLoop(host, guard, state, matcher)
      modifies this`nextEventSeq, this`events, this`history, this`open, bridge, guard, host, state, matcher
      ensures failure.Some? ==> DetachNoted(state)
      ensures host.faults == Noted(old(host.faults), failure)
      ensures failure.None? || outcome.None?
      ensures failure.Some? ==>
        && Numbered() && open && bridge.state != Embedded && guard.token.Some?
        && old(host.restoreAttempts) <= host.restoreAttempts <= old(host.restoreAttempts) + 1
        && host.restores == old(host.restores)
      ensures outcome.Some? ==>
        && DetachedWith(outcome.value, host, guard, state)
        && host.restoreAttempts == old(host.restoreAttempts) + 1 && host.restores == old(host.restores) + 1
      ensures failure.None? && outcome.None? ==>
        && Numbered() && open && bridge.state == Attached && guard.token.Some?
        && host.restoreAttempts == old(host.restoreAttempts) && host.restores == old(host.restores)
      ensures options.resize.KeepEmbeddedSize? ==>
        host.ptySize == old(host.ptySize) && host.surfaceSize == old(host.surfaceSize)
    {
      hide InLoop, Numbered, DetachedInput, DetachedWith, LastRead, state.OutputConserved, state.InputLogged;
      outcome := None;
      for _ := 0 to ticks
        invariant InLoop(host, guard, state, matcher) && host.faults == old(host.faults)
        invariant host.restoreAttempts == old(host.restoreAttempts) && host.restores == old(host.restores)
        invariant options.resize.KeepEmbeddedSize? ==>
          host.ptySize == old(host.ptySize) && host.surfaceSize == old(host.surfaceSize)
      {
        StandsAttached(host, guard, state, matcher);
        var poll;
        failure, poll := Tick(host, guard, state, matcher);
        if failure.Some? {
          return;
        }
        if poll.Detached? {
          failure, outcome := Conclude(host, guard, state, poll.remainingInput);
          return;
        }
      }
      failure := None;
      StandsAttached(host, guard, state, matcher);
    }

    lemma StandsAttached(host: Host, guard: AttachGuard, state: AttachLoopState, matcher: DetachMatcher)
      requires InLoop(host, guard, state, matcher)
      ensures Numbered() && open && bridge.state == Attached && guard.host == host && guard.token.Some?
      ensures state.detachReason.None?
    {
    }

    /** The detach after the chord. */
    method Conclude(host: Host, guard: AttachGuard, state: AttachLoopState, remaining: seq<Byte>)
      returns (failure: Option<AttachError>, outcome: Option<AttachOutcome>)
      requires Numbered() && open && bridge.state == Attached && guard.host == host && guard.token.Some?
      requires state.OutputConserved(host, options.output) && state.InputLogged(host)
      requires DetachedInput(options.chord, state.typed, state.sent, remaining) && LastRead(state.terminalSize, host)
      requires state.detachReason == Some(UserChord)
      modifies this`nextEventSeq, this`events, this`history, this`open, bridge, guard, host, state
      ensures failure.Some? ==> DetachNoted(state)
      ensures host.faults == Noted(old(host.faults), failure)
      ensures failure.Some? <==> outcome.None?
      ensures failure.Some? ==>
        && Numbered() && open && bridge.state != Embedded && guard.token.Some?
        && old(host.restoreAttempts) <= host.restoreAttempts <= old(host.restoreAttempts) + 1
        && host.restores == old(host.restores)
      ensures outcome.Some? ==>
        && DetachedWith(outcome.value, host, guard, state)
        && host.restoreAttempts == old(host.restoreAttempts) + 1 && host.restores == old(host.restores) + 1
      ensures options.resize.KeepEmbeddedSize? ==>
        host.ptySize == old(host.ptySize) && host.surfaceSize == old(host.surfaceSize)
    {
      hide Numbered, Ended, DetachedInput, state.OutputConserved;
      failure, outcome := FinishDetach(host, guard, state, UserChord, remaining);
    }

    /** One round of the attached loop, up to a detach. */
    method Tick(host: Host, guard: AttachGuard, state: AttachLoopState, matcher: DetachMatcher)
      returns (failure: Option<AttachError>, poll: StdinPoll)
      requires InLoop(host, guard, state, matcher)
      modifies this`nextEventSeq, this`events, this`history, this`open, matcher
      modifies host`calls, host`faults, host`sizesRead, host`now, host`lastAt, host`stdinRead, host`ptyInput
      modifies host`ptySize, host`surfaceSize
      modifies host`received, host`stdout, host`surface, host`taken, host`takenAt, host`dry
      modifies state`detachReason, state`replayBuffer, state`childExitCode, state`terminalSize, state`streamed
      modifies state`typed, state`sent
      ensures state.detachReason == if failure.None? && poll.Detached? then Some(UserChord) else old(state.detachReason)
      ensures host.faults == Noted(old(host.faults), failure)
      ensures Numbered() && open
      ensures failure.None? && !poll.Detached? ==> InLoop(host, guard, state, matcher)
      ensures failure.None? && poll.Detached? ==>
        && state.OutputConserved(host, options.output) && state.InputLogged(host)
        && DetachedInput(options.chord, state.typed, state.sent, poll.remainingInput)
      ensures options.resize.KeepEmbeddedSize? ==>
        host.ptySize == old(host.ptySize) && host.surfaceSize == old(host.surfaceSize)
      ensures failure.None? ==> LastRead(state.terminalSize, host)
    {
      hide Numbered, FollowsTerminal, Listening, LastRead, DetachedInput, state.OutputConserved, state.InputLogged;
      poll := Idle;
      var madeProgress;
      failure, madeProgress := FollowTerminalSize(host, state);
      if failure.Some? {
        return;
      }
      failure, poll := PollStdin(host, state, matcher);
      if failure.Some? {
        return;
      }
      if poll.Detached? {
        state.detachReason := Some(UserChord);
        return;
      }
      failure := DrainTick(host, state, madeProgress || poll.Forwarded?);
    }

    /** The output half of a round, and the pause when nothing happened. */
    method DrainTick(host: Host, state: AttachLoopState, madeProgress: bool) returns (failure: Option<AttachError>)
      requires state.OutputConserved(host, options.output)
      modifies host`calls, host`faults, host`now, host`received, host`stdout, host`surface
      modifies host`taken, host`takenAt, host`dry
      modifies state`replayBuffer, state`childExitCode, state`streamed
      ensures host.faults == Noted(old(host.faults), failure)
      ensures failure.None? ==> state.OutputConserved(host, options.output)
    {
      hide state.OutputConserved;
      var sawOutput;
      failure, sawOutput := DrainOutput(host, state, MAX_PTY_FRAMES_PER_TICK);
      if failure.None? && !madeProgress && !sawOutput {
        host.Sleep(pollInterval);
      }
    }

    /** Resizes the target when the real terminal changed its size. */
    method FollowTerminalSize(host: Host, state: AttachLoopState) returns (failure: Option<AttachError>, changed: bool)
      requires Numbered() && open
      requires FollowsTerminal(host, state)
      modifies this`nextEventSeq, this`events, this`history, this`open
      modifies host`calls, host`faults, host`sizesRead, host`ptySize, host`surfaceSize, state`terminalSize
      ensures host.faults == Noted(old(host.faults), failure)
      ensures Numbered() && open
      ensures options.resize.KeepEmbeddedSize? ==>
        host.ptySize == old(host.ptySize) && host.surfaceSize == old(host.surfaceSize)
      ensures failure.None? ==> FollowsTerminal(host, state)
      ensures failure.None? ==> (changed <==> state.terminalSize != old(state.terminalSize))
      ensures failure.None? ==> LastRead(state.terminalSize, host)
    {
      var current := host.TerminalSize();
      if current.None? {
        return Some(TerminalSizeFailed), false;
      }
      changed := current.value != state.terminalSize;
      failure := None;
      if changed {
        state.terminalSize := current.value;
        if options.resize.UseRealTerminalSize? {
          failure := ResizeAttachedTarget(host, state.terminalSize);
        }
      }
    }

    /** Two more attempts to give the terminal back, then the token is given up. */
    method GiveBackTerminal(host: Host, guard: AttachGuard)
      requires Numbered() && open && guard.host == host && guard.token.Some?
      modifies this`nextEventSeq, this`events, this`history, this`open, guard
      modifies host`calls, host`faults, host`restoreAttempts, host`restores
      ensures old(host.faults) <= host.faults
      ensures Numbered() && open && guard.token.None?
      ensures old(host.restoreAttempts) + 1 <= host.restoreAttempts <= old(host.restoreAttempts) + 2
      ensures host.restores == old(host.restores) || host.restores == old(host.restores) + 1
      ensures host.restores == old(host.restores) ==> host.restoreAttempts == old(host.restoreAttempts) + 2
      ensures old(history) <= history
    {
      hide Numbered;
      if guard.IsDetached() {
        return;
      }
      var ok := guard.Detach();
      if ok {
        return;
      }
      PushError(RestoreFailed);
      ok := guard.Detach();
      if !ok {
        PushError(RestoreFailed);
        guard.Disarm();
      }
    }

    /** Resizes back if that was not done yet; a failure is only reported. */
    method ResizeBack(host: Host, restoredEmbeddedSize: bool)
      requires Numbered() && open
      modifies this`nextEventSeq, this`events, this`history, this`open
      modifies host`calls, host`faults, host`ptySize, host`surfaceSize
      ensures old(host.faults) <= host.faults
      ensures Numbered() && open
      ensures options.resize.KeepEmbeddedSize? ==>
        host.ptySize == old(host.ptySize) && host.surfaceSize == old(host.surfaceSize)
      ensures old(history) <= history
      ensures bridge.state.IsActive() && options.resize.UseRealTerminalSize? && !restoredEmbeddedSize ==>
        host.ptySize == embeddedSize == host.surfaceSize || ResizeFailureReported()
    {
      hide Numbered;
      if bridge.state.IsActive() && options.resize.UseRealTerminalSize? && !restoredEmbeddedSize {
        var failure := ResizeAttachedTarget(host, embeddedSize);
        if failure.Some? {
          PushError(failure.value);
        }
      }
    }

    /** The session ends in any case. */
    method BestEffortAbort(host: Host, guard: AttachGuard, reason: DetachReason, restoredEmbeddedSize: bool)
      requires Numbered() && open && bridge.state != Embedded && guard.host == host && guard.token.Some?
      modifies this`nextEventSeq, this`events, this`history, this`open, bridge, guard
      modifies host`calls, host`faults, host`ptySize, host`surfaceSize, host`restoreAttempts, host`restores
      ensures old(history) <= history
      ensures old(host.faults) <= host.faults
      ensures Resting() && guard.token.None?
      ensures old(host.restoreAttempts) + 1 <= host.restoreAttempts <= old(host.restoreAttempts) + 2
      ensures host.restores == old(host.restores) || host.restores == old(host.restores) + 1
      ensures host.restores == old(host.restores) ==> host.restoreAttempts == old(host.restoreAttempts) + 2
      ensures Ended(reason)
      ensures options.resize.KeepEmbeddedSize? ==>
        host.ptySize == old(host.ptySize) && host.surfaceSize == old(host.surfaceSize)
      ensures options.resize.UseRealTerminalSize? && !restoredEmbeddedSize ==>
        host.ptySize == embeddedSize == host.surfaceSize || ResizeFailureReported()
    {
      hide Numbered;
      if bridge.state == Attached {
        bridge.BeginDetach();
      }
      ResizeBack(host, restoredEmbeddedSize);
      GiveBackTerminal(host, guard);
      PushEvent(AttachEnded(reason, embeddedSize));
      bridge.Reset();
    }

    /**
     * One attach, against every pattern of failures. No bridge assertion fires (each is a precondition met here). A
     * finished run leaves the bridge embedded and every start matched by one end; the terminal is restored at most
     * once, in at most three attempts, none of them by the guard's own drop; a success means one attempt, all output
     * delivered to stdout and surface alike, and all input sent up to the chord. A run fails exactly when a call of
     * the host has failed, with the first such failure.
     */
    method Run(host: Host, ticks: nat) returns (run: RunResult)
      requires Resting()
      modifies this`nextEventSeq, this`events, this`history, this`open, this`lastStart, bridge, host
      ensures run.Finished? && run.result.Failure? ==> Reports(|old(history)|, run.result.error)
      ensures run.Finished? && run.result.Failure? ==> old(host.faults) + [run.result.error] <= host.faults
      ensures run.StillAttached? || run.result.Success? ==> host.faults == old(host.faults)
      ensures run.Finished? ==> Resting()
      ensures run.StillAttached? ==> Numbered() && open && bridge.state == Attached
      ensures old(host.restoreAttempts) <= host.restoreAttempts <= old(host.restoreAttempts) + 3
      ensures old(host.restores) <= host.restores <= old(host.restores) + 1
      ensures run.Finished? && host.restores == old(host.restores) ==>
        host.restoreAttempts == old(host.restoreAttempts) || host.restoreAttempts >= old(host.restoreAttempts) + 2
      ensures run.Finished? && host.restoreAttempts > old(host.restoreAttempts) ==> StartedAndEnded(old(history))
      ensures run.Finished? && host.restoreAttempts == old(host.restoreAttempts) ==>
        && run.result in {Failure(TerminalSizeFailed), Failure(SuspendFailed)}
        && history == old(history) + [Event(nextEventSeq, ErrorEvent(run.result.error))]
      ensures run.Finished? && run.result.Success? ==> Completed(
        run.result.value, host, old(host.received), old(host.stdout), old(host.surface), old(host.stdinRead),
        old(host.ptyInput), old(host.taken), old(host.restoreAttempts), old(host.restores))
      ensures options.resize.KeepEmbeddedSize? ==>
        host.ptySize == old(host.ptySize) && host.surfaceSize == old(host.surfaceSize)
    {
      hide Numbered;
      var size := host.TerminalSize();
      if size.None? {
        PushError(TerminalSizeFailed);
        assert history[|old(history)|].kind == ErrorEvent(TerminalSizeFailed);
        return Finished(Failure(TerminalSizeFailed));
      }
      bridge.BeginAttach();
      var ok := host.Suspend();
      if !ok {
        PushError(SuspendFailed);
        assert history[|old(history)|].kind == ErrorEvent(SuspendFailed);
        bridge.Reset();
        return Finished(Failure(SuspendFailed));
      }
      run := RunSuspended(host, size.value, ticks);
    }

    /** The run from the moment the terminal is suspended. */
    method RunSuspended(host: Host, size: Size, ticks: nat) returns (run: RunResult)
      requires Numbered() && !open && bridge.state == Attaching
      modifies this`nextEventSeq, this`events, this`history, this`open, this`lastStart, bridge, host
      ensures run.Finished? && run.result.Failure? ==> Reports(|old(history)|, run.result.error)
      ensures run.Finished? && run.result.Failure? ==> old(host.faults) + [run.result.error] <= host.faults
      ensures run.StillAttached? || run.result.Success? ==> host.faults == old(host.faults)
      ensures run.Finished? ==> Resting()
      ensures run.StillAttached? ==>
        && Numbered() && open && bridge.state == Attached
        && host.restoreAttempts == old(host.restoreAttempts) && host.restores == old(host.restores)
      ensures run.Finished? ==> StartedAndEnded(old(history))
      ensures run.Finished? && run.result.Failure? ==>
        RestoreTried(host, old(host.restoreAttempts), old(host.restores))
      ensures run.Finished? && run.result.Success? ==> Completed(
        run.result.value, host, old(host.received), old(host.stdout), old(host.surface), old(host.stdinRead),
        old(host.ptyInput), old(host.taken), old(host.restoreAttempts), old(host.restores))
      ensures options.resize.KeepEmbeddedSize? ==>
        host.ptySize == old(host.ptySize) && host.surfaceSize == old(host.surfaceSize)
    {
      hide Numbered, Completed, Quiet, DetachedWith, DetachNoted, FirstExitCode;
      var guard := new AttachGuard(host);
      PushStarted(size);
      var state := new AttachLoopState(size, host);
      var failure, outcome := RunAttached(host, guard, state, ticks);
      if failure.Some? {
        SinceStart();
        AbandonSession(host, guard, state, failure.value);
        guard.Drop();
        return Finished(Failure(failure.value));
      }
      if outcome.None? {
        return StillAttached;
      }
      SessionCompleted(host, guard, state, outcome.value, old(host.restoreAttempts), old(host.restores));
      guard.Drop();
      return Finished(Success(outcome.value));
    }

    lemma SinceStart()
      requires Numbered()
      ensures lastStart <= history
    {
    }

    /** Reports the failure, then ends the session in any case. */
    method AbandonSession(host: Host, guard: AttachGuard, state: AttachLoopState, failure: AttachError)
      requires Numbered() && open && bridge.state != Embedded && guard.host == host && guard.token.Some?
      modifies this`nextEventSeq, this`events, this`history, this`open, bridge, guard
      modifies host`calls, host`faults, host`ptySize, host`surfaceSize, host`restoreAttempts, host`restores
      ensures Reports(|old(history)|, failure)
      ensures old(host.faults) <= host.faults
      ensures Resting() && guard.token.None? && (Ended(UserChord) || Ended(ErrorReason))
      ensures Ended(if state.detachReason.Some? then state.detachReason.value else ErrorReason)
      ensures RestoreTried(host, old(host.restoreAttempts), old(host.restores))
      ensures host.restoreAttempts <= old(host.restoreAttempts) + 2
      ensures options.resize.KeepEmbeddedSize? ==>
        host.ptySize == old(host.ptySize) && host.surfaceSize == old(host.surfaceSize)
      ensures options.resize.UseRealTerminalSize? && !state.restoredEmbeddedSize ==>
        host.ptySize == embeddedSize == host.surfaceSize || ResizeFailureReported()
    {
      hide Numbered, Ended;
      PushError(failure);
      assert history[|old(history)|].kind == ErrorEvent(failure);
      var reason := if state.detachReason.Some? then state.detachReason.value else ErrorReason;
      assert reason == UserChord || reason == ErrorReason;
      BestEffortAbort(host, guard, reason, state.restoredEmbeddedSize);
    }

    /** Among the events since number `from` is one of this failure. */
    ghost predicate Reports(from: nat, failure: AttachError)
      reads this`history
    {
      exists i :: from <= i < |history| && history[i].kind == ErrorEvent(failure)
    }

    /** One to three attempts and at most one success; without a success there were at least two attempts. */
    ghost predicate RestoreTried(host: Host, attempts: nat, restores: nat)
      reads host`restoreAttempts, host`restores
    {
      && attempts + 1 <= host.restoreAttempts <= attempts + 3
      && restores <= host.restores <= restores + 1
      && (host.restores == restores ==> host.restoreAttempts >= attempts + 2)
    }

    lemma SessionCompleted(
      host: Host, guard: AttachGuard, state: AttachLoopState, outcome: AttachOutcome, attempts: nat, restores: nat)
      requires DetachedWith(outcome, host, guard, state)
      requires host.restoreAttempts == attempts + 1 && host.restores == restores + 1
      ensures Resting() && Ended(UserChord) && guard.token.None?
      ensures Completed(
        outcome, host, state.received0, state.stdout0, state.surface0, state.stdin0, state.input0, state.taken0,
        attempts, restores)
    {
      hide DetachedInput, Numbered, Ended;
      assert host.surface + [] == host.surface;
    }

    /** The run's first event starts an attach, its last one ends it, and there is no other start or end. */
    ghost predicate StartedAndEnded(before: seq<Event>)
      reads this`history, this`lastStart
    {
      && |lastStart| == |before| + 1 && before <= lastStart <= history && lastStart[|before|].kind.AttachStarted?
      && (Ended(UserChord) || Ended(ErrorReason))
    }

    /** A session that ended by its chord, against the host's logs from before it. */
    ghost predicate Completed(
      outcome: AttachOutcome, host: Host, received: seq<Byte>, stdout: seq<Byte>, surface: seq<Byte>,
      stdinRead: seq<Byte>, ptyInput: seq<Byte>, taken: seq<PtyFrame>, restoreAttempts: nat, restores: nat)
      reads host
    {
      && outcome.reason == UserChord && outcome.restoredSize == embeddedSize
      && taken <= host.taken && outcome.childExitCode == FirstExitCode(host.taken[|taken|..])
      && LastRead(outcome.terminalSize, host)
      && host.restoreAttempts == restoreAttempts + 1 && host.restores == restores + 1
      && (exists output :: host.received == received + output && host.stdout == stdout + output
                           && host.surface == surface + output)
      && (exists typed, sent :: host.stdinRead == stdinRead + typed && host.ptyInput == ptyInput + sent
                                && DetachedInput(options.chord, typed, sent, outcome.remainingInput))
      && (options.resize.UseRealTerminalSize? ==> host.ptySize == embeddedSize == host.surfaceSize)
    }
  }
}
