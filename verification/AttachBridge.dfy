/** The attach bridge, the host terminal, and the guard that gives the terminal back. */
module AttachBridge {
  import opened Bytes
  import opened FrameQueue

  datatype AttachState = Embedded | Attaching | Attached | Detaching
  {
    predicate IsActive() { !Embedded? }
  }

  /** The bridge's transitions; what the program asserts before each is required here. */
  class AttachBridge {
    var state: AttachState

    constructor ()
      ensures state == Embedded
    {
      state := Embedded;
    }

    method BeginAttach()
      requires state == Embedded
      modifies this
      ensures state == Attaching
    {
      state := Attaching;
    }

    method ConfirmAttached()
      requires state == Attaching
      modifies this
      ensures state == Attached
    {
      state := Attached;
    }

    method BeginDetach()
      requires state == Attached
      modifies this
      ensures state == Detaching
    {
      state := Detaching;
    }

    method ConfirmDetached()
      requires state == Detaching
      modifies this
      ensures state == Embedded
    {
      state := Embedded;
    }

    /** A fresh bridge for the same pane and options. */
    method Reset()
      modifies this
      ensures state == Embedded
    {
      state := Embedded;
    }
  }

  datatype AttachError =
    | SuspendFailed | RestoreFailed | TerminalInputFailed | TerminalOutputFailed | TerminalSizeFailed
    | PtyReadFailed | PtyRuntimeFailed | PtyWriteFailed | PtyResizeFailed | SurfaceFeedFailed | SurfaceResizeFailed

  /** The failures so far, with one more if there was one. */
  function Noted(faults: seq<AttachError>, failure: Option<AttachError>): seq<AttachError> {
    if failure.Some? then faults + [failure.value] else faults
  }

  datatype InputChunk = InputChunk(at: nat, bytes: seq<Byte>)

  /**
   * Everything outside the session: terminal, PTY, surface, terminal control and clock. Any call may fail at any
   * time and replies are arbitrary; the host only records what went through.
   */
  class Host {
    const fails: nat -> bool
    const sizes: nat -> Size
    const chunks: nat -> Option<seq<Byte>>
    const frames: nat -> Option<PtyFrame>
    const times: nat -> nat
    var calls: nat
    var now: nat
    var lastAt: nat
    // What went through.
    var stdinRead: seq<Byte>
    var ptyInput: seq<Byte>
    var received: seq<Byte>
    var stdout: seq<Byte>
    var surface: seq<Byte>
    var ptySize: Size
    var surfaceSize: Size
    // Terminal control.
    var restoreAttempts: nat
    var restores: nat
    /** The failures of its calls, in order. */
    ghost var faults: seq<AttachError>
    /** The frames handed out, when the last of them was, and whether there was none when last asked. */
    ghost var taken: seq<PtyFrame>
    ghost var takenAt: nat
    ghost var dry: bool
    /** The terminal's sizes as they were read. */
    ghost var sizesRead: seq<Size>

    constructor (
      fails: nat -> bool, sizes: nat -> Size, chunks: nat -> Option<seq<Byte>>, frames: nat -> Option<PtyFrame>,
      times: nat -> nat, size: Size)
      ensures restoreAttempts == 0 && restores == 0 && lastAt == 0 && faults == []
      ensures stdinRead == [] && ptyInput == [] && received == [] && stdout == [] && surface == []
      ensures ptySize == size && surfaceSize == size
    {
      this.fails, this.sizes, this.chunks, this.frames, this.times := fails, sizes, chunks, frames, times;
      calls, now, lastAt := 0, 0, 0;
      stdinRead, ptyInput, received, stdout, surface := [], [], [], [], [];
      ptySize, surfaceSize := size, size;
      restoreAttempts, restores, faults := 0, 0, [];
      taken, takenAt, dry, sizesRead := [], 0, false, [];
    }

    /** One call that can fail, and how. */
    method Answer(failure: AttachError) returns (ok: bool)
      modifies this`calls, this`faults
      ensures calls == old(calls) + 1 && faults == Noted(old(faults), if ok then None else Some(failure))
    {
      ok := !fails(calls);
      calls := calls + 1;
      if !ok {
        faults := faults + [failure];
      }
    }

    method TerminalSize() returns (size: Option<Size>)
      modifies this`calls, this`faults, this`sizesRead
      ensures faults == Noted(old(faults), if size.Some? then None else Some(TerminalSizeFailed))
      ensures size.Some? ==> size.value == sizes(calls) && calls == old(calls) + 1
      ensures sizesRead == old(sizesRead) + (if size.Some? then [size.value] else [])
    {
      var ok := Answer(TerminalSizeFailed);
      size := if ok then Some(sizes(calls)) else None;
      sizesRead := sizesRead + (if size.Some? then [size.value] else []);
    }

    /** A chunk carries the time it was captured, which never lies before an earlier chunk's. */
    method ReadStdin() returns (ok: bool, chunk: Option<InputChunk>)
      modifies this`calls, this`lastAt, this`stdinRead, this`faults
      ensures faults == Noted(old(faults), if ok then None else Some(TerminalInputFailed))
      ensures chunk.Some? ==> lastAt == chunk.value.at >= old(lastAt) && stdinRead == old(stdinRead) + chunk.value.bytes
      ensures chunk.None? ==> lastAt == old(lastAt) && stdinRead == old(stdinRead)
      ensures !ok ==> chunk.None?
    {
      ok := Answer(TerminalInputFailed);
      chunk := None;
      if ok && chunks(calls).Some? {
        lastAt := Max(lastAt, times(calls));
        stdinRead := stdinRead + chunks(calls).value;
        chunk := Some(InputChunk(lastAt, chunks(calls).value));
      }
    }

    method WriteStdout(bytes: seq<Byte>) returns (ok: bool)
      modifies this`calls, this`stdout, this`faults
      ensures faults == Noted(old(faults), if ok then None else Some(TerminalOutputFailed))
      ensures ok ==> stdout == old(stdout) + bytes
    {
      ok := Answer(TerminalOutputFailed);
      if ok {
        stdout := stdout + bytes;
      }
    }

    method TryRecv() returns (ok: bool, frame: Option<PtyFrame>)
      modifies this`calls, this`received, this`faults, this`taken, this`takenAt, this`dry
      ensures taken == old(taken) + (if frame.Some? then [frame.value] else []) && dry == frame.None?
      ensures takenAt == if frame.Some? then now else old(takenAt)
      ensures faults == Noted(old(faults),
        if !ok then Some(PtyReadFailed) else if frame.Some? && frame.value.Error? then Some(PtyRuntimeFailed) else None)
      ensures received == old(received) + (if frame.Some? && frame.value.Output? then frame.value.bytes else [])
      ensures !ok ==> frame.None?
    {
      ok := Answer(PtyReadFailed);
      frame := if ok then frames(calls) else None;
      received := received + (if frame.Some? && frame.value.Output? then frame.value.bytes else []);
      taken := taken + (if frame.Some? then [frame.value] else []);
      takenAt, dry := if frame.Some? then now else takenAt, frame.None?;
      if frame.Some? && frame.value.Error? {
        faults := faults + [PtyRuntimeFailed];
      }
    }

    method WriteInput(bytes: seq<Byte>) returns (ok: bool)
      modifies this`calls, this`ptyInput, this`faults
      ensures faults == Noted(old(faults), if ok then None else Some(PtyWriteFailed))
      ensures ok ==> ptyInput == old(ptyInput) + bytes
    {
      ok := Answer(PtyWriteFailed);
      if ok {
        ptyInput := ptyInput + bytes;
      }
    }

    method ResizePty(size: Size) returns (ok: bool)
      modifies this`calls, this`ptySize, this`faults
      ensures faults == Noted(old(faults), if ok then None else Some(PtyResizeFailed))
      ensures ok ==> ptySize == size
    {
      ok := Answer(PtyResizeFailed);
      if ok {
        ptySize := size;
      }
    }

    method FeedSurface(bytes: seq<Byte>) returns (ok: bool)
      modifies this`calls, this`surface, this`faults
      ensures faults == Noted(old(faults), if ok then None else Some(SurfaceFeedFailed))
      ensures ok ==> surface == old(surface) + bytes
    {
      ok := Answer(SurfaceFeedFailed);
      if ok {
        surface := surface + bytes;
      }
    }

    method ResizeSurface(size: Size) returns (ok: bool)
      modifies this`calls, this`surfaceSize, this`faults
      ensures faults == Noted(old(faults), if ok then None else Some(SurfaceResizeFailed))
      ensures ok ==> surfaceSize == size
    {
      ok := Answer(SurfaceResizeFailed);
      if ok {
        surfaceSize := size;
      }
    }

    method Suspend() returns (ok: bool)
      modifies this`calls, this`faults
      ensures faults == Noted(old(faults), if ok then None else Some(SuspendFailed))
    {
      ok := Answer(SuspendFailed);
    }

    method Restore() returns (ok: bool)
      modifies this`calls, this`restoreAttempts, this`restores, this`faults
      ensures faults == Noted(old(faults), if ok then None else Some(RestoreFailed))
      ensures restoreAttempts == old(restoreAttempts) + 1
      ensures restores == old(restores) + if ok then 1 else 0
    {
      ok := Answer(RestoreFailed);
      restoreAttempts := restoreAttempts + 1;
      if ok {
        restores := restores + 1;
      }
    }

    method Clock() returns (t: nat)
      modifies this`calls, this`now
      ensures t == now >= old(now)
    {
      now := now + times(calls);
      calls := calls + 1;
      t := now;
    }

    method Sleep(duration: nat)
      modifies this`calls, this`now
      ensures now >= old(now) + duration
    {
      now := now + duration + times(calls);
      calls := calls + 1;
    }
  }

  datatype RestoreToken = RestoreToken(consumed: bool)

  /** Holds the token of a suspended terminal until it is given back, or given up. */
  class AttachGuard {
    const host: Host
    var token: Option<RestoreToken>

    constructor (host: Host)
      ensures this.host == host && token == Some(RestoreToken(false))
    {
      this.host, token := host, Some(RestoreToken(false));
    }

    predicate IsDetached()
      reads this
    {
      token.None?
    }

    /** A failed restore keeps the token, so that the caller can try again. */
    method Detach() returns (ok: bool)
      modifies this, host`calls, host`restoreAttempts, host`restores, host`faults
      ensures host.faults == Noted(old(host.faults), if ok then None else Some(RestoreFailed))
      ensures old(token).None? ==>
        && ok && token.None?
        && host.restoreAttempts == old(host.restoreAttempts) && host.restores == old(host.restores)
      ensures old(token).Some? ==>
        && host.restoreAttempts == old(host.restoreAttempts) + 1
        && host.restores == old(host.restores) + (if ok then 1 else 0)
        && token == if ok then None else old(token)
    {
      if token.Some? {
        ok := host.Restore();
        if !ok {
          return false;
        }
        token := Some(token.value.(consumed := true));
        token := None;
      }
      return true;
    }

    method Disarm()
      modifies this
      ensures token == None
    {
      token := None;
    }

    /** The end of the guard's scope: a token still held is tried once more, unobserved. */
    method Drop()
      modifies this, host`calls, host`restoreAttempts, host`restores, host`faults
      ensures old(host.faults) <= host.faults
      ensures host.restoreAttempts == old(host.restoreAttempts) + (if old(token).Some? then 1 else 0)
      ensures old(token).None? ==> unchanged(host)
    {
      if token.Some? {
        var ok := host.Restore();
        if ok {
          token := Some(token.value.(consumed := true));
        }
      }
    }
  }
}
