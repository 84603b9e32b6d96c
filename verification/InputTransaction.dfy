/** Manager-owned input: a plan of write steps, sent through the retrying writer and optionally verified by its echo. */
module InputTransaction {
  import opened Bytes
  import opened Encoder
  import opened PtyWriter

  const POLL_INTERVAL: nat := 10

  datatype WriteStep = WriteStep(bytes: seq<Byte>, submits: bool)

  /** The bytes of a plan, in order. */
  function PlannedBytes(steps: seq<WriteStep>): seq<Byte> {
    if steps == [] then [] else steps[0].bytes + PlannedBytes(steps[1..])
  }

  lemma {:induction false} PlannedAppend(a: seq<WriteStep>, b: seq<WriteStep>)
    ensures PlannedBytes(a + b) == PlannedBytes(a) + PlannedBytes(b)
    decreases |a|
  {
    if a == [] {
      assert a + b == b;
    } else {
      assert (a + b)[1..] == a[1..] + b;
      PlannedAppend(a[1..], b);
    }
  }

  // ---------------------------------------------------------------------
  // Planning text
  // ---------------------------------------------------------------------

  /** `bytes` cut into steps of at most `size` bytes. */
  function Chunks(bytes: seq<Byte>, size: nat): (steps: seq<WriteStep>)
    requires size >= 1
    ensures forall i :: 0 <= i < |steps| ==> 1 <= |steps[i].bytes| <= size && !steps[i].submits
    decreases |bytes|
  {
    if bytes == [] then []
    else
      var n := Min(size, |bytes|);
      [WriteStep(bytes[..n], false)] + Chunks(bytes[n..], size)
  }

  lemma {:induction false} ChunksKeepBytes(bytes: seq<Byte>, size: nat)
    requires size >= 1
    ensures PlannedBytes(Chunks(bytes, size)) == bytes
    decreases |bytes|
  {
    if bytes != [] {
      var n := Min(size, |bytes|);
      ChunksKeepBytes(bytes[n..], size);
      assert Chunks(bytes, size)[1..] == Chunks(bytes[n..], size);
      assert bytes[..n] + bytes[n..] == bytes;
    }
  }

  datatype EnterEncoding = EnterCr | EnterLf | EnterCrLf

  function EnterBytes(enter: EnterEncoding): (b: seq<Byte>)
    ensures b != []
  {
    match enter case EnterCr => [CR] case EnterLf => [LF] case EnterCrLf => [CR, LF]
  }

  /** Multiline text goes as one bracketed paste when the child asked for that; any other text is typed in chunks. */
  method TextInputSteps(
    text: seq<Byte>, submit: bool, chunkSize: nat, policy: PasteNewlinePolicy, enter: EnterEncoding, bracketed: bool)
    returns (steps: seq<WriteStep>)
    ensures WellPlanned(steps)
    ensures
      var multiline := LF in text || CR in text;
      PlannedBytes(steps) ==
        EncodePaste(text, policy, multiline && bracketed) + if submit then EnterBytes(enter) else []
    ensures submit <==> steps != [] && steps[|steps| - 1].submits
    ensures !(bracketed && (LF in text || CR in text)) ==>
      forall i :: 0 <= i < |steps| ==> steps[i].submits || |steps[i].bytes| <= Max(chunkSize, 1)
  {
    hide EncodePaste, Chunks;
    steps := [];
    var multiline := LF in text || CR in text;
    if multiline && bracketed {
      steps := [WriteStep(EncodePaste(text, policy, true), false)];
    } else if text != [] {
      var bytes := EncodePaste(text, policy, false);
      steps := Chunks(bytes, Max(chunkSize, 1));
      ChunksKeepBytes(bytes, Max(chunkSize, 1));
    } else {
      EmptyText(policy);
    }
    if submit {
      PlannedAppend(steps, [WriteStep(EnterBytes(enter), true)]);
      steps := steps + [WriteStep(EnterBytes(enter), true)];
    }
  }

  lemma EmptyText(policy: PasteNewlinePolicy)
    ensures EncodePaste([], policy, false) == []
  {
  }

  /** Only the last step submits, and it is not empty. */
  predicate WellPlanned(steps: seq<WriteStep>) {
    forall i :: 0 <= i < |steps| && steps[i].submits ==> i == |steps| - 1 && steps[i].bytes != []
  }

  // ---------------------------------------------------------------------
  // Sending a plan
  // ---------------------------------------------------------------------

  datatype TransactionError = WriteFailed(attempted: nat, written: nat, failure: Failure) | VerificationFailed | ChildExited

  datatype InputOutcome = InputOutcome(
    bytesSent: nat, echoed: bool, submitted: bool, timedOut: bool, childExited: bool, errors: seq<TransactionError>)
  {
    predicate IsSuccess() { errors == [] && !timedOut }
  }

  /** A look at the screen: which reply told whether the echo was there, and how much the device had accepted by then. */
  datatype Look = Look(reply: nat, accepted: nat)

  /** The looks since number `from` were answered by replies from number `first` on, before number `last`. */
  ghost predicate RepliesWithin(looks: seq<Look>, from: nat, first: nat, last: nat) {
    first <= last && forall i :: from <= i < |looks| ==> first <= looks[i].reply < last
  }

  lemma RepliesGrow(looks: seq<Look>, more: seq<Look>, from: nat, first: nat, last: nat, end: nat)
    requires RepliesWithin(looks, from, first, last) && from <= |looks| && looks <= more
    requires RepliesWithin(more, |looks|, last, end)
    ensures RepliesWithin(more, from, first, end)
  {
  }

  ghost predicate ShownIn(looks: seq<Look>, replies: nat -> bool, from: nat, sent: nat) {
    exists i :: from <= i < |looks| && replies(looks[i].reply) && looks[i].accepted == sent
  }

  ghost predicate SeenIn(looks: seq<Look>, replies: nat -> bool, from: nat) {
    exists i :: from <= i < |looks| && replies(looks[i].reply)
  }

  /** A look that showed the echo is one since any earlier number. */
  lemma LastShows(looks: seq<Look>, replies: nat -> bool, from: nat, sent: nat)
    requires from < |looks| && looks[|looks| - 1].accepted == sent && replies(looks[|looks| - 1].reply)
    ensures ShownIn(looks, replies, from, sent) && SeenIn(looks, replies, from)
  {
  }

  lemma NoLook(looks: seq<Look>, first: nat, last: nat)
    requires first <= last
    ensures RepliesWithin(looks, |looks|, first, last)
  {
  }

  /** The pane as a transaction sees it: its device, whether its child is gone, its screen, and the clock. */
  class Pane {
    const device: PtyDevice
    const exitReplies: nat -> bool
    const echoReplies: nat -> bool
    const delays: nat -> nat
    var asked: nat
    var terminated: bool
    var now: nat
    /** Every look at the screen so far. */
    ghost var looks: seq<Look>

    constructor (device: PtyDevice, exitReplies: nat -> bool, echoReplies: nat -> bool, delays: nat -> nat, terminated: bool)
      ensures this.device == device && this.terminated == terminated && asked == 0
    {
      this.device := device;
      this.exitReplies, this.echoReplies, this.delays := exitReplies, echoReplies, delays;
      this.terminated := terminated;
      asked, now, looks := 0, 0, [];
    }

    /** Handling pending frames may reveal that the child is gone, for good. */
    method PollFrames()
      modifies this
      ensures terminated == (old(terminated) || exitReplies(old(asked)))
      ensures now == old(now) && looks == old(looks) && asked == old(asked) + 1
    {
      terminated := terminated || exitReplies(asked);
      asked := asked + 1;
    }

    method SurfaceMatches() returns (matches: bool)
      modifies this
      ensures terminated == old(terminated) && now == old(now) && asked == old(asked) + 1
      ensures looks == old(looks) + [Look(old(asked), |device.accepted|)] && matches == echoReplies(old(asked))
    {
      matches := echoReplies(asked);
      looks := looks + [Look(asked, |device.accepted|)];
      asked := asked + 1;
    }

    /** Reading the clock takes an arbitrary time. */
    method Elapsed(started: nat) returns (elapsed: nat)
      requires started <= now
      modifies this
      ensures terminated == old(terminated) && now >= old(now) && elapsed == now - started && looks == old(looks)
      ensures asked == old(asked) + 1
    {
      now := now + delays(asked);
      asked := asked + 1;
      return now - started;
    }

    method Sleep(duration: nat)
      modifies this
      ensures terminated == old(terminated) && now >= old(now) + duration && looks == old(looks)
      ensures asked == old(asked) + 1
    {
      now := now + duration + delays(asked);
      asked := asked + 1;
    }

    /** The echo was on the screen at a look from number `from` on, when the device had accepted `sent` bytes. */
    ghost predicate EchoShown(from: nat, sent: nat)
      reads this`looks
    {
      ShownIn(looks, echoReplies, from, sent)
    }

    /** The echo was on the screen at a look from number `from` on. */
    ghost predicate EchoSeen(from: nat)
      reads this`looks
    {
      SeenIn(looks, echoReplies, from)
    }

    /** Every look since number `from` but the last missed the echo, and all saw `sent` bytes accepted. */
    ghost predicate LookedInVain(from: nat, sent: nat)
      reads this`looks
    {
      && from < |looks|
      && (forall i :: from <= i < |looks| - 1 ==> !echoReplies(looks[i].reply))
      && (forall i :: from <= i < |looks| ==> looks[i].accepted == sent)
    }

    /**
     * Polls until the echo shows, the child exits, or the timeout passes. The last look decides: the echo if it was
     * there, else the child if it is gone, else the clock, which then has run for the whole timeout.
     */
    method VerifyEcho(timeout: nat, before: InputOutcome) returns (outcome: InputOutcome)
      modifies this
      ensures old(looks) < looks && LookedInVain(|old(looks)|, |device.accepted|)
      ensures RepliesWithin(looks, |old(looks)|, old(asked), asked)
      ensures old(terminated) ==> terminated
      ensures now >= old(now)
      ensures
        if echoReplies(looks[|looks| - 1].reply) then outcome == before.(echoed := true)
        else if terminated then outcome == before.(childExited := true, errors := before.errors + [VerificationFailed])
        else
          && outcome == before.(timedOut := true, errors := before.errors + [VerificationFailed])
          && now - old(now) >= timeout
    {
      outcome := before;
      var started := now;
      while true
        invariant started <= now && outcome == before && old(looks) <= looks
        invariant old(terminated) ==> terminated
        invariant RepliesWithin(looks, |old(looks)|, old(asked), asked)
        invariant forall i :: |old(looks)| <= i < |looks| ==>
          !echoReplies(looks[i].reply) && looks[i].accepted == |device.accepted|
        decreases timeout - (now - started)
      {
        PollFrames();
        var matches := SurfaceMatches();
        if matches {
          return outcome.(echoed := true);
        }
        if terminated {
          return outcome.(childExited := true, errors := outcome.errors + [VerificationFailed]);
        }
        var elapsed := Elapsed(started);
        if elapsed >= timeout {
          return outcome.(timedOut := true, errors := outcome.errors + [VerificationFailed]);
        }
        Sleep(Min(POLL_INTERVAL, timeout - elapsed));
      }
    }

    /** Verification within a transaction whose looks began with number `from`, answered by replies from `first` on. */
    method VerifyNow(timeout: nat, before: InputOutcome, ghost from: nat, ghost first: nat)
      returns (outcome: InputOutcome)
      requires from <= |looks| && RepliesWithin(looks, from, first, asked) && !before.echoed
      modifies this
      ensures old(looks) <= looks && RepliesWithin(looks, from, first, asked) && now >= old(now)
      ensures
        || (outcome == before.(echoed := true) && EchoShown(from, |device.accepted|) && EchoSeen(from))
        || (terminated && outcome == before.(childExited := true, errors := before.errors + [VerificationFailed]))
        || (now - old(now) >= timeout
            && outcome == before.(timedOut := true, errors := before.errors + [VerificationFailed]))
      ensures old(terminated) ==> terminated
    {
      hide RepliesWithin, ShownIn, SeenIn;
      ghost var seen, answered := looks, asked;
      outcome := VerifyEcho(timeout, before);
      RepliesGrow(seen, looks, from, first, answered, asked);
      if outcome.echoed {
        LastShows(looks, echoReplies, from, |device.accepted|);
      }
    }

    method WriteStep(step: WriteStep, maxTransientRetries: nat, before: InputOutcome)
      returns (outcome: InputOutcome, written: bool)
      modifies device
      ensures before.bytesSent <= outcome.bytesSent <= before.bytesSent + |step.bytes|
      ensures device.accepted == old(device.accepted) + step.bytes[..outcome.bytesSent - before.bytesSent]
      ensures written ==> outcome.bytesSent == before.bytesSent + |step.bytes|
      ensures outcome.echoed == before.echoed && outcome.timedOut == before.timedOut
      ensures outcome.childExited == before.childExited
      ensures written ==> outcome.errors == before.errors
      ensures !written ==>
        && |outcome.errors| == |before.errors| + 1 && before.errors <= outcome.errors
        && var error := outcome.errors[|before.errors|];
           && error.WriteFailed? && error.attempted == |step.bytes|
           && error.written == outcome.bytesSent - before.bytesSent
      ensures outcome.submitted == (before.submitted || (written && step.submits && step.bytes != []))
    {
      outcome := before;
      if step.bytes == [] {
        assert step.bytes[..0] == [] && device.accepted + [] == device.accepted;
        return outcome, true;
      }
      var r := WriteBytesRetrying(device, step.bytes, maxTransientRetries);
      outcome := outcome.(bytesSent := outcome.bytesSent + r.bytesWritten);
      assert device.accepted == old(device.accepted) + step.bytes[..r.bytesWritten];
      if r.failure.None? {
        return outcome.(submitted := outcome.submitted || step.submits), true;
      }
      return outcome.(errors := outcome.errors + [WriteFailed(|step.bytes|, r.bytesWritten, r.failure.value)]), false;
    }

    /**
     * Whatever the device, the child, the screen and the clock do: the device accepted exactly the first `bytesSent`
     * bytes of the plan; a submit means all of it was sent, and that a requested echo was on the screen when all but
     * the submitting step was; success means all of it was sent and a requested echo was on the screen; and a
     * timeout or an exit is reported only when there was one.
     */
    method SendTransaction(steps: seq<WriteStep>, verification: Option<nat>, maxTransientRetries: nat)
      returns (outcome: InputOutcome)
      requires WellPlanned(steps)
      modifies this, device
      ensures outcome.bytesSent <= |PlannedBytes(steps)|
      ensures device.accepted == old(device.accepted) + PlannedBytes(steps)[..outcome.bytesSent]
      ensures outcome.submitted ==>
        && outcome.bytesSent == |PlannedBytes(steps)| && steps != [] && steps[|steps| - 1].submits
        && (verification.Some? ==>
              outcome.echoed
              && EchoShown(|old(looks)|, |old(device.accepted)| + |PlannedBytes(steps[..|steps| - 1])|))
      ensures outcome.IsSuccess() ==>
        && outcome.bytesSent == |PlannedBytes(steps)|
        && (outcome.submitted <==> steps != [] && steps[|steps| - 1].submits)
        && (verification.Some? && !outcome.submitted ==>
              outcome.echoed && EchoShown(|old(looks)|, |old(device.accepted)| + |PlannedBytes(steps)|))
      ensures outcome.echoed ==> verification.Some? && EchoSeen(|old(looks)|)
      ensures old(looks) <= looks && RepliesWithin(looks, |old(looks)|, old(asked), asked)
      ensures outcome.timedOut ==> verification.Some? && now - old(now) >= verification.value
      ensures outcome.childExited ==> terminated
    {
      hide PlannedBytes, RepliesWithin, ShownIn, SeenIn;
      PollFrames();
      NoLook(looks, old(asked), asked);
      SentNothing(steps, old(device.accepted));
      outcome := InputOutcome(0, false, false, false, false, []);
      var plan := PlannedBytes(steps);
      assert plan[..0] == [] && device.accepted + [] == device.accepted;
      if terminated {
        return outcome.(childExited := true, errors := [ChildExited]);
      }
      var verifyBeforeSubmit := verification.Some? && exists i :: 0 <= i < |steps| && steps[i].submits;
      var verified := false;

      var index := 0;
      while index < |steps|
        invariant 0 <= index <= |steps|
        invariant Sent(steps, index, outcome.bytesSent, old(device.accepted), device.accepted)
        invariant outcome.errors == [] && !outcome.timedOut
        invariant outcome.submitted <==> index == |steps| && steps != [] && steps[|steps| - 1].submits
        invariant verified <==> outcome.echoed
        invariant RepliesWithin(looks, |old(looks)|, old(asked), asked)
        invariant old(looks) <= looks && now >= old(now) && (outcome.childExited ==> terminated)
        invariant verified ==>
          && verification.Some? && verifyBeforeSubmit && index >= |steps| - 1
          && EchoShown(|old(looks)|, |old(device.accepted)| + |PlannedBytes(steps[..|steps| - 1])|)
          && EchoSeen(|old(looks)|)
        invariant verified || !(index == |steps| && verifyBeforeSubmit)
      {
        var step := steps[index];
        if terminated {
          SentIsPrefix(steps, index, outcome.bytesSent, old(device.accepted), device.accepted);
          return outcome.(childExited := true, errors := outcome.errors + [ChildExited]);
        }
        if step.submits && verifyBeforeSubmit && !verified {
          outcome := VerifyNow(verification.value, outcome, |old(looks)|, old(asked));
          verified := true;
          if !outcome.echoed {
            SentIsPrefix(steps, index, outcome.bytesSent, old(device.accepted), device.accepted);
            return outcome;
          }
        }
        ghost var sent, accepted := outcome.bytesSent, device.accepted;
        var written;
        outcome, written := WriteStep(step, maxTransientRetries, outcome);
        SentMore(steps, index, sent, old(device.accepted), accepted, outcome.bytesSent - sent);
        if !written {
          return outcome;
        }
        ghost var answered := asked;
        PollFrames();
        NoLook(looks, answered, asked);
        RepliesGrow(looks, looks, |old(looks)|, old(asked), answered, asked);
        index := index + 1;
        if terminated {
          outcome := outcome.(childExited := true);
          if index < |steps| {
            SentIsPrefix(steps, index, outcome.bytesSent, old(device.accepted), device.accepted);
            return outcome.(errors := outcome.errors + [ChildExited]);
          }
        }
      }

      SentIsPrefix(steps, index, outcome.bytesSent, old(device.accepted), device.accepted);
      assert steps[..|steps|] == steps;
      if !verified && verification.Some? {
        outcome := VerifyNow(verification.value, outcome, |old(looks)|, old(asked));
      }
    }
  }

  /** The first `index` steps went through completely. */
  ghost predicate Sent(steps: seq<WriteStep>, index: nat, bytesSent: nat, before: seq<Byte>, accepted: seq<Byte>) {
    index <= |steps| && bytesSent == |PlannedBytes(steps[..index])| && accepted == before + PlannedBytes(steps[..index])
  }

  lemma SentNothing(steps: seq<WriteStep>, before: seq<Byte>)
    ensures Sent(steps, 0, 0, before, before)
  {
    assert steps[..0] == [] && before + [] == before;
  }

  lemma SentIsPrefix(steps: seq<WriteStep>, index: nat, bytesSent: nat, before: seq<Byte>, accepted: seq<Byte>)
    requires Sent(steps, index, bytesSent, before, accepted)
    ensures bytesSent <= |PlannedBytes(steps)| && accepted == before + PlannedBytes(steps)[..bytesSent]
    ensures index == |steps| ==> bytesSent == |PlannedBytes(steps)|
  {
    assert steps[..index] + steps[index..] == steps;
    PlannedAppend(steps[..index], steps[index..]);
  }

  /** A step of which the first `n` bytes went through. */
  lemma SentMore(steps: seq<WriteStep>, index: nat, bytesSent: nat, before: seq<Byte>, accepted: seq<Byte>, n: nat)
    requires Sent(steps, index, bytesSent, before, accepted) && index < |steps| && n <= |steps[index].bytes|
    ensures
      var more := accepted + steps[index].bytes[..n];
      && bytesSent + n <= |PlannedBytes(steps)| && more == before + PlannedBytes(steps)[..bytesSent + n]
      && (n == |steps[index].bytes| ==> Sent(steps, index + 1, bytesSent + n, before, more))
  {
    var done, step := PlannedBytes(steps[..index]), steps[index];
    assert steps[..index] + steps[index..] == steps;
    PlannedAppend(steps[..index], steps[index..]);
    assert PlannedBytes(steps[index..]) == step.bytes + PlannedBytes(steps[index..][1..]);
    assert PlannedBytes(steps)[..bytesSent + n] == done + step.bytes[..n];
    if n == |step.bytes| {
      assert step.bytes[..n] == step.bytes;
      assert steps[..index + 1] == steps[..index] + [step];
      PlannedAppend(steps[..index], [step]);
      assert [step][1..] == [];
      assert PlannedBytes([step]) == step.bytes + [];
    }
  }
}
