/** The text a pane leaves behind: what its output came to. */
module PaneTexts {
  import opened Bytes
  import opened StripAnsi
  import opened SplitSafety
  import opened FrameQueue
  import opened Retention
  import opened TranscriptRuns
  import opened PaneLifecycle

  /** The output frames' bytes, frame by frame. */
  function OutputChunks(frames: seq<PtyFrame>): seq<seq<Byte>> {
    if frames == [] then []
    else
      var last := frames[|frames| - 1];
      OutputChunks(frames[..|frames| - 1]) + (if last.Output? then [last.bytes] else [])
  }

  lemma {:induction false} ChunksAreTheOutput(frames: seq<PtyFrame>)
    ensures OutputFeeds(frames) == Feeds(OutputChunks(frames)) && Concat(OutputChunks(frames)) == OutputBytes(frames)
    decreases |frames|
  {
    if frames != [] {
      var n := |frames| - 1;
      var before, last := OutputChunks(frames[..n]), frames[n];
      ChunksAreTheOutput(frames[..n]);
      if last.Output? {
        ConcatSnoc(before, last.bytes);
        assert Feeds(before + [last.bytes]) == Feeds(before) + [Feed(last.bytes)];
      } else {
        assert before + [] == before && OutputBytes(frames[..n]) + [] == OutputBytes(frames[..n]);
        assert OutputFeeds(frames[..n]) + [] == OutputFeeds(frames[..n]);
      }
    }
  }

  /** Frames that end nothing only feed the transcript. */
  lemma {:induction false} FeedingFrames(v: View, frames: seq<PtyFrame>, replies: nat -> FeedReply, from: nat)
    requires Accounted(v.log)
    requires forall i :: 0 <= i < |frames| ==> EndOf(frames[i], replies(from + i)).None?
    ensures AfterFrames(v, frames, replies, from).ops == v.ops + OutputFeeds(frames)
    decreases |frames|
  {
    hide AfterFrame, OpsOf, Accounted;
    if frames == [] {
      assert v.ops + [] == v.ops;
    } else {
      var n := |frames| - 1;
      FeedingFrames(v, frames[..n], replies, from);
      FrameOps(AfterFrames(v, frames[..n], replies, from), frames[n], replies(from + n));
      LiveOps(frames[n], replies(from + n));
      Regroup(v.ops, OutputFeeds(frames[..n]), OpsOf(frames[n], replies(from + n)));
    }
  }

  function Flushes(n: nat): seq<Op> { if n == 0 then [] else Flushes(n - 1) + [Flush] }

  /** Frames without output only flush it. */
  lemma {:induction false} FlushingFrames(v: View, frames: seq<PtyFrame>, replies: nat -> FeedReply, from: nat)
    returns (n: nat)
    requires Accounted(v.log) && forall i :: 0 <= i < |frames| ==> !frames[i].Output?
    ensures AfterFrames(v, frames, replies, from).ops == v.ops + Flushes(n)
    decreases |frames|
  {
    hide AfterFrame, Accounted;
    if frames == [] {
      n := 0;
      assert v.ops + [] == v.ops;
    } else {
      var k := |frames| - 1;
      n := FlushingFrames(v, frames[..k], replies, from);
      FrameOps(AfterFrames(v, frames[..k], replies, from), frames[k], replies(from + k));
      if OpsOf(frames[k], replies(from + k)) == [Flush] {
        Regroup(v.ops, Flushes(n), [Flush]);
        n := n + 1;
      } else {
        assert (v.ops + Flushes(n)) + [] == v.ops + Flushes(n);
      }
    }
  }

  lemma IdleFlush(l: Log)
    requires Accounted(l) && l.pending == []
    ensures Step(l, Flush) == l
  {
  }

  /** Flushing again changes nothing. */
  lemma {:induction false} OneFlushIsEnough(l0: Log, ops: seq<Op>, n: nat)
    requires Accounted(l0) && n >= 1
    ensures Run(l0, ops + Flushes(n)) == Run(l0, ops + [Flush]) && Run(l0, ops + [Flush]).pending == []
    decreases n
  {
    hide Accounted, Step;
    assert (ops + [Flush])[..|ops|] == ops;
    FlushEmpties(Run(l0, ops));
    IdleFlush(Run(l0, ops + [Flush]));
    if n == 1 {
      assert Flushes(1) == Flushes(0) + [Flush] && Flushes(0) + [Flush] == [Flush];
    } else {
      var before := ops + Flushes(n - 1);
      OneFlushIsEnough(l0, ops, n - 1);
      assert ops + Flushes(n) == before + [Flush] && (before + [Flush])[..|before|] == before;
    }
  }

  lemma FramesAppend(v: View, a: seq<PtyFrame>, b: seq<PtyFrame>, replies: nat -> FeedReply, from: nat)
    requires Accounted(v.log)
    ensures AfterFrames(v, a + b, replies, from) == AfterFrames(AfterFrames(v, a, replies, from), b, replies, from + |a|)
    decreases |b|
  {
    hide AfterFrame, Accounted;
    if b == [] {
      assert a + b == a;
    } else {
      var n := |b| - 1;
      assert (a + b)[..|a| + n] == a + b[..n] && (a + b)[|a| + n] == b[n];
      FramesAppend(v, a, b[..n], replies, from);
    }
  }

  /** The transcript of a removed pane whose output all came before the first frame that ended or failed it. */
  lemma FinalOps(
    v: View, output: seq<PtyFrame>, rest: seq<PtyFrame>, late: seq<PtyFrame>, replies: nat -> FeedReply, from: nat,
    later: nat)
    returns (n: nat)
    requires Consistent(v) && v.ops == []
    requires forall i :: 0 <= i < |output| ==> EndOf(output[i], replies(from + i)).None?
    requires (forall i :: 0 <= i < |rest| ==> !rest[i].Output?) && (forall i :: 0 <= i < |late| ==> !late[i].Output?)
    ensures Accounted(v.log) && n >= 1
    ensures
      var final := FinalPane(AfterFrames(v, output + rest, replies, from), late, replies, later);
      final.log == Run(v.log, Feeds(OutputChunks(output)) + Flushes(n))
  {
    hide AfterFrames, FinalPane, Consistent, FirstEnd, EndOf, Run, Step, Accounted, Feeds, OutputChunks, Flushes;
    ExitFollowsState(v);
    var ended := AfterFrames(v, output + rest, replies, from);
    var k := EndedOps(v, output, rest, replies, from);
    var j := FlushingFrames(ended, late, replies, later);
    n := k + j + 1;
    FirstEndDecides(v, output + rest, replies, from);
    FirstEndDecides(ended, late, replies, later);
    var drained := AfterFrames(ended, late, replies, later);
    var feeds := Feeds(OutputChunks(output));
    Regroup(feeds, Flushes(k), Flushes(j));
    FlushesAppend(k, j);
    Regroup(feeds, Flushes(k + j), [Flush]);
    OneMoreFlush(k + j);
    SameLimits(v, output + rest, replies, from);
    SameLimits(ended, late, replies, later);
    FlushedFollowsOps(v, drained);
    FinalLog(ended, late, replies, later);
  }

  lemma OneMoreFlush(n: nat)
    ensures Flushes(n + 1) == Flushes(n) + [Flush]
  {
  }

  lemma EndedOps(v: View, output: seq<PtyFrame>, rest: seq<PtyFrame>, replies: nat -> FeedReply, from: nat)
    returns (n: nat)
    requires Accounted(v.log) && v.ops == []
    requires forall i :: 0 <= i < |output| ==> EndOf(output[i], replies(from + i)).None?
    requires forall i :: 0 <= i < |rest| ==> !rest[i].Output?
    ensures AfterFrames(v, output + rest, replies, from).ops == Feeds(OutputChunks(output)) + Flushes(n)
  {
    hide AfterFrames, Accounted, Feeds, OutputChunks, Flushes;
    FramesAppend(v, output, rest, replies, from);
    FeedingFrames(v, output, replies, from);
    n := FlushingFrames(AfterFrames(v, output, replies, from), rest, replies, from + |output|);
    ChunksAreTheOutput(output);
    assert [] + OutputFeeds(output) == OutputFeeds(output);
  }

  lemma FinalLog(v: View, late: seq<PtyFrame>, replies: nat -> FeedReply, from: nat)
    requires Accounted(v.log)
    ensures FinalPane(v, late, replies, from).log == Step(AfterFrames(v, late, replies, from).log, Flush)
  {
    hide AfterFrames, Step, Accounted, FlushedRotation;
  }

  lemma {:induction false} FlushesAppend(i: nat, j: nat)
    ensures Flushes(i) + Flushes(j) == Flushes(i + j)
    decreases j
  {
    if j == 0 {
      assert Flushes(i) + [] == Flushes(i);
    } else {
      FlushesAppend(i, j - 1);
      Regroup(Flushes(i), Flushes(j - 1), [Flush]);
    }
  }

  predicate SameMode(a: Log, b: Log) { a.mode == b.mode && a.maxBytes == b.maxBytes && a.maxLines == b.maxLines }

  lemma {:induction false} SameLimits(v: View, frames: seq<PtyFrame>, replies: nat -> FeedReply, from: nat)
    requires Accounted(v.log)
    ensures SameMode(AfterFrames(v, frames, replies, from).log, v.log)
    decreases |frames|
  {
    hide AfterFrame, Accounted;
    if frames != [] {
      var n := |frames| - 1;
      SameLimits(v, frames[..n], replies, from);
      FrameKeepsLimits(AfterFrames(v, frames[..n], replies, from), frames[n], replies(from + n));
    }
  }

  lemma FrameKeepsLimits(v: View, frame: PtyFrame, reply: FeedReply)
    requires Accounted(v.log)
    ensures SameMode(AfterFrame(v, frame, reply).log, v.log)
  {
    hide Accounted, FlushedRotation, RecordedRotation, OffsetOf, Step;
    StepKeepsLimits(v.log, Flush);
    if frame.Output? {
      StepKeepsLimits(v.log, Feed(frame.bytes));
      StepKeepsLimits(Step(v.log, Feed(frame.bytes)), Flush);
    }
  }

  lemma StepKeepsLimits(l: Log, op: Op)
    requires Accounted(l)
    ensures SameMode(Step(l, op), l)
  {
  }

  lemma FlushedFollowsOps(v: View, drained: View)
    requires Consistent(v) && v.ops == [] && Consistent(drained)
    ensures Accounted(v.log) && Accounted(drained.log)
    ensures SameMode(drained.log, v.log) ==> Step(drained.log, Flush) == Run(v.log, drained.ops + [Flush])
  {
    hide Step;
    assert (drained.ops + [Flush])[..|drained.ops|] == drained.ops;
    assert v.log == Empty(v.log.mode, v.log.maxBytes, v.log.maxLines);
  }

  /**
   * A removed pane whose output all came before the first frame that ended or failed it leaves the stripped form of
   * its whole output, or what the limits retain of it, wherever the reader happened to cut it.
   */
  lemma RemovedPaneLeavesItsText(
    v: View, output: seq<PtyFrame>, rest: seq<PtyFrame>, late: seq<PtyFrame>, replies: nat -> FeedReply, from: nat,
    later: nat)
    requires Consistent(v) && v.ops == [] && v.log.mode.Plain()
    requires forall i :: 0 <= i < |output| ==> EndOf(output[i], replies(from + i)).None?
    requires (forall i :: 0 <= i < |rest| ==> !rest[i].Output?) && (forall i :: 0 <= i < |late| ==> !late[i].Output?)
    requires SplitSafe(OutputBytes(output)) && PrefixBounded(OutputChunks(output))
    ensures Accounted(v.log)
    ensures
      var l := FinalPane(AfterFrames(v, output + rest, replies, from), late, replies, later).log;
      var text := Strip(OutputBytes(output));
      && l.RetainedPlainStart() <= |text| && l.plain == text[l.RetainedPlainStart()..]
      && (l.maxBytes == 0 && l.maxLines == 0 ==> l.plain == text)
  {
    hide Strip, SplitSafe, PrefixBounded, Step, EndOf, FinalPane;
    assert v.log == Empty(v.log.mode, v.log.maxBytes, v.log.maxLines);
    var n := FinalOps(v, output, rest, late, replies, from, later);
    OneFlushIsEnough(v.log, Feeds(OutputChunks(output)), n);
    ChunksAreTheOutput(output);
    TextIsSplitIndependent(v.log.mode, v.log.maxBytes, v.log.maxLines, OutputChunks(output));
    UnlimitedStays(v.log, Feeds(OutputChunks(output)) + [Flush]);
  }

  lemma {:induction false} UnlimitedStays(l0: Log, ops: seq<Op>)
    requires Accounted(l0)
    ensures SameMode(Run(l0, ops), l0)
    decreases |ops|
  {
    hide Step, Accounted;
    if ops != [] {
      UnlimitedStays(l0, ops[..|ops| - 1]);
      StepKeepsLimits(Run(l0, ops[..|ops| - 1]), ops[|ops| - 1]);
    }
  }
}
