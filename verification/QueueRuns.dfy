/** Loss through the frame queue is exact: what was dropped, where and how much, is what its summaries say. */
module QueueRuns {
  import opened Bytes
  import opened FrameQueue

  datatype Op = Push(frame: PtyFrame) | Recv

  /** A run, observed: the queue, the outputs pushed, the frames taken out, and the runs of outputs dropped. */
  datatype Trace = Trace(
    queue: QueueState, outputs: seq<PtyFrame>, delivered: seq<QueuedPtyFrame>, dropped: seq<seq<PtyFrame>>)

  /** A drop extends the current run when a summary is waiting, and starts a new one otherwise. */
  function Observe(t: Trace, op: Op): Trace {
    match op
    case Recv =>
      if t.queue.frames == [] then t
      else t.(queue := Received(t.queue), delivered := t.delivered + [t.queue.frames[0]])
    case Push(frame) =>
      var after := t.(queue := Pushed(t.queue, frame));
      if !frame.Output? then after
      else
        var more := after.(outputs := t.outputs + [frame]);
        if !Drops(t.queue) then more
        else if SummaryAt(t.queue.frames) < |t.queue.frames| && t.dropped != [] then
          more.(dropped := t.dropped[..|t.dropped| - 1] + [t.dropped[|t.dropped| - 1] + [frame]])
        else more.(dropped := t.dropped + [[frame]])
  }

  function Run(capacity: nat, ops: seq<Op>): Trace {
    if ops == [] then Trace(NewQueue(capacity), [], [], [])
    else Observe(Run(capacity, ops[..|ops| - 1]), ops[|ops| - 1])
  }

  /** Everything that came out or is still queued, in order. */
  function Items(t: Trace): seq<QueuedPtyFrame> { t.delivered + t.queue.frames }

  // ---------------------------------------------------------------------
  // Expansion
  // ---------------------------------------------------------------------

  function ByteCount(run: seq<PtyFrame>): nat {
    if run == [] then 0
    else ByteCount(run[..|run| - 1]) + (var f := run[|run| - 1]; if f.Output? then |f.bytes| else 0)
  }

  /** A summary names the first frame of its run, how many frames it lost, and how many bytes. */
  predicate Summarizes(summary: QueuedPtyFrame, run: seq<PtyFrame>) {
    && summary.OverflowSummary? && run != [] && run[0].Output?
    && summary.seqNo == run[0].seqNo && summary.at == run[0].at
    && summary.droppedFrames == |run| && summary.droppedBytes == ByteCount(run)
  }

  /** The items without their non-output frames, each summary replaced by its run of dropped outputs. */
  function Expand(items: seq<QueuedPtyFrame>, runs: seq<seq<PtyFrame>>): seq<PtyFrame>
    decreases |items|
  {
    if items == [] then []
    else
      var n := |items| - 1;
      var last := items[n];
      if last.OverflowSummary? then
        if runs == [] then Expand(items[..n], runs)
        else Expand(items[..n], runs[..|runs| - 1]) + runs[|runs| - 1]
      else Expand(items[..n], runs) + (if last.IsOutput() then [last.frame] else [])
  }

  /** The summaries and the runs correspond one to one, in order. */
  predicate Match(items: seq<QueuedPtyFrame>, runs: seq<seq<PtyFrame>>)
    decreases |items|
  {
    if items == [] then runs == []
    else
      var n := |items| - 1;
      if items[n].OverflowSummary? then
        runs != [] && Summarizes(items[n], runs[|runs| - 1]) && Match(items[..n], runs[..|runs| - 1])
      else Match(items[..n], runs)
  }

  function OutputCount(items: seq<QueuedPtyFrame>): nat
    decreases |items|
  {
    if items == [] then 0
    else OutputCount(items[..|items| - 1]) + (if items[|items| - 1].IsOutput() then 1 else 0)
  }

  /** How many outputs follow the last summary. */
  function SinceSummary(items: seq<QueuedPtyFrame>): nat
    decreases |items|
  {
    if items == [] then 0
    else
      var n := |items| - 1;
      if items[n].OverflowSummary? then 0
      else SinceSummary(items[..n]) + (if items[n].IsOutput() then 1 else 0)
  }

  /** Before every summary, and since the one before it, there are at least `capacity` outputs. */
  predicate Spaced(items: seq<QueuedPtyFrame>, capacity: nat)
    decreases |items|
  {
    if items == [] then true
    else
      var n := |items| - 1;
      Spaced(items[..n], capacity) && (items[n].OverflowSummary? ==> SinceSummary(items[..n]) >= capacity)
  }

  function TotalFrames(runs: seq<seq<PtyFrame>>): nat {
    if runs == [] then 0 else TotalFrames(runs[..|runs| - 1]) + |runs[|runs| - 1]|
  }

  function TotalBytes(runs: seq<seq<PtyFrame>>): nat {
    if runs == [] then 0 else TotalBytes(runs[..|runs| - 1]) + ByteCount(runs[|runs| - 1])
  }

  lemma SnocItems(items: seq<QueuedPtyFrame>, last: QueuedPtyFrame)
    ensures (items + [last])[..|items|] == items && (items + [last])[|items|] == last
  {
  }

  // ---------------------------------------------------------------------
  // The queue's own bookkeeping
  // ---------------------------------------------------------------------

  /** The flag and the counter tell the truth, and nothing but other frames waits behind a summary. */
  predicate Sound(q: QueueState) {
    var p := SummaryAt(q.frames);
    && 1 <= q.outputCapacity
    && q.queuedOutputFrames == OutputCount(q.frames) <= q.outputCapacity
    && (q.overflowSummaryQueued <==> p < |q.frames|)
    && forall i :: p < i < |q.frames| ==> q.frames[i].Frame? && !q.frames[i].IsOutput()
  }

  lemma {:induction false} OutputCountUpdate(items: seq<QueuedPtyFrame>, p: nat, x: QueuedPtyFrame)
    requires p < |items| && items[p].IsOutput() == x.IsOutput()
    ensures OutputCount(items[p := x]) == OutputCount(items)
    decreases |items|
  {
    var n := |items| - 1;
    if p < n {
      OutputCountUpdate(items[..n], p, x);
      assert items[p := x][..n] == items[..n][p := x];
    } else {
      assert items[p := x][..n] == items[..n];
    }
  }

  lemma {:induction false} OutputCountCons(items: seq<QueuedPtyFrame>)
    requires items != []
    ensures OutputCount(items) == OutputCount(items[1..]) + (if items[0].IsOutput() then 1 else 0)
    decreases |items|
  {
    var n := |items| - 1;
    if n > 0 {
      OutputCountCons(items[..n]);
      assert items[..n][1..] == items[1..][..n - 1];
    } else {
      assert items[..0] == [] && items[1..] == [];
    }
  }

  lemma {:induction false} SummaryAtSnoc(frames: seq<QueuedPtyFrame>, x: QueuedPtyFrame)
    ensures SummaryAt(frames + [x]) ==
      if SummaryAt(frames) < |frames| then SummaryAt(frames)
      else if x.OverflowSummary? then |frames| else |frames| + 1
    decreases |frames|
  {
    if frames == [] {
      assert (frames + [x])[1..] == [];
    } else {
      assert (frames + [x])[1..] == frames[1..] + [x];
      if !frames[0].OverflowSummary? {
        SummaryAtSnoc(frames[1..], x);
      }
    }
  }

  lemma AppendKeepsSound(q: QueueState, frame: PtyFrame)
    requires Sound(q) && !(frame.Output? && Drops(q))
    ensures Sound(Pushed(q, frame))
  {
    SnocItems(q.frames, Frame(frame));
    SummaryAtSnoc(q.frames, Frame(frame));
  }

  lemma DropKeepsSound(q: QueueState, frame: PtyFrame)
    requires Sound(q) && frame.Output? && Drops(q)
    ensures Sound(Pushed(q, frame))
  {
    var p := SummaryAt(q.frames);
    if p < |q.frames| {
      var x := Enlarged(q.frames[p], |frame.bytes|);
      OutputCountUpdate(q.frames, p, x);
      SummaryAtUpdate(q.frames, p, x);
    } else {
      var x := OverflowSummary(frame.seqNo, frame.at, 1, |frame.bytes|);
      SnocItems(q.frames, x);
      SummaryAtSnoc(q.frames, x);
    }
  }

  lemma PushKeepsSound(q: QueueState, frame: PtyFrame)
    requires Sound(q)
    ensures Sound(Pushed(q, frame))
  {
    hide Sound, Pushed, Drops;
    if frame.Output? && Drops(q) {
      DropKeepsSound(q, frame);
    } else {
      AppendKeepsSound(q, frame);
    }
  }

  lemma {:induction false} SummaryAtUpdate(frames: seq<QueuedPtyFrame>, p: nat, x: QueuedPtyFrame)
    requires p == SummaryAt(frames) < |frames| && x.OverflowSummary?
    ensures SummaryAt(frames[p := x]) == p
    decreases p
  {
    if p > 0 {
      SummaryAtUpdate(frames[1..], p - 1, x);
      assert frames[p := x][1..] == frames[1..][p - 1 := x];
    }
  }

  lemma {:induction false} NoSummaryBehind(frames: seq<QueuedPtyFrame>)
    requires forall i :: 0 <= i < |frames| ==> frames[i].Frame? && !frames[i].IsOutput()
    ensures SummaryAt(frames) == |frames| && OutputCount(frames) == 0
    decreases |frames|
  {
    if frames != [] {
      NoSummaryBehind(frames[1..]);
      OutputCountCons(frames);
    }
  }

  lemma ReceiveKeepsSound(q: QueueState)
    requires Sound(q) && q.frames != []
    ensures Sound(Received(q))
    ensures q.frames[0].OverflowSummary? ==> Received(q).queuedOutputFrames == 0 && !Drops(Received(q))
  {
    var rest := q.frames[1..];
    OutputCountCons(q.frames);
    if q.frames[0].OverflowSummary? {
      NoSummaryBehind(rest);
    } else {
      assert SummaryAt(q.frames) == 1 + SummaryAt(rest);
      assert forall i :: SummaryAt(rest) < i < |rest| ==> rest[i] == q.frames[i + 1];
    }
  }

  // ---------------------------------------------------------------------
  // The invariant of every run
  // ---------------------------------------------------------------------

  ghost predicate Exact(t: Trace) {
    && Sound(t.queue)
    && Match(Items(t), t.dropped)
    && Expand(Items(t), t.dropped) == t.outputs
    && Spaced(Items(t), t.queue.outputCapacity)
    && t.queue.cumulativeDroppedFrames == TotalFrames(t.dropped)
    && t.queue.cumulativeDroppedBytes == TotalBytes(t.dropped)
    && forall f :: f in t.outputs ==> f.Output?
  }

  lemma ReceiveKeepsItems(t: Trace)
    requires t.queue.frames != []
    ensures Items(Observe(t, Recv)) == Items(t)
  {
  }

  lemma {:induction false} SinceAtLeast(before: seq<QueuedPtyFrame>, queued: seq<QueuedPtyFrame>)
    requires forall i :: 0 <= i < |queued| ==> !queued[i].OverflowSummary?
    ensures SinceSummary(before + queued) >= OutputCount(queued)
    decreases |queued|
  {
    if queued == [] {
    } else {
      var n := |queued| - 1;
      assert (before + queued)[..|before + queued| - 1] == before + queued[..n];
      SinceAtLeast(before, queued[..n]);
    }
  }

  /** Behind the last summary stand only frames that neither expand nor match anything. */
  lemma {:induction false} PastSummary(
    items: seq<QueuedPtyFrame>, s: QueuedPtyFrame, tail: seq<QueuedPtyFrame>, runs: seq<seq<PtyFrame>>, capacity: nat)
    requires s.OverflowSummary? && forall i :: 0 <= i < |tail| ==> tail[i].Frame? && !tail[i].IsOutput()
    ensures var all := items + [s] + tail;
      && (Match(all, runs) <==>
        runs != [] && Summarizes(s, runs[|runs| - 1]) && Match(items, runs[..|runs| - 1]))
      && (runs != [] ==> Expand(all, runs) == Expand(items, runs[..|runs| - 1]) + runs[|runs| - 1])
      && (Spaced(all, capacity) <==> Spaced(items, capacity) && SinceSummary(items) >= capacity)
    decreases |tail|
  {
    var all := items + [s] + tail;
    if tail == [] {
      assert all == items + [s];
      SnocItems(items, s);
    } else {
      var n := |tail| - 1;
      assert all[..|all| - 1] == items + [s] + tail[..n];
      assert all[|all| - 1] == tail[n];
      PastSummary(items, s, tail[..n], runs, capacity);
      var rest := Expand(items + [s] + tail[..n], runs);
      assert rest + [] == rest;
    }
  }

  lemma EnlargedSummarizes(s: QueuedPtyFrame, run: seq<PtyFrame>, frame: PtyFrame)
    requires Summarizes(s, run) && frame.Output?
    ensures Summarizes(Enlarged(s, |frame.bytes|), run + [frame])
  {
    assert (run + [frame])[..|run|] == run;
  }

  lemma TotalsSnoc(runs: seq<seq<PtyFrame>>, run: seq<PtyFrame>)
    ensures TotalFrames(runs + [run]) == TotalFrames(runs) + |run|
    ensures TotalBytes(runs + [run]) == TotalBytes(runs) + ByteCount(run)
  {
    assert (runs + [run])[..|runs|] == runs;
  }

  lemma OneFrameRun(frame: PtyFrame)
    requires frame.Output?
    ensures ByteCount([frame]) == |frame.bytes|
  {
    assert [frame][..0] == [];
  }

  /** Enlarging the last summary and its run by one frame. */
  lemma CoalesceItems(
    items: seq<QueuedPtyFrame>, s: QueuedPtyFrame, tail: seq<QueuedPtyFrame>,
    runs: seq<seq<PtyFrame>>, run: seq<PtyFrame>, frame: PtyFrame, capacity: nat)
    requires s.OverflowSummary? && forall i :: 0 <= i < |tail| ==> tail[i].Frame? && !tail[i].IsOutput()
    requires Match(items + [s] + tail, runs + [run]) && Spaced(items + [s] + tail, capacity) && frame.Output?
    ensures
      var grown := items + [Enlarged(s, |frame.bytes|)] + tail;
      && Match(grown, runs + [run + [frame]]) && Spaced(grown, capacity)
      && Expand(grown, runs + [run + [frame]]) == Expand(items + [s] + tail, runs + [run]) + [frame]
  {
    hide Match, Spaced, SinceSummary, Expand, Summarizes;
    assert (runs + [run])[..|runs|] == runs && (runs + [run + [frame]])[..|runs|] == runs;
    PastSummary(items, s, tail, runs + [run], capacity);
    EnlargedSummarizes(s, run, frame);
    PastSummary(items, Enlarged(s, |frame.bytes|), tail, runs + [run + [frame]], capacity);
    assert Expand(items, runs) + (run + [frame]) == (Expand(items, runs) + run) + [frame];
  }

  lemma CoalesceTotals(runs: seq<seq<PtyFrame>>, run: seq<PtyFrame>, frame: PtyFrame)
    requires frame.Output?
    ensures TotalFrames(runs + [run + [frame]]) == TotalFrames(runs + [run]) + 1
    ensures TotalBytes(runs + [run + [frame]]) == TotalBytes(runs + [run]) + |frame.bytes|
  {
    TotalsSnoc(runs, run);
    TotalsSnoc(runs, run + [frame]);
    assert (run + [frame])[..|run|] == run;
  }

  /** The items around the waiting summary. */
  lemma AroundSummary(t: Trace, p: nat, x: QueuedPtyFrame)
    requires p < |t.queue.frames|
    ensures Items(t) == (t.delivered + t.queue.frames[..p]) + [t.queue.frames[p]] + t.queue.frames[p + 1..]
    ensures t.delivered + t.queue.frames[p := x] == (t.delivered + t.queue.frames[..p]) + [x] + t.queue.frames[p + 1..]
  {
  }

  /** A drop while a summary waits. */
  lemma CoalescingKeepsExact(t: Trace, frame: PtyFrame)
    requires Exact(t) && frame.Output? && Drops(t.queue) && SummaryAt(t.queue.frames) < |t.queue.frames|
    ensures Exact(Observe(t, Push(frame)))
  {
    hide Match, Spaced, Expand, Summarizes, TotalFrames, TotalBytes;
    var q, p := t.queue, SummaryAt(t.queue.frames);
    var s, items, tail := q.frames[p], t.delivered + q.frames[..p], q.frames[p + 1..];
    assert t.dropped != [] by { SummaryHasRun(t); }
    var k := |t.dropped| - 1;
    var run, runs := t.dropped[k], t.dropped[..k];
    assert t.dropped == runs + [run];
    AroundSummary(t, p, Enlarged(s, |frame.bytes|));
    CoalesceItems(items, s, tail, runs, run, frame, q.outputCapacity);
    CoalesceTotals(runs, run, frame);
    PushKeepsSound(q, frame);
  }

  lemma SummaryHasRun(t: Trace)
    requires Exact(t) && SummaryAt(t.queue.frames) < |t.queue.frames|
    ensures t.dropped != []
  {
    var p := SummaryAt(t.queue.frames);
    AroundSummary(t, p, t.queue.frames[p]);
    PastSummary(t.delivered + t.queue.frames[..p], t.queue.frames[p], t.queue.frames[p + 1..], t.dropped, 0);
  }

  /** The first drop of a run. */
  lemma FirstDropKeepsExact(t: Trace, frame: PtyFrame)
    requires Exact(t) && frame.Output? && Drops(t.queue) && SummaryAt(t.queue.frames) == |t.queue.frames|
    ensures Exact(Observe(t, Push(frame)))
  {
    hide Sound, OutputCount, SummaryAt, TotalFrames, TotalBytes;
    var q := t.queue;
    var s := OverflowSummary(frame.seqNo, frame.at, 1, |frame.bytes|);
    var after := Observe(t, Push(frame));
    FullQueue(q);
    assert Items(after) == Items(t) + [s];
    SnocItems(Items(t), s);
    assert (t.dropped + [[frame]])[..|t.dropped|] == t.dropped;
    OneFrameRun(frame);
    SinceAtLeast(t.delivered, q.frames);
    TotalsSnoc(t.dropped, [frame]);
    PushKeepsSound(q, frame);
  }

  /** A queue that drops without a summary is full of outputs. */
  lemma FullQueue(q: QueueState)
    requires Sound(q) && Drops(q) && SummaryAt(q.frames) == |q.frames|
    ensures OutputCount(q.frames) >= q.outputCapacity && forall i :: 0 <= i < |q.frames| ==> !q.frames[i].OverflowSummary?
  {
  }

  lemma AcceptKeepsExact(t: Trace, frame: PtyFrame)
    requires Exact(t) && !(frame.Output? && Drops(t.queue))
    ensures Exact(Observe(t, Push(frame)))
  {
    hide Sound, OutputCount, SummaryAt, Summarizes, TotalFrames, TotalBytes, Match, Spaced, Expand;
    var after := Observe(t, Push(frame));
    assert Items(after) == Items(t) + [Frame(frame)];
    FrameSnoc(Items(t), frame, t.dropped, t.queue.outputCapacity);
    PushKeepsSound(t.queue, frame);
  }

  /** A frame behind the items is no summary. */
  lemma FrameSnoc(items: seq<QueuedPtyFrame>, frame: PtyFrame, dropped: seq<seq<PtyFrame>>, capacity: nat)
    requires Match(items, dropped) && Spaced(items, capacity)
    ensures
      var longer := items + [Frame(frame)];
      && Match(longer, dropped) && Spaced(longer, capacity)
      && Expand(longer, dropped) == Expand(items, dropped) + (if frame.Output? then [frame] else [])
  {
    hide Summarizes, SinceSummary;
    SnocItems(items, Frame(frame));
    assert Expand(items, dropped) + [] == Expand(items, dropped);
  }

  /**
   * In every run: what came out and what is queued, with other frames erased and each summary expanded into its run
   * of dropped outputs, is exactly the outputs pushed, in order; every summary carries its run's first sequence
   * number, frame count and byte count; the cumulative statistics are the sums over all runs; the counter of queued
   * outputs is exact and never exceeds the capacity.
   */
  lemma {:induction false} LossIsExact(capacity: nat, ops: seq<Op>)
    ensures Exact(Run(capacity, ops)) && Run(capacity, ops).queue.outputCapacity == Max(capacity, 1)
    decreases |ops|
  {
    if ops != [] {
      var t, op := Run(capacity, ops[..|ops| - 1]), ops[|ops| - 1];
      LossIsExact(capacity, ops[..|ops| - 1]);
      match op
      case Recv =>
        if t.queue.frames != [] {
          ReceiveKeepsSound(t.queue);
          ReceiveKeepsItems(t);
        }
      case Push(frame) =>
        if !(frame.Output? && Drops(t.queue)) {
          AcceptKeepsExact(t, frame);
        } else if SummaryAt(t.queue.frames) < |t.queue.frames| {
          CoalescingKeepsExact(t, frame);
        } else {
          FirstDropKeepsExact(t, frame);
        }
    }
  }

  // ---------------------------------------------------------------------
  // Spacing
  // ---------------------------------------------------------------------

  lemma {:induction false} SpacedPrefix(items: seq<QueuedPtyFrame>, k: nat, capacity: nat)
    requires k <= |items| && Spaced(items, capacity)
    ensures Spaced(items[..k], capacity)
    decreases |items|
  {
    if k < |items| {
      SpacedPrefix(items[..|items| - 1], k, capacity);
      assert items[..|items| - 1][..k] == items[..k];
    } else {
      assert items[..k] == items;
    }
  }

  lemma {:induction false} SinceIsBounded(items: seq<QueuedPtyFrame>, i: nat)
    requires i < |items| && items[i].OverflowSummary?
    ensures SinceSummary(items) <= OutputCount(items[i + 1..])
    decreases |items|
  {
    var n := |items| - 1;
    if i < n {
      SinceIsBounded(items[..n], i);
      assert items[..n][i + 1..] == items[i + 1..][..n - i - 1];
      assert items[i + 1..][n - i - 1] == items[n];
    }
  }

  /** Between any two delivered overflow notices lie at least `capacity` delivered outputs. */
  lemma OverflowSpacing(capacity: nat, ops: seq<Op>, i: nat, j: nat)
    requires i < j < |Run(capacity, ops).delivered|
    requires Run(capacity, ops).delivered[i].OverflowSummary? && Run(capacity, ops).delivered[j].OverflowSummary?
    ensures OutputCount(Run(capacity, ops).delivered[i + 1..j]) >= Max(capacity, 1)
  {
    var t := Run(capacity, ops);
    LossIsExact(capacity, ops);
    SpacedPrefix(Items(t), j + 1, Max(capacity, 1));
    var upTo := Items(t)[..j + 1];
    assert upTo[j] == t.delivered[j] && upTo[..j] == t.delivered[..j];
    SinceIsBounded(t.delivered[..j], i);
    assert t.delivered[..j][i + 1..] == t.delivered[i + 1..j];
  }

  /** Once an overflow notice is taken out no output is queued, and the next output is accepted. */
  lemma AfterNoticeOutputIsAccepted(capacity: nat, ops: seq<Op>, next: PtyFrame)
    requires Run(capacity, ops).queue.frames != [] && Run(capacity, ops).queue.frames[0].OverflowSummary?
    requires next.Output?
    ensures
      var q := Run(capacity, ops + [Recv]).queue;
      && OutputCount(q.frames) == 0
      && Pushed(q, next).frames == q.frames + [Frame(next)] && Pushed(q, next).queuedOutputFrames == 1
  {
    LossIsExact(capacity, ops);
    ReceiveKeepsSound(Run(capacity, ops).queue);
    assert (ops + [Recv])[..|ops|] == ops;
  }
}
