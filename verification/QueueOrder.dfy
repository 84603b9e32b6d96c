/**
 * The frames a consumer gets, against the frames pushed: in their order, each once, with nothing missing but outputs,
 * and those told by the overflow frames in their place.
 */
module QueueOrder {
  import opened FrameQueue
  import opened QueueRuns

  /** The frames pushed, in order. */
  function PushesOf(ops: seq<Op>): seq<PtyFrame> {
    if ops == [] then []
    else
      var last := ops[|ops| - 1];
      PushesOf(ops[..|ops| - 1]) + (if last.Push? then [last.frame] else [])
  }

  /** What `TryRecv` returned for the items taken out, or would return for those still queued. */
  function Returns(items: seq<QueuedPtyFrame>): (frames: seq<PtyFrame>)
    ensures |frames| == |items| && forall i :: 0 <= i < |items| ==> frames[i] == items[i].Delivered()
  {
    seq(|items|, i requires 0 <= i < |items| => items[i].Delivered())
  }

  /** All frames returned so far and all still to be returned. */
  function AllReturned(capacity: nat, ops: seq<Op>): seq<PtyFrame> { Returns(Items(Run(capacity, ops))) }

  function Outputs(frames: seq<PtyFrame>): seq<PtyFrame> {
    if frames == [] then []
    else
      var last := frames[|frames| - 1];
      Outputs(frames[..|frames| - 1]) + (if last.Output? then [last] else [])
  }

  /** Exits, errors and requests: what is neither output nor the notice of its loss. */
  function Others(frames: seq<PtyFrame>): seq<PtyFrame> {
    if frames == [] then []
    else
      var last := frames[|frames| - 1];
      Others(frames[..|frames| - 1]) + (if last.Output? || last.Overflow? then [] else [last])
  }

  lemma FramesSnoc(frames: seq<PtyFrame>, last: PtyFrame)
    ensures Outputs(frames + [last]) == Outputs(frames) + (if last.Output? then [last] else [])
    ensures Others(frames + [last]) == Others(frames) + (if last.Output? || last.Overflow? then [] else [last])
  {
    assert (frames + [last])[..|frames|] == frames;
  }

  lemma ReturnsSnoc(items: seq<QueuedPtyFrame>, last: QueuedPtyFrame)
    ensures Returns(items + [last]) == Returns(items) + [last.Delivered()]
  {
  }

  /** How one operation changes the items. */
  lemma ItemsStep(t: Trace, op: Op)
    ensures
      var before, after := Items(t), Items(Observe(t, op));
      match op
      case Recv => after == before
      case Push(frame) =>
        if !frame.Output? || !Drops(t.queue) then after == before + [Frame(frame)]
        else
          var p := |t.delivered| + SummaryAt(t.queue.frames);
          if p < |before| then
            before[p].OverflowSummary? && after == before[p := Enlarged(before[p], |frame.bytes|)]
          else after == before + [OverflowSummary(frame.seqNo, frame.at, 1, |frame.bytes|)]
  {
    var p := |t.delivered| + SummaryAt(t.queue.frames);
    if p < |Items(t)| && op.Push? && op.frame.Output? && Drops(t.queue) {
      assert Items(t)[p] == t.queue.frames[SummaryAt(t.queue.frames)];
    }
  }

  // ---------------------------------------------------------------------
  // Exits, errors and requests
  // ---------------------------------------------------------------------

  lemma {:induction false} OthersUpdate(frames: seq<PtyFrame>, p: nat, x: PtyFrame)
    requires p < |frames| && frames[p].Overflow? && x.Overflow?
    ensures Others(frames[p := x]) == Others(frames)
    decreases |frames|
  {
    var n := |frames| - 1;
    if p < n {
      OthersUpdate(frames[..n], p, x);
      assert frames[p := x][..n] == frames[..n][p := x];
    } else {
      assert frames[p := x][..n] == frames[..n];
    }
  }

  lemma OthersStep(t: Trace, frame: PtyFrame, pushed: seq<PtyFrame>)
    requires Others(Returns(Items(t))) == Others(pushed)
    ensures Others(Returns(Items(Observe(t, Push(frame))))) == Others(pushed + [frame])
  {
    hide Observe, Drops, SummaryAt, Others, Items;
    var items := Items(t);
    ItemsStep(t, Push(frame));
    FramesSnoc(pushed, frame);
    assert Others(pushed) + [] == Others(pushed);
    if frame.Output? && Drops(t.queue) {
      var p := |t.delivered| + SummaryAt(t.queue.frames);
      if p < |items| {
        var x := Enlarged(items[p], |frame.bytes|);
        OthersUpdate(Returns(items), p, x.Delivered());
        assert Returns(items[p := x]) == Returns(items)[p := x.Delivered()];
      } else {
        LastReturned(items, OverflowSummary(frame.seqNo, frame.at, 1, |frame.bytes|));
      }
    } else {
      LastReturned(items, Frame(frame));
    }
  }

  /** In every run all frames that are no outputs come out, in order and once, whatever is lost of the outputs. */
  lemma {:induction false} OthersAreDelivered(capacity: nat, ops: seq<Op>)
    ensures Others(AllReturned(capacity, ops)) == Others(PushesOf(ops))
    decreases |ops|
  {
    hide Observe, Others, Items;
    if ops == [] {
      NothingReturned(capacity);
    } else {
      var n := |ops| - 1;
      var t := Run(capacity, ops[..n]);
      OthersAreDelivered(capacity, ops[..n]);
      match ops[n]
      case Push(frame) => OthersStep(t, frame, PushesOf(ops[..n]));
      case Recv =>
        ItemsStep(t, Recv);
        assert PushesOf(ops[..n]) + [] == PushesOf(ops[..n]);
    }
  }

  lemma NothingReturned(capacity: nat)
    ensures AllReturned(capacity, []) == []
  {
  }

  lemma LastReturned(items: seq<QueuedPtyFrame>, last: QueuedPtyFrame)
    ensures Others(Returns(items + [last]))
      == Others(Returns(items)) + (if last.Delivered().Output? || last.Delivered().Overflow? then [] else [last.Delivered()])
  {
    ReturnsSnoc(items, last);
    FramesSnoc(Returns(items), last.Delivered());
  }

  // ---------------------------------------------------------------------
  // Order
  // ---------------------------------------------------------------------

  /**
   * Every frame returned stands for the push of its index, and the indices rise: it is that frame, or the overflow
   * frame that begins with it. Only outputs have no index.
   */
  ghost predicate Placed(frames: seq<PtyFrame>, pushed: seq<PtyFrame>, index: seq<nat>) {
    && |index| == |frames|
    && (forall i :: 0 <= i < |index| ==> index[i] < |pushed|)
    && (forall i, j :: 0 <= i < j < |index| ==> index[i] < index[j])
    && (forall i :: 0 <= i < |frames| ==> StandsFor(frames[i], pushed[index[i]]))
    && (forall j :: 0 <= j < |pushed| && !pushed[j].Output? ==> j in index)
  }

  predicate StandsFor(frame: PtyFrame, pushed: PtyFrame) {
    frame == pushed || (pushed.Output? && frame.Overflow? && frame.seqNo == pushed.seqNo && frame.at == pushed.at)
  }

  lemma PlacedSnoc(frames: seq<PtyFrame>, pushed: seq<PtyFrame>, index: seq<nat>, frame: PtyFrame, push: PtyFrame)
    requires Placed(frames, pushed, index) && StandsFor(frame, push)
    ensures Placed(frames + [frame], pushed + [push], index + [|pushed|])
  {
    hide StandsFor;
    forall j | 0 <= j < |pushed + [push]| && !(pushed + [push])[j].Output?
      ensures j in index + [|pushed|]
    {
      assert j < |pushed| ==> pushed[j] == (pushed + [push])[j];
    }
  }

  lemma PlacedUpdate(frames: seq<PtyFrame>, pushed: seq<PtyFrame>, index: seq<nat>, p: nat, x: PtyFrame, push: PtyFrame)
    requires Placed(frames, pushed, index) && p < |frames| && push.Output?
    requires frames[p].Overflow? && x.Overflow? && x.seqNo == frames[p].seqNo && x.at == frames[p].at
    requires pushed[index[p]].Output?
    ensures Placed(frames[p := x], pushed + [push], index)
  {
    forall j | 0 <= j < |pushed + [push]| && !(pushed + [push])[j].Output?
      ensures j in index
    {
      assert j < |pushed| && pushed[j] == (pushed + [push])[j];
    }
  }

  /** In every run of a program that pushes no overflow frames itself, what comes out keeps the order of the pushes. */
  lemma {:induction false} DeliveryKeepsOrder(capacity: nat, ops: seq<Op>) returns (index: seq<nat>)
    requires forall frame :: frame in PushesOf(ops) ==> !frame.Overflow?
    ensures Placed(AllReturned(capacity, ops), PushesOf(ops), index)
    decreases |ops|
  {
    hide Observe, Drops, SummaryAt, Placed, StandsFor;
    if ops == [] {
      index := [];
      NothingPlaced();
      NothingReturned(capacity);
    } else {
      var n := |ops| - 1;
      var t, op := Run(capacity, ops[..n]), ops[n];
      var items, pushed := Items(t), PushesOf(ops[..n]);
      assert forall frame :: frame in pushed ==> frame in PushesOf(ops);
      index := DeliveryKeepsOrder(capacity, ops[..n]);
      ItemsStep(t, op);
      if op.Recv? {
        assert PushesOf(ops) == pushed + [] == pushed;
      } else if op.frame.Output? && Drops(t.queue) {
        var p := |t.delivered| + SummaryAt(t.queue.frames);
        if p < |items| {
          var x := Enlarged(items[p], |op.frame.bytes|);
          assert Returns(items[p := x]) == Returns(items)[p := x.Delivered()];
          OverflowIsOutput(Returns(items), pushed, index, p);
          PlacedUpdate(Returns(items), pushed, index, p, x.Delivered(), op.frame);
        } else {
          var summary := OverflowSummary(op.frame.seqNo, op.frame.at, 1, |op.frame.bytes|);
          ReturnsSnoc(items, summary);
          SummaryStands(op.frame);
          PlacedSnoc(Returns(items), pushed, index, summary.Delivered(), op.frame);
          index := index + [|pushed|];
        }
      } else {
        ReturnsSnoc(items, Frame(op.frame));
        FrameStands(op.frame);
        PlacedSnoc(Returns(items), pushed, index, op.frame, op.frame);
        index := index + [|pushed|];
      }
    }
  }

  lemma NothingPlaced()
    ensures Placed([], [], [])
  {
  }

  lemma SummaryStands(frame: PtyFrame)
    requires frame.Output?
    ensures StandsFor(OverflowSummary(frame.seqNo, frame.at, 1, |frame.bytes|).Delivered(), frame)
  {
  }

  lemma FrameStands(frame: PtyFrame)
    ensures StandsFor(frame, frame) && Frame(frame).Delivered() == frame
  {
  }

  lemma OverflowIsOutput(frames: seq<PtyFrame>, pushed: seq<PtyFrame>, index: seq<nat>, p: nat)
    requires Placed(frames, pushed, index) && p < |frames| && frames[p].Overflow?
    requires forall frame :: frame in pushed ==> !frame.Overflow?
    ensures index[p] < |pushed| && pushed[index[p]].Output?
  {
    assert pushed[index[p]] in pushed;
  }

  // ---------------------------------------------------------------------
  // Outputs
  // ---------------------------------------------------------------------

  /** The outputs the frames tell of: themselves, and for an overflow frame its run. */
  function Told(frames: seq<PtyFrame>, runs: seq<seq<PtyFrame>>): seq<PtyFrame>
    decreases |frames|
  {
    if frames == [] then []
    else
      var n := |frames| - 1;
      var last := frames[n];
      if last.Overflow? then
        if runs == [] then Told(frames[..n], runs)
        else Told(frames[..n], runs[..|runs| - 1]) + runs[|runs| - 1]
      else Told(frames[..n], runs) + (if last.Output? then [last] else [])
  }

  /** Overflow frames and runs correspond: its first number and time, how many frames, how many bytes. */
  predicate Tells(frames: seq<PtyFrame>, runs: seq<seq<PtyFrame>>)
    decreases |frames|
  {
    if frames == [] then runs == []
    else
      var n := |frames| - 1;
      if frames[n].Overflow? then
        && runs != []
        && var run, f := runs[|runs| - 1], frames[n];
           && run != [] && f.seqNo == run[0].seqNo && f.at == run[0].at
           && f.droppedFrames == |run| && f.droppedBytes == ByteCount(run)
           && Tells(frames[..n], runs[..|runs| - 1])
      else Tells(frames[..n], runs)
  }

  lemma {:induction false} ItemsTell(items: seq<QueuedPtyFrame>, runs: seq<seq<PtyFrame>>)
    requires Match(items, runs) && forall i :: 0 <= i < |items| && items[i].Frame? ==> !items[i].frame.Overflow?
    ensures Told(Returns(items), runs) == Expand(items, runs) && Tells(Returns(items), runs)
    decreases |items|
  {
    hide ByteCount;
    if items != [] {
      var n := |items| - 1;
      assert Returns(items)[..n] == Returns(items[..n]);
      ItemsTell(items[..n], if items[n].OverflowSummary? then runs[..|runs| - 1] else runs);
    }
  }

  /** No item is a pushed overflow frame. */
  lemma {:induction false} ItemsArePushed(capacity: nat, ops: seq<Op>)
    requires forall frame :: frame in PushesOf(ops) ==> !frame.Overflow?
    ensures
      var items := Items(Run(capacity, ops));
      forall i :: 0 <= i < |items| && items[i].Frame? ==> !items[i].frame.Overflow?
    ensures Run(capacity, ops).outputs == Outputs(PushesOf(ops))
    decreases |ops|
  {
    hide Drops, SummaryAt;
    if ops != [] {
      var n := |ops| - 1;
      var t, op := Run(capacity, ops[..n]), ops[n];
      assert forall frame :: frame in PushesOf(ops[..n]) ==> frame in PushesOf(ops);
      ItemsArePushed(capacity, ops[..n]);
      ItemsStep(t, op);
      if op.Push? {
        FramesSnoc(PushesOf(ops[..n]), op.frame);
        assert op.frame in PushesOf(ops);
      } else {
        assert PushesOf(ops) == PushesOf(ops[..n]) + [] == PushesOf(ops[..n]);
      }
    }
  }

  /** In every run the frames returned, with each overflow frame's run put in its place, tell every output pushed. */
  lemma OutputsAreTold(capacity: nat, ops: seq<Op>) returns (runs: seq<seq<PtyFrame>>)
    requires forall frame :: frame in PushesOf(ops) ==> !frame.Overflow?
    ensures Told(AllReturned(capacity, ops), runs) == Outputs(PushesOf(ops)) && Tells(AllReturned(capacity, ops), runs)
  {
    hide Told, Tells, Match, Expand;
    runs := Run(capacity, ops).dropped;
    LossIsExact(capacity, ops);
    ItemsArePushed(capacity, ops);
    ItemsTell(Items(Run(capacity, ops)), runs);
  }
}
