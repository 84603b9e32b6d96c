/** The bounded queue between the PTY reader and the pane: output beyond the capacity becomes one summary of its loss. */
module FrameQueue {
  import opened Bytes

  datatype PtyFrame =
    | Output(seqNo: nat, bytes: seq<Byte>, at: nat)
    | CursorPositionRequest(seqNo: nat, at: nat)
    | Exited(seqNo: nat, code: Option<int>, at: nat)
    | Overflow(seqNo: nat, droppedFrames: nat, droppedBytes: nat, at: nat)
    | Error(seqNo: nat, message: string, at: nat)

  datatype QueuedPtyFrame =
    | Frame(frame: PtyFrame)
    | OverflowSummary(seqNo: nat, at: nat, droppedFrames: nat, droppedBytes: nat)
  {
    predicate IsOutput() { Frame? && frame.Output? }

    /** The frame a consumer receives. */
    function Delivered(): PtyFrame {
      if Frame? then frame else Overflow(seqNo, droppedFrames, droppedBytes, at)
    }
  }

  datatype QueueState = QueueState(
    frames: seq<QueuedPtyFrame>, outputCapacity: nat, queuedOutputFrames: nat, overflowSummaryQueued: bool,
    cumulativeDroppedFrames: nat, cumulativeDroppedBytes: nat)

  function NewQueue(outputCapacity: nat): QueueState {
    QueueState([], Max(outputCapacity, 1), 0, false, 0, 0)
  }

  /** The position of the first summary, or the number of frames. */
  function SummaryAt(frames: seq<QueuedPtyFrame>): (p: nat)
    ensures p <= |frames| && (p < |frames| ==> frames[p].OverflowSummary?)
    ensures forall i :: 0 <= i < p ==> !frames[i].OverflowSummary?
  {
    if frames == [] || frames[0].OverflowSummary? then 0 else 1 + SummaryAt(frames[1..])
  }

  function Enlarged(summary: QueuedPtyFrame, bytes: nat): QueuedPtyFrame
    requires summary.OverflowSummary?
  {
    summary.(droppedFrames := summary.droppedFrames + 1, droppedBytes := summary.droppedBytes + bytes)
  }

  predicate Drops(q: QueueState) { q.overflowSummaryQueued || q.queuedOutputFrames >= q.outputCapacity }

  /** One dropped output: the queued summary grows, or a new one is queued. */
  function Overflowed(q: QueueState, seqNo: nat, dropped: nat, at: nat): QueueState {
    var p := SummaryAt(q.frames);
    var counted := q.(cumulativeDroppedFrames := q.cumulativeDroppedFrames + 1,
                      cumulativeDroppedBytes := q.cumulativeDroppedBytes + dropped);
    if p < |q.frames| then counted.(frames := q.frames[p := Enlarged(q.frames[p], dropped)])
    else counted.(frames := q.frames + [OverflowSummary(seqNo, at, 1, dropped)], overflowSummaryQueued := true)
  }

  function Pushed(q: QueueState, frame: PtyFrame): QueueState {
    if frame.Output? then
      if Drops(q) then Overflowed(q, frame.seqNo, |frame.bytes|, frame.at)
      else q.(frames := q.frames + [Frame(frame)], queuedOutputFrames := q.queuedOutputFrames + 1)
    else q.(frames := q.frames + [Frame(frame)])
  }

  function Received(q: QueueState): QueueState {
    if q.frames == [] then q
    else if q.frames[0].Frame? then
      q.(frames := q.frames[1..],
         queuedOutputFrames :=
           if q.frames[0].IsOutput() && q.queuedOutputFrames > 0 then q.queuedOutputFrames - 1
           else q.queuedOutputFrames)
    else q.(frames := q.frames[1..], overflowSummaryQueued := false)
  }

  class PtyFrameQueueState {
    var frames: seq<QueuedPtyFrame>
    const outputCapacity: nat
    var queuedOutputFrames: nat
    var overflowSummaryQueued: bool
    var cumulativeDroppedFrames: nat
    var cumulativeDroppedBytes: nat

    function View(): QueueState
      reads this
    {
      QueueState(frames, outputCapacity, queuedOutputFrames, overflowSummaryQueued,
                 cumulativeDroppedFrames, cumulativeDroppedBytes)
    }

    constructor (capacity: nat)
      ensures View() == NewQueue(capacity)
    {
      frames, outputCapacity := [], Max(capacity, 1);
      queuedOutputFrames, overflowSummaryQueued := 0, false;
      cumulativeDroppedFrames, cumulativeDroppedBytes := 0, 0;
    }

    method Push(frame: PtyFrame)
      modifies this
      ensures View() == Pushed(old(View()), frame)
    {
      match frame
      case Output(seqNo, bytes, at) => PushOutput(seqNo, bytes, at);
      case _ => frames := frames + [Frame(frame)];
    }

    method PushOutput(seqNo: nat, bytes: seq<Byte>, at: nat)
      modifies this
      ensures View() == Pushed(old(View()), Output(seqNo, bytes, at))
    {
      if overflowSummaryQueued || queuedOutputFrames >= outputCapacity {
        RecordOutputOverflow(seqNo, |bytes|, at);
        return;
      }
      frames := frames + [Frame(Output(seqNo, bytes, at))];
      queuedOutputFrames := queuedOutputFrames + 1;
    }

    method RecordOutputOverflow(seqNo: nat, dropped: nat, at: nat)
      modifies this
      ensures View() == Overflowed(old(View()), seqNo, dropped, at)
    {
      cumulativeDroppedFrames := cumulativeDroppedFrames + 1;
      cumulativeDroppedBytes := cumulativeDroppedBytes + dropped;
      for i := 0 to |frames|
        invariant frames == old(frames) && queuedOutputFrames == old(queuedOutputFrames)
        invariant overflowSummaryQueued == old(overflowSummaryQueued)
        invariant cumulativeDroppedFrames == old(cumulativeDroppedFrames) + 1
        invariant cumulativeDroppedBytes == old(cumulativeDroppedBytes) + dropped
        invariant forall j :: 0 <= j < i ==> !frames[j].OverflowSummary?
      {
        if frames[i].OverflowSummary? {
          assert SummaryAt(frames) == i;
          frames := frames[i := Enlarged(frames[i], dropped)];
          return;
        }
      }
      frames := frames + [OverflowSummary(seqNo, at, 1, dropped)];
      overflowSummaryQueued := true;
    }

    method TryRecv() returns (frame: Option<PtyFrame>)
      modifies this
      ensures View() == Received(old(View()))
      ensures frame == if old(frames) == [] then None else Some(old(frames)[0].Delivered())
    {
      if frames == [] {
        return None;
      }
      var first := frames[0];
      frames := frames[1..];
      match first
      case Frame(inner) =>
        if inner.Output? {
          queuedOutputFrames := if queuedOutputFrames > 0 then queuedOutputFrames - 1 else 0;
        }
        return Some(inner);
      case OverflowSummary(seqNo, at, droppedFrames, droppedBytes) =>
        overflowSummaryQueued := false;
        return Some(Overflow(seqNo, droppedFrames, droppedBytes, at));
    }
  }
}
