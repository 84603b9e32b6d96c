/** What holds of a transcript after every run of records and flushes. */
module TranscriptRuns {
  import opened Bytes
  import opened Utf8
  import opened EscapeScan
  import opened StripAnsi
  import opened SplitSafety
  import opened Retention

  datatype Op = Feed(bytes: seq<Byte>) | Flush

  function Step(l: Log, op: Op): (after: Log)
    requires Accounted(l)
    ensures Accounted(after)
  {
    match op
    case Feed(bytes) =>
      AppendedIsAccounted(l, bytes);
      WithoutKeepsAccounts(Appended(l, bytes), LeastFrom(Appended(l, bytes), 0));
      Recorded(l, bytes)
    case Flush =>
      DrainedIsAccounted(l);
      WithoutKeepsAccounts(Drained(l), LeastFrom(Drained(l), 0));
      Flushed(l)
  }

  function Run(l: Log, ops: seq<Op>): (after: Log)
    requires Accounted(l)
    ensures Accounted(after)
  {
    if ops == [] then l else Step(Run(l, ops[..|ops| - 1]), ops[|ops| - 1])
  }

  /** Every byte fed, in order. */
  function RawStream(ops: seq<Op>): seq<Byte> {
    if ops == [] then []
    else RawStream(ops[..|ops| - 1]) + (match ops[|ops| - 1] case Feed(bytes) => bytes case Flush => [])
  }

  function TextAdded(l: Log, op: Op): seq<Byte> {
    match op case Feed(bytes) => TextOfFrame(l, bytes) case Flush => Strip(l.pending)
  }

  /** All the text the run produced, in order, kept or not. */
  function PlainStream(l: Log, ops: seq<Op>): seq<Byte>
    requires Accounted(l)
  {
    if ops == [] then []
    else PlainStream(l, ops[..|ops| - 1]) + TextAdded(Run(l, ops[..|ops| - 1]), ops[|ops| - 1])
  }

  /** No forced flush of an overlong prefix yields text. */
  predicate QuietOp(l: Log, op: Op) {
    op.Feed? && !Ignored(l, op.bytes) ==> ForcedText(l, op.bytes) == []
  }

  predicate Quiet(l: Log, ops: seq<Op>)
    requires Accounted(l)
  {
    ops == [] || (Quiet(l, ops[..|ops| - 1]) && QuietOp(Run(l, ops[..|ops| - 1]), ops[|ops| - 1]))
  }

  // ---------------------------------------------------------------------
  // One operation
  // ---------------------------------------------------------------------

  predicate IsSuffix<T(==)>(part: seq<T>, whole: seq<T>) {
    |part| <= |whole| && part == whole[|whole| - |part|..]
  }

  lemma SuffixAfter<T>(part: seq<T>, whole: seq<T>, more: seq<T>, k: nat)
    requires IsSuffix(part, whole) && k <= |part| + |more|
    ensures IsSuffix((part + more)[k..], whole + more)
  {
  }

  lemma EnforceCutsRaw(l: Log) returns (k: nat)
    requires Accounted(l)
    ensures k <= |l.raw| && Enforce(l).raw == l.raw[k..]
    ensures Enforce(l).nextRaw == l.nextRaw && Enforce(l).mode == l.mode
  {
    var n := LeastFrom(l, 0);
    TotalGrows(l.chunks, n, |l.chunks|);
    k := Total(l.chunks, n).rawLen;
  }

  /** The raw buffer stays a suffix of everything fed, whatever a forced flush does to the text. */
  lemma RawStep(l: Log, op: Op, stream: seq<Byte>)
    requires Accounted(l) && l.nextRaw == |stream|
    requires if l.mode.Raw() then IsSuffix(l.raw, stream) else l.raw == []
    ensures
      var fed := if op.Feed? then op.bytes else [];
      var after := Step(l, op);
      && after.nextRaw == |stream + fed| && after.mode == l.mode
      && (if l.mode.Raw() then IsSuffix(after.raw, stream + fed) else after.raw == [])
  {
    var fed := if op.Feed? then op.bytes else [];
    var more := if l.mode.Raw() then fed else [];
    if (op.Feed? && Ignored(l, op.bytes)) || (op.Flush? && l.pending == []) {
      assert stream + more == stream;
    } else {
      var before := if op.Feed? then Appended(l, op.bytes) else Drained(l);
      if op.Feed? {
        AppendedIsAccounted(l, op.bytes);
      } else {
        DrainedIsAccounted(l);
      }
      assert before.raw == l.raw + more;
      var k := EnforceCutsRaw(before);
      if l.mode.Raw() {
        SuffixAfter(l.raw, stream, more, k);
      }
    }
  }

  lemma PlainStep(l: Log, op: Op, stream: seq<Byte>)
    requires Exact(l) && l.WithinLimits() && QuietOp(l, op)
    requires IsSuffix(l.plain, stream) && l.nextPlain == |stream|
    ensures
      var after := Step(l, op);
      && Exact(after) && after.WithinLimits()
      && IsSuffix(after.plain, stream + TextAdded(l, op)) && after.nextPlain == |stream + TextAdded(l, op)|
  {
    var text := TextAdded(l, op);
    match op
    case Feed(bytes) =>
      if Ignored(l, bytes) {
        assert stream + text == stream;
      } else {
        var a := Appended(l, bytes);
        AppendedIsAccounted(l, bytes);
        EnforceMeetsLimits(a);
        TotalGrows(a.chunks, LeastFrom(a, 0), |a.chunks|);
        assert a.plain == l.plain + text;
        SuffixAfter(l.plain, stream, text, Total(a.chunks, LeastFrom(a, 0)).plainLen);
      }
    case Flush =>
      if l.pending == [] {
        assert stream + text == stream;
      } else {
        var d := Drained(l);
        DrainedIsAccounted(l);
        EnforceMeetsLimits(d);
        TotalGrows(d.chunks, LeastFrom(d, 0), |d.chunks|);
        SuffixAfter(l.plain, stream, text, Total(d.chunks, LeastFrom(d, 0)).plainLen);
      }
  }

  // ---------------------------------------------------------------------
  // Every run
  // ---------------------------------------------------------------------

  /** The raw buffer is exactly the stream from the retained start offset on. */
  lemma {:induction false} RawIsSuffix(mode: TranscriptMode, maxBytes: nat, maxLines: nat, ops: seq<Op>)
    ensures
      var l := Run(Empty(mode, maxBytes, maxLines), ops);
      && l.mode == mode && l.nextRaw == |RawStream(ops)|
      && (if mode.Raw() then l.RetainedRawStart() <= |RawStream(ops)| && l.raw == RawStream(ops)[l.RetainedRawStart()..]
          else l.raw == [])
    decreases |ops|
  {
    if ops != [] {
      var n := |ops| - 1;
      RawIsSuffix(mode, maxBytes, maxLines, ops[..n]);
      RawStep(Run(Empty(mode, maxBytes, maxLines), ops[..n]), ops[n], RawStream(ops[..n]));
    }
  }

  /**
   * Both limits hold, the ledger accounts for everything kept, and the text is exactly the stream of all text from
   * the retained start offset on.
   */
  lemma {:induction false} PlainIsSuffix(mode: TranscriptMode, maxBytes: nat, maxLines: nat, ops: seq<Op>)
    requires Quiet(Empty(mode, maxBytes, maxLines), ops)
    ensures
      var l0 := Empty(mode, maxBytes, maxLines);
      var l, text := Run(l0, ops), PlainStream(l0, ops);
      && Exact(l) && l.WithinLimits()
      && l.nextPlain == |text| && IsSuffix(l.plain, text) && l.plain == text[l.RetainedPlainStart()..]
    decreases |ops|
  {
    var l0 := Empty(mode, maxBytes, maxLines);
    if ops != [] {
      var n := |ops| - 1;
      PlainIsSuffix(mode, maxBytes, maxLines, ops[..n]);
      PlainStep(Run(l0, ops[..n]), ops[n], PlainStream(l0, ops[..n]));
    }
  }

  lemma {:induction false} RawStreamAppend(a: seq<Op>, b: seq<Op>)
    ensures RawStream(a + b) == RawStream(a) + RawStream(b)
    decreases |b|
  {
    if b == [] {
      assert a + b == a;
    } else {
      assert (a + b)[..|a + b| - 1] == a + b[..|b| - 1];
      RawStreamAppend(a, b[..|b| - 1]);
    }
  }

  /** A frame that is still retained is found at the offset its recording reported. */
  lemma FrameIsAtItsOffset(
    mode: TranscriptMode, maxBytes: nat, maxLines: nat, earlier: seq<Op>, frame: seq<Byte>, later: seq<Op>)
    requires mode.Raw()
    ensures
      var l0 := Empty(mode, maxBytes, maxLines);
      var offset := RecordedOffset(Run(l0, earlier), frame);
      var l := Run(l0, earlier + [Feed(frame)] + later);
      l.RetainedRawStart() <= offset ==>
        && offset - l.RetainedRawStart() + |frame| <= |l.raw|
        && l.raw[offset - l.RetainedRawStart()..][..|frame|] == frame
  {
    hide Step, RawStream;
    var ops := earlier + [Feed(frame)] + later;
    RawIsSuffix(mode, maxBytes, maxLines, earlier);
    RawIsSuffix(mode, maxBytes, maxLines, ops);
    RawStreamAppend(earlier + [Feed(frame)], later);
    RawStreamAppend(earlier, [Feed(frame)]);
    OneFeed(frame);
    var l := Run(Empty(mode, maxBytes, maxLines), ops);
    if l.RetainedRawStart() <= |RawStream(earlier)| {
      FoundAt(RawStream(earlier), frame, RawStream(later), l.RetainedRawStart());
    }
  }

  lemma {:induction false} RunsExtend(l0: Log, a: seq<Op>, b: seq<Op>)
    requires Accounted(l0)
    ensures PlainStream(l0, a) <= PlainStream(l0, a + b) && (Quiet(l0, a + b) ==> Quiet(l0, a))
    decreases |b|
  {
    if b == [] {
      assert a + b == a;
    } else {
      assert (a + b)[..|a + b| - 1] == a + b[..|b| - 1];
      RunsExtend(l0, a, b[..|b| - 1]);
    }
  }

  /** Where only text is recorded, a frame's text that is still retained is found at the offset its recording reported. */
  lemma TextIsAtItsOffset(maxBytes: nat, maxLines: nat, earlier: seq<Op>, frame: seq<Byte>, later: seq<Op>)
    requires frame != [] && Quiet(Empty(PlainText, maxBytes, maxLines), earlier + [Feed(frame)] + later)
    ensures
      var l0 := Empty(PlainText, maxBytes, maxLines);
      var offset, text := RecordedOffset(Run(l0, earlier), frame), TextAdded(Run(l0, earlier), Feed(frame));
      var l := Run(l0, earlier + [Feed(frame)] + later);
      l.RetainedPlainStart() <= offset ==>
        && offset - l.RetainedPlainStart() + |text| <= |l.plain|
        && l.plain[offset - l.RetainedPlainStart()..][..|text|] == text
  {
    hide Step, TextAdded, QuietOp;
    var l0 := Empty(PlainText, maxBytes, maxLines);
    var here := earlier + [Feed(frame)];
    assert here[..|earlier|] == earlier;
    var before, text := PlainStream(l0, earlier), TextAdded(Run(l0, earlier), Feed(frame));
    assert PlainStream(l0, here) == before + text;
    RunsExtend(l0, here, later);
    RunsExtend(l0, earlier, [Feed(frame)]);
    PlainIsSuffix(PlainText, maxBytes, maxLines, earlier);
    PlainIsSuffix(PlainText, maxBytes, maxLines, here + later);
    RawIsSuffix(PlainText, maxBytes, maxLines, earlier);
    var all, l := PlainStream(l0, here + later), Run(l0, here + later);
    assert all == (before + text) + all[|before + text|..];
    if l.RetainedPlainStart() <= |before| {
      FoundAt(before, text, all[|before + text|..], l.RetainedPlainStart());
    }
  }

  lemma OneFeed(frame: seq<Byte>)
    ensures RawStream([Feed(frame)]) == frame
  {
    var one := [Feed(frame)];
    assert one[..0] == [] && RawStream(one[..0]) == [];
  }

  /** A part of a stream is found in every suffix that reaches back to it. */
  lemma FoundAt(before: seq<Byte>, part: seq<Byte>, behind: seq<Byte>, start: nat)
    requires start <= |before|
    ensures
      var kept := ((before + part) + behind)[start..];
      |before| - start + |part| <= |kept| && kept[|before| - start..][..|part|] == part
  {
  }

  /** The limits are met by dropping as few of the oldest chunks as any choice that meets them. */
  lemma RecordDropsFewest(l: Log, bytes: seq<Byte>, k: nat)
    requires Exact(l) && !Ignored(l, bytes) && ForcedText(l, bytes) == []
    requires k <= |l.chunks| + 1
    ensures Accounted(Appended(l, bytes))
    ensures Recorded(l, bytes).WithinLimits()
    ensures Without(Appended(l, bytes), k).WithinLimits() ==> |l.chunks| + 1 - |Recorded(l, bytes).chunks| <= k
    ensures
      var dropped := |l.chunks| + 1 - |Recorded(l, bytes).chunks|;
      RecordedRotation(l, bytes) ==
        if dropped == 0 then None
        else var t := Total(Appended(l, bytes).chunks, dropped); Some(Rotation(dropped, t.rawLen, t.plainLen))
  {
    AppendedIsAccounted(l, bytes);
    EnforceMeetsLimits(Appended(l, bytes));
    if Without(Appended(l, bytes), k).WithinLimits() {
      EnforceDropsFewest(Appended(l, bytes), k);
    }
  }

  /** The same for the flush at the end: both limits, the fewest drops, and what it reports. */
  lemma FlushDropsFewest(l: Log, k: nat)
    requires Exact(l) && l.pending != [] && k <= |l.chunks| + 1
    ensures Accounted(Drained(l)) && Flushed(l).WithinLimits()
    ensures Without(Drained(l), k).WithinLimits() ==> |l.chunks| + 1 - |Flushed(l).chunks| <= k
    ensures
      var dropped := |l.chunks| + 1 - |Flushed(l).chunks|;
      FlushedRotation(l) ==
        if dropped == 0 then None
        else var t := Total(Drained(l).chunks, dropped); Some(Rotation(dropped, t.rawLen, t.plainLen))
  {
    DrainedIsAccounted(l);
    EnforceMeetsLimits(Drained(l));
    if Without(Drained(l), k).WithinLimits() {
      EnforceDropsFewest(Drained(l), k);
    }
  }

  /**
   * The forced flush is the one operation that can break the ledger, and it does so exactly when it yields text:
   * that text reaches the buffer but neither a chunk nor the plain offset. A broken ledger is never mended.
   */
  lemma ForcedFlushBreaksLedger(l: Log, op: Op)
    requires Accounted(l)
    ensures Exact(Step(l, op)) <==> Exact(l) && QuietOp(l, op)
  {
    match op
    case Feed(bytes) =>
      AppendedIsAccounted(l, bytes);
      WithoutKeepsAccounts(Appended(l, bytes), LeastFrom(Appended(l, bytes), 0));
    case Flush =>
      DrainedIsAccounted(l);
      WithoutKeepsAccounts(Drained(l), LeastFrom(Drained(l), 0));
  }

  /** Over every run the accounts are exact if and only if no forced flush has yielded text. */
  lemma {:induction false} ExactExactlyWhenQuiet(mode: TranscriptMode, maxBytes: nat, maxLines: nat, ops: seq<Op>)
    ensures Exact(Run(Empty(mode, maxBytes, maxLines), ops)) <==> Quiet(Empty(mode, maxBytes, maxLines), ops)
    decreases |ops|
  {
    hide Step, Exact, QuietOp;
    if ops == [] {
      NothingIsExact(mode, maxBytes, maxLines);
    } else {
      var n := |ops| - 1;
      ExactExactlyWhenQuiet(mode, maxBytes, maxLines, ops[..n]);
      ForcedFlushBreaksLedger(Run(Empty(mode, maxBytes, maxLines), ops[..n]), ops[n]);
    }
  }

  lemma NothingIsExact(mode: TranscriptMode, maxBytes: nat, maxLines: nat)
    ensures Exact(Empty(mode, maxBytes, maxLines))
  {
  }

  /** Where no text is recorded there is no forced flush. */
  lemma {:induction false} RawRunsAreQuiet(mode: TranscriptMode, maxBytes: nat, maxLines: nat, ops: seq<Op>)
    requires !mode.Plain()
    ensures Quiet(Empty(mode, maxBytes, maxLines), ops)
    decreases |ops|
  {
    hide Step;
    if ops != [] {
      var n := |ops| - 1;
      RawRunsAreQuiet(mode, maxBytes, maxLines, ops[..n]);
      RawIsSuffix(mode, maxBytes, maxLines, ops[..n]);
    }
  }

  /** A DCS the stripper ends where the hold-back scanner is still inside a nested sequence, and text behind it. */
  function Unterminated(text: seq<Byte>): seq<Byte> { [ESC, 0x50, ESC, 0x5B, ESC, 0x5C] + text }

  /** Such a forced flush exists: a frame that is all held back, too long, and not all inside a sequence. */
  lemma ForcedFlushHappens(mode: TranscriptMode, maxBytes: nat, maxLines: nat, text: seq<Byte>)
    requires mode.Plain() && ESC !in text && |Unterminated(text)| > MAX_PENDING_PREFIX_BYTES
    ensures
      var l0, f := Empty(mode, maxBytes, maxLines), Unterminated(text);
      && TextOfFrame(l0, f) == [] && ForcedText(l0, f) == TextOf(Decode(text)) != []
      && !Exact(Run(l0, [Feed(f)]))
  {
    hide Strip, HoldBack, Exact, Step;
    var l0, f := Empty(mode, maxBytes, maxLines), Unterminated(text);
    UnterminatedIsHeld(text);
    UnterminatedText(text);
    DecodedIsText(text);
    NothingStrips();
    assert [] + f == f && f[0..] == f && f[..0] == [];
    assert Absorb([], f) == ([], f);
    NothingIsExact(mode, maxBytes, maxLines);
    ForcedFlushBreaksLedger(l0, Feed(f));
    var ops := [Feed(f)];
    assert ops[..0] == [] && Run(l0, ops[..0]) == l0;
  }

  lemma DecodedIsText(s: seq<Byte>)
    requires s != []
    ensures TextOf(Decode(s)) != []
  {
    assert Decode(s)[0].Text() != [];
  }

  lemma {:induction false} StaysInString(m: Mode, s: seq<Byte>)
    requires (m == Str || m == Ground) && ESC !in s
    ensures TrackAll(m, s) == m
    decreases |s|
  {
    if s != [] {
      StaysInString(m, s[1..]);
    }
  }

  lemma {:induction false} OpenFromTheStart(s: seq<Byte>)
    requires s != [] && forall k :: 1 <= k <= |s| ==> TrackAll(Ground, s[..k]) != Ground
    ensures TrackAll(Ground, s) != Ground && OpenAt(s) == 0
    decreases |s|
  {
    var n := |s| - 1;
    assert s[..n + 1] == s;
    if n == 0 {
      assert s[..0] == [];
    } else {
      assert forall k :: 1 <= k <= n ==> s[..n][..k] == s[..k];
      OpenFromTheStart(s[..n]);
    }
  }

  lemma UnterminatedIsHeld(text: seq<Byte>)
    requires ESC !in text
    ensures HoldBack(Unterminated(text)) == |Unterminated(text)|
  {
    var f := Unterminated(text);
    forall k | 1 <= k <= |f|
      ensures TrackAll(Ground, f[..k]) != Ground
    {
      OpeningModes(text, k);
    }
    OpenFromTheStart(f);
  }

  lemma OpeningModes(text: seq<Byte>, k: nat)
    requires ESC !in text && 1 <= k <= |Unterminated(text)|
    ensures TrackAll(Ground, Unterminated(text)[..k]) != Ground
  {
    var f := Unterminated(text);
    assert f[..0] == [];
    TrackPrefix(f, 0);
    if k >= 2 { TrackPrefix(f, 1); }
    if k >= 3 { TrackPrefix(f, 2); }
    if k >= 4 { TrackPrefix(f, 3); }
    if k >= 5 { TrackPrefix(f, 4); }
    if k >= 6 {
      TrackPrefix(f, 5);
      assert f[..k] == f[..6] + f[6..k] && f[6..k] == text[..k - 6];
      TrackAppend(Ground, f[..6], f[6..k]);
      StaysInString(Str, f[6..k]);
    }
  }

  lemma UnterminatedText(text: seq<Byte>)
    requires ESC !in text
    ensures Strip(Unterminated(text)) == TextOf(Decode(text))
  {
    var opening: seq<Byte> := [ESC, 0x50, ESC, 0x5B, ESC, 0x5C];
    EndsInAscii(opening);
    DecodeSplits(opening, text);
    StripFromAppend(Ground, Decode(opening), Decode(text));
    OpeningIsSilent(opening);
    PlainStripsToItself(text);
    var shown := TextOf(Decode(text));
    assert shown + [] == shown && [] + shown == shown;
  }

  lemma OpeningIsSilent(opening: seq<Byte>)
    requires opening == [ESC, 0x50, ESC, 0x5B, ESC, 0x5C]
    ensures EmitAll(Ground, Decode(opening)) == [] && NextAll(Ground, Decode(opening)) == Ground
  {
    DecodeAscii(opening);
    var us := Decode(opening);
    assert us[0].Key() == ESC && us[1].Key() == 0x50 && us[2].Key() == ESC;
    assert us[3].Key() == 0x5B && us[4].Key() == ESC && us[5].Key() == 0x5C;
    SilentUnit(Ground, us);
    SilentUnit(Escape, us[1..]);
    SilentUnit(Str, us[2..]);
    SilentUnit(StrEscape, us[3..]);
    SilentUnit(Str, us[4..]);
    SilentUnit(StrEscape, us[5..]);
    assert us[6..] == [];
  }

  lemma SilentUnit(m: Mode, us: seq<Unit>)
    requires us != [] && Emit(m, us[0]) == []
    ensures EmitAll(m, us) == EmitAll(Next(m, us[0].Key()), us[1..])
    ensures NextAll(m, us) == NextAll(Next(m, us[0].Key()), us[1..])
  {
  }

  // ---------------------------------------------------------------------
  // The text of a whole stream
  // ---------------------------------------------------------------------

  function Feeds(frames: seq<seq<Byte>>): seq<Op> {
    seq(|frames|, i requires 0 <= i < |frames| => Feed(frames[i]))
  }

  /** The bytes held back after the frames. */
  function PendingAfter(frames: seq<seq<Byte>>): seq<Byte> {
    if frames == [] then [] else Absorb(PendingAfter(frames[..|frames| - 1]), frames[|frames| - 1]).1
  }

  function TextBefore(frames: seq<seq<Byte>>): seq<Byte> {
    if frames == [] then []
    else TextBefore(frames[..|frames| - 1]) + Absorb(PendingAfter(frames[..|frames| - 1]), frames[|frames| - 1]).0
  }

  /** The held prefix never outgrows its bound. */
  predicate PrefixBounded(frames: seq<seq<Byte>>) {
    frames == [] ||
    (PrefixBounded(frames[..|frames| - 1]) && |PendingAfter(frames)| <= MAX_PENDING_PREFIX_BYTES)
  }

  lemma {:induction false} StreamTextFrom(done: seq<seq<Byte>>, rest: seq<seq<Byte>>)
    ensures TextBefore(done) + StreamText(PendingAfter(done), rest)
      == TextBefore(done + rest) + Strip(PendingAfter(done + rest))
    decreases |rest|
  {
    if rest == [] {
      assert done + rest == done;
    } else {
      var next := done + [rest[0]];
      assert next[..|done|] == done;
      assert next + rest[1..] == done + rest;
      StreamTextFrom(next, rest[1..]);
      Regroup(TextBefore(done), Absorb(PendingAfter(done), rest[0]).0, StreamText(PendingAfter(next), rest[1..]));
    }
  }

  lemma FeedFollows(l: Log, frame: seq<Byte>)
    requires Accounted(l) && l.mode.Plain()
    requires |Absorb(l.pending, frame).1| <= MAX_PENDING_PREFIX_BYTES
    ensures Step(l, Feed(frame)).pending == Absorb(l.pending, frame).1 && Step(l, Feed(frame)).mode == l.mode
    ensures QuietOp(l, Feed(frame)) && TextAdded(l, Feed(frame)) == Absorb(l.pending, frame).0
  {
  }

  /** The object's run follows the unbounded stream as long as the bound is kept. */
  lemma {:induction false} RunFollowsStream(l0: Log, frames: seq<seq<Byte>>)
    requires l0 == Empty(l0.mode, l0.maxBytes, l0.maxLines) && l0.mode.Plain() && PrefixBounded(frames)
    ensures
      var ops := Feeds(frames);
      && Quiet(l0, ops) && PlainStream(l0, ops) == TextBefore(frames)
      && Run(l0, ops).pending == PendingAfter(frames) && Run(l0, ops).mode == l0.mode
    decreases |frames|
  {
    hide Step, Absorb, QuietOp, TextAdded;
    if frames != [] {
      var n := |frames| - 1;
      var ops, l := Feeds(frames), Run(l0, Feeds(frames[..n]));
      RunFollowsStream(l0, frames[..n]);
      FeedFollows(l, frames[n]);
      assert ops[..n] == Feeds(frames[..n]) && ops[n] == Feed(frames[n]);
      assert Run(l0, ops) == Step(l, Feed(frames[n]));
    }
  }

  /**
   * The retained text after the final flush is the stripped form of the whole stream from the retained start on,
   * however the stream was cut into frames and whatever the limits are; without limits it is all of it.
   */
  lemma TextIsSplitIndependent(mode: TranscriptMode, maxBytes: nat, maxLines: nat, frames: seq<seq<Byte>>)
    requires mode.Plain()
    requires SplitSafe(Concat(frames)) && PrefixBounded(frames)
    ensures
      var l := Run(Empty(mode, maxBytes, maxLines), Feeds(frames) + [Flush]);
      var text := Strip(Concat(frames));
      && l.RetainedPlainStart() <= |text| && l.plain == text[l.RetainedPlainStart()..] && l.WithinLimits()
      && (maxBytes == 0 && maxLines == 0 ==> l.plain == text)
  {
    RunTextIsStreamText(mode, maxBytes, maxLines, frames);
    assert [] + Concat(frames) == Concat(frames);
    SplitIndependence([], frames);
  }

  /** On any stream, the retained text after the final flush is a suffix of what the frames' cuts make of it. */
  lemma RunTextIsStreamText(mode: TranscriptMode, maxBytes: nat, maxLines: nat, frames: seq<seq<Byte>>)
    requires mode.Plain() && PrefixBounded(frames)
    ensures
      var l := Run(Empty(mode, maxBytes, maxLines), Feeds(frames) + [Flush]);
      var text := StreamText([], frames);
      && l.RetainedPlainStart() <= |text| && l.plain == text[l.RetainedPlainStart()..] && l.WithinLimits()
      && (maxBytes == 0 && maxLines == 0 ==> l.plain == text)
  {
    hide Strip, Step;
    var l0 := Empty(mode, maxBytes, maxLines);
    var ops := Feeds(frames) + [Flush];
    RunFollowsStream(l0, frames);
    assert ops[..|frames|] == Feeds(frames);
    StreamTextFrom([], frames);
    assert [] + frames == frames && [] + StreamText([], frames) == StreamText([], frames);
    PlainIsSuffix(mode, maxBytes, maxLines, ops);
    assert PlainStream(l0, ops) == StreamText([], frames);
    if maxBytes == 0 && maxLines == 0 {
      UnlimitedKeepsAll(l0, ops);
    }
  }

  /**
   * Exactly the safe streams leave, at every point and for every cut that keeps the bound, the stripped stream as
   * the transcript's text.
   */
  lemma TextIsStrippedExactlyWhen(mode: TranscriptMode, s: seq<Byte>)
    requires mode.Plain()
    ensures SplitSafe(s) <==>
      forall k: nat, frames: seq<seq<Byte>> ::
        k <= |s| && Concat(frames) == s[..k] && PrefixBounded(frames) ==>
          Run(Empty(mode, 0, 0), Feeds(frames) + [Flush]).plain == Strip(s[..k])
  {
    hide StreamText, Strip, SplitSafe, Run, PrefixBounded;
    SafeExactlyWhenCutsAgree(s);
    forall k: nat, frames: seq<seq<Byte>> | k <= |s| && Concat(frames) == s[..k] && PrefixBounded(frames)
      ensures Run(Empty(mode, 0, 0), Feeds(frames) + [Flush]).plain == StreamText([], frames)
    {
      RunTextIsStreamText(mode, 0, 0, frames);
    }
    if !SplitSafe(s) {
      var k, frames := CutThatShows(s);
      ShortPendings(s[..k - 1], s[k - 1]);
      assert s[..k - 1] + [s[k - 1]] == s[..k];
      assert PrefixBounded(frames);
    }
  }

  lemma OnePending(f: seq<Byte>)
    requires f != []
    ensures PendingAfter([f]) == f[|f| - HoldBack(f)..]
    ensures HoldBack(f) <= MAX_PENDING_PREFIX_BYTES ==> PrefixBounded([f])
  {
    hide HoldBack;
    assert [f][..0] == [] && [] + f == f;
    assert PrefixBounded([f][..0]);
  }

  /** The cuts that show hold back a byte at most. */
  lemma ShortPendings(a: seq<Byte>, b: Byte)
    ensures a != [] && HoldBack(a) == 0 ==> PrefixBounded([a, [b]])
    ensures HoldBack(a + [b]) == 1 ==> PrefixBounded([a + [b]])
  {
    hide HoldBack;
    OnePending(a + [b]);
    if a != [] && HoldBack(a) == 0 {
      OnePending(a);
      var two := [a, [b]];
      assert two[..1] == [a] && a[|a|..] == [] && [] + [b] == [b];
      assert PendingAfter(two) == Absorb([], [b]).1;
    }
  }

  lemma {:induction false} TailHoldIsShort(s: seq<Byte>, j: nat)
    requires j <= |s| && forall i :: j <= i < |s| ==> IsContinuation(s[i])
    ensures TailHoldFrom(s, j) <= 3
    decreases j
  {
    if j > 0 && IsContinuation(s[j - 1]) {
      TailHoldIsShort(s, j - 1);
    }
  }

  lemma {:induction false} StaysInGround(s: seq<Byte>)
    requires ESC !in s
    ensures TrackAll(Ground, s) == Ground
    decreases |s|
  {
    if s != [] {
      StaysInGround(s[1..]);
    }
  }

  /** Without escapes at most three bytes of a code point are ever held back, so the bound is kept. */
  lemma {:induction false} EscapeFreeIsBounded(frames: seq<seq<Byte>>)
    requires ESC !in Concat(frames)
    ensures PrefixBounded(frames) && |PendingAfter(frames)| <= 3 && ESC !in PendingAfter(frames)
    decreases |frames|
  {
    if frames != [] {
      var n := |frames| - 1;
      assert frames == frames[..n] + [frames[n]];
      ConcatSnoc(frames[..n], frames[n]);
      EscapeFreeIsBounded(frames[..n]);
      var combined := PendingAfter(frames[..n]) + frames[n];
      StaysInGround(combined);
      TailHoldIsShort(combined, |combined|);
    }
  }

  /** An escape-free stream, however cut, leaves the lossy decoding of the whole stream as its text. */
  lemma EscapeFreeTextIsDecoded(mode: TranscriptMode, frames: seq<seq<Byte>>)
    requires mode.Plain() && ESC !in Concat(frames)
    ensures Run(Empty(mode, 0, 0), Feeds(frames) + [Flush]).plain == TextOf(Decode(Concat(frames)))
  {
    EscapeFreeIsBounded(frames);
    PlainIsSafe(Concat(frames));
    TextIsSplitIndependent(mode, 0, 0, frames);
    PlainStripsToItself(Concat(frames));
  }

  /** With both limits off nothing is ever dropped. */
  lemma {:induction false} UnlimitedKeepsAll(l0: Log, ops: seq<Op>)
    requires l0 == Empty(l0.mode, 0, 0) && Quiet(l0, ops)
    ensures var l := Run(l0, ops); l.nextPlain == |l.plain| && l.maxBytes == 0 && l.maxLines == 0
    decreases |ops|
  {
    hide Step, QuietOp;
    if ops != [] {
      UnlimitedKeepsAll(l0, ops[..|ops| - 1]);
      UnlimitedStepKeeps(Run(l0, ops[..|ops| - 1]), ops[|ops| - 1]);
    }
  }

  lemma UnlimitedStepKeeps(l: Log, op: Op)
    requires Accounted(l) && l.nextPlain == |l.plain| && l.maxBytes == 0 && l.maxLines == 0 && QuietOp(l, op)
    ensures var after := Step(l, op); after.nextPlain == |after.plain| && after.maxBytes == 0 && after.maxLines == 0
  {
    hide Absorb, Strip, CountNewlines, ChunkOf, Accounted;
    match op
    case Feed(bytes) =>
      AppendedIsAccounted(l, bytes);
      NothingToDrop(Appended(l, bytes));
    case Flush =>
      DrainedIsAccounted(l);
      NothingToDrop(Drained(l));
  }

  lemma NothingToDrop(l: Log)
    requires Accounted(l) && l.maxBytes == 0 && l.maxLines == 0
    ensures Enforce(l) == l
  {
    RotationCountsTheLoss(l);
    assert l.chunks != [] ==> !OverAfter(l, 0);
  }
}
