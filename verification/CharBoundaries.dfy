/**
 * Where the retained text may be cut. The program drops whole chunks of text from the front of a string and panics
 * if such a cut falls inside a character; as long as the ledger is exact it never does.
 */
module CharBoundaries {
  import opened Bytes
  import opened Utf8
  import opened EscapeScan
  import opened StripAnsi
  import opened SplitSafety
  import opened Retention
  import opened TranscriptRuns

  /** A string may be cut at its end and before every byte that does not continue a character. */
  predicate IsBoundary(text: seq<Byte>, k: nat) {
    k <= |text| && (k < |text| ==> !IsContinuation(text[k]))
  }

  predicate StartsACharacter(text: seq<Byte>) { IsBoundary(text, 0) }

  lemma UnitStarts(m: Mode, s: seq<Byte>)
    requires s != []
    ensures FirstUnit(s).Text() != [] && StartsACharacter(FirstUnit(s).Text())
    ensures StartsACharacter(Emit(m, FirstUnit(s)))
  {
  }

  lemma {:induction false} StrippedStarts(m: Mode, s: seq<Byte>)
    ensures StartsACharacter(StripFrom(m, Decode(s)))
    decreases |s|
  {
    hide Emit, Finish, FirstUnit, UnitLength;
    if s == [] {
      UnfinishedString(m);
    } else {
      var u, rest := FirstUnit(s), s[UnitLength(s)..];
      assert Decode(s)[1..] == Decode(rest);
      StripFromCons(m, Decode(s));
      UnitStarts(m, s);
      StrippedStarts(Next(m, u.Key()), rest);
    }
  }

  /** Every sum of the oldest chunks' text ends at a boundary. */
  predicate Aligned(l: Log) {
    forall n :: 0 <= n <= |l.chunks| ==> IsBoundary(l.plain, Total(l.chunks, n).plainLen)
  }

  /** A chunk whose text starts a character keeps the log aligned, even if more such text follows unaccounted. */
  lemma AlignedSnoc(l: Log, text: seq<Byte>, more: seq<Byte>, c: Chunk, after: Log)
    requires Exact(l) && Aligned(l) && StartsACharacter(text) && StartsACharacter(more)
    requires c.plainLen == |text| && after.plain == l.plain + text + more && after.chunks == l.chunks + [c]
    ensures Aligned(after)
  {
    SumSnoc(l.chunks, c);
    forall n | 0 <= n <= |after.chunks|
      ensures IsBoundary(after.plain, Total(after.chunks, n).plainLen)
    {
      if n <= |l.chunks| {
        TotalOfPrefix(l.chunks, [c], n);
        var k := Total(l.chunks, n).plainLen;
        assert IsBoundary(l.plain, k);
        if k < |l.plain| {
          assert after.plain[k] == l.plain[k];
        } else if text != [] {
          assert after.plain[k] == text[0];
        } else if more != [] {
          assert after.plain[k] == more[0];
        }
      } else if more != [] {
        assert after.plain[|l.plain + text|] == more[0];
      }
    }
  }

  lemma AlignedWithout(l: Log, k: nat)
    requires Accounted(l) && Aligned(l) && k <= |l.chunks|
    ensures Aligned(Without(l, k))
  {
    hide IsBoundary, Total;
    var w, t := Without(l, k), Total(l.chunks, k).plainLen;
    TotalGrows(l.chunks, k, |l.chunks|);
    forall n | 0 <= n <= |w.chunks|
      ensures IsBoundary(w.plain, Total(w.chunks, n).plainLen)
    {
      TotalSplits(l.chunks, k, k + n);
      assert l.chunks[k..][..n] == l.chunks[k..k + n];
      TotalGrows(l.chunks, k, k + n);
      TotalGrows(l.chunks, k + n, |l.chunks|);
      BoundaryBehind(l.plain, t, Total(w.chunks, n).plainLen);
    }
  }

  lemma BoundaryBehind(text: seq<Byte>, t: nat, k: nat)
    requires t <= |text| && IsBoundary(text, t + k)
    ensures IsBoundary(text[t..], k)
  {
  }

  lemma AppendedIsAligned(l: Log, bytes: seq<Byte>)
    requires Exact(l) && Aligned(l)
    ensures Aligned(Appended(l, bytes))
  {
    hide Absorb, Strip, Aligned, CountNewlines;
    FrameTextStarts(l, bytes);
    AlignedSnoc(l, TextOfFrame(l, bytes), ForcedText(l, bytes), ChunkOf(l, bytes), Appended(l, bytes));
  }

  lemma FrameTextStarts(l: Log, bytes: seq<Byte>)
    ensures StartsACharacter(TextOfFrame(l, bytes)) && StartsACharacter(ForcedText(l, bytes))
  {
    hide StripFrom, Decode, HoldBack, IsContinuation;
    StrippedStarts(Ground, Carried(l, bytes));
    var c := l.pending + bytes;
    StrippedStarts(Ground, c[..|c| - HoldBack(c)]);
  }

  lemma DrainedIsAligned(l: Log)
    requires Exact(l) && Aligned(l)
    ensures Aligned(Drained(l))
  {
    hide Aligned, CountNewlines;
    var text := Strip(l.pending);
    StrippedStarts(Ground, l.pending);
    assert (l.plain + text) + [] == l.plain + text;
    AlignedSnoc(l, text, [], Chunk(0, |text|, CountNewlines(text)), Drained(l));
  }

  /** What an operation leaves before the limits are enforced: the text the cut is made in. */
  function BeforeEnforcing(l: Log, op: Op): Log {
    match op
    case Feed(bytes) => if Ignored(l, bytes) then l else Appended(l, bytes)
    case Flush => if l.pending == [] then l else Drained(l)
  }

  lemma StepKeepsAligned(l: Log, op: Op)
    requires Exact(l) && Aligned(l)
    ensures Aligned(BeforeEnforcing(l, op)) && Aligned(Step(l, op))
  {
    hide Aligned, Exact;
    ExactIsAccounted(l);
    match op
    case Feed(bytes) =>
      if Ignored(l, bytes) {
        SameText(l, Step(l, op));
      } else {
        AppendedIsAligned(l, bytes);
        AppendedIsAccounted(l, bytes);
        AlignedWithout(Appended(l, bytes), LeastFrom(Appended(l, bytes), 0));
      }
    case Flush =>
      if l.pending != [] {
        DrainedIsAligned(l);
        DrainedIsAccounted(l);
        AlignedWithout(Drained(l), LeastFrom(Drained(l), 0));
      }
  }

  lemma ExactIsAccounted(l: Log)
    requires Exact(l)
    ensures Accounted(l)
  {
  }

  lemma SameText(a: Log, b: Log)
    requires Aligned(a) && b.plain == a.plain && b.chunks == a.chunks
    ensures Aligned(b)
  {
  }

  /**
   * In every run in which no forced flush has yielded text, every cut the limits make in the retained text, now or
   * with the next operation, whatever it is, falls between two characters.
   */
  lemma {:induction false} CutsFallBetweenCharacters(
    mode: TranscriptMode, maxBytes: nat, maxLines: nat, ops: seq<Op>, next: Op)
    requires Quiet(Empty(mode, maxBytes, maxLines), ops)
    ensures
      var l := Run(Empty(mode, maxBytes, maxLines), ops);
      && Aligned(l) && Aligned(BeforeEnforcing(l, next)) && Aligned(Step(l, next))
    decreases |ops|
  {
    hide Aligned, Step, QuietOp;
    var l0 := Empty(mode, maxBytes, maxLines);
    ExactExactlyWhenQuiet(mode, maxBytes, maxLines, ops);
    if ops == [] {
      NothingIsAligned(mode, maxBytes, maxLines);
    } else {
      var n := |ops| - 1;
      assert ops[..n] + [ops[n]] == ops;
      CutsFallBetweenCharacters(mode, maxBytes, maxLines, ops[..n], ops[n]);
    }
    StepKeepsAligned(Run(l0, ops), next);
  }

  lemma NothingIsAligned(mode: TranscriptMode, maxBytes: nat, maxLines: nat)
    ensures Aligned(Empty(mode, maxBytes, maxLines))
  {
  }

  /** The cut the limits make in a log falls between two characters. */
  predicate CutIsClean(l: Log)
    requires Accounted(l)
  {
    IsBoundary(l.plain, Total(l.chunks, LeastFrom(l, 0)).plainLen)
  }

  /** The cut an operation makes does, if it makes any. */
  predicate CleanCut(l: Log, op: Op)
    requires Accounted(l)
  {
    match op
    case Feed(bytes) =>
      AppendedIsAccounted(l, bytes);
      Ignored(l, bytes) || CutIsClean(Appended(l, bytes))
    case Flush =>
      DrainedIsAccounted(l);
      l.pending == [] || CutIsClean(Drained(l))
  }

  lemma AlignedIsClean(l: Log, op: Op)
    requires Accounted(l) && Aligned(BeforeEnforcing(l, op))
    ensures CleanCut(l, op)
  {
    hide Absorb, Strip, CountNewlines;
  }

  // ---------------------------------------------------------------------
  // Without limits
  // ---------------------------------------------------------------------

  /** Without limits nothing is dropped, and the text starts a character in every run. */
  lemma {:induction false} UnlimitedStarts(mode: TranscriptMode, ops: seq<Op>)
    ensures
      var l := Run(Empty(mode, 0, 0), ops);
      StartsACharacter(l.plain) && l.maxBytes == 0 && l.maxLines == 0
    decreases |ops|
  {
    hide Step, CleanCut;
    if ops != [] {
      var n := |ops| - 1;
      UnlimitedStarts(mode, ops[..n]);
      UnlimitedStep(Run(Empty(mode, 0, 0), ops[..n]), ops[n]);
    }
  }

  lemma UnlimitedStep(l: Log, op: Op)
    requires Accounted(l) && StartsACharacter(l.plain) && l.maxBytes == 0 && l.maxLines == 0
    ensures CleanCut(l, op) && StartsACharacter(Step(l, op).plain)
    ensures Step(l, op).maxBytes == 0 && Step(l, op).maxLines == 0
  {
    hide Absorb, Strip, CountNewlines, Enforce, Accounted, ChunkOf;
    match op
    case Feed(bytes) =>
      FrameTextStarts(l, bytes);
      AppendedIsAccounted(l, bytes);
      StartsTogether(l.plain, TextOfFrame(l, bytes));
      StartsTogether(l.plain + TextOfFrame(l, bytes), ForcedText(l, bytes));
      NothingIsCut(Appended(l, bytes));
    case Flush =>
      DrainedIsAccounted(l);
      PendingTextStarts(l);
      StartsTogether(l.plain, Strip(l.pending));
      NothingIsCut(Drained(l));
  }

  lemma PendingTextStarts(l: Log)
    ensures StartsACharacter(Strip(l.pending))
  {
    StrippedStarts(Ground, l.pending);
  }

  lemma StartsTogether(a: seq<Byte>, b: seq<Byte>)
    requires StartsACharacter(a) && StartsACharacter(b)
    ensures StartsACharacter(a + b)
  {
  }

  lemma NothingIsCut(l: Log)
    requires Accounted(l) && l.maxBytes == 0 && l.maxLines == 0 && StartsACharacter(l.plain)
    ensures CutIsClean(l) && Enforce(l).plain == l.plain
    ensures Enforce(l).maxBytes == 0 && Enforce(l).maxLines == 0
  {
    assert |l.chunks| > 0 ==> !OverAfter(l, 0);
    assert LeastFrom(l, 0) == 0;
  }
}
