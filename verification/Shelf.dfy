/**
 * The transcript told simply: a shelf of recordings, each with its bytes and its text, from which the oldest are
 * taken until the rest meets the limits. The chunk ledger and its offsets keep exactly that shelf.
 */
module Shelf {
  import opened Bytes
  import opened StripAnsi
  import opened SplitSafety
  import opened Retention
  import opened TranscriptRuns

  /** One recording. */
  datatype Entry = Entry(raw: seq<Byte>, text: seq<Byte>)

  /** The shelf, and the end of the stream that is not text yet. */
  datatype Shelf = Shelf(entries: seq<Entry>, held: seq<Byte>)

  datatype Limits = Limits(mode: TranscriptMode, maxBytes: nat, maxLines: nat)
  {
    /** The newlines a recording is charged with: those of what is recorded, the larger number if both forms are. */
    function LinesOf(e: Entry): nat {
      if mode == Both then Max(multiset(e.raw)[0x0A], multiset(e.text)[0x0A])
      else if mode == PlainText then multiset(e.text)[0x0A]
      else multiset(e.raw)[0x0A]
    }

    function Lines(entries: seq<Entry>): nat {
      if entries == [] then 0 else LinesOf(entries[0]) + Lines(entries[1..])
    }

    /** A limit of 0 is none. */
    predicate Fit(entries: seq<Entry>) {
      && (maxBytes == 0 || |RawsOf(entries)| + |TextsOf(entries)| <= maxBytes)
      && (maxLines == 0 || Lines(entries) <= maxLines)
    }

    function Trim(entries: seq<Entry>): seq<Entry> {
      if entries == [] || Fit(entries) then entries else Trim(entries[1..])
    }

    /** What a frame becomes. More than 1024 bytes are not held. */
    function Put(s: Shelf, bytes: seq<Byte>): Shelf {
      if mode == Disabled || bytes == [] then s
      else
        var recorded := if mode == RawBytes || mode == Both then bytes else [];
        var (text, rest) := if mode == PlainText || mode == Both then Absorb(s.held, bytes) else ([], []);
        Shelf(Trim(s.entries + [Entry(recorded, text)]), if |rest| > 1024 then [] else rest)
    }

    function Finish(s: Shelf): Shelf {
      if s.held == [] then s else Shelf(Trim(s.entries + [Entry([], Strip(s.held))]), [])
    }

    function After(ops: seq<Op>): Shelf {
      if ops == [] then Shelf([], [])
      else
        var before := After(ops[..|ops| - 1]);
        match ops[|ops| - 1]
        case Feed(bytes) => Put(before, bytes)
        case Flush => Finish(before)
    }
  }

  function RawsOf(entries: seq<Entry>): seq<Byte> {
    if entries == [] then [] else entries[0].raw + RawsOf(entries[1..])
  }

  function TextsOf(entries: seq<Entry>): seq<Byte> {
    if entries == [] then [] else entries[0].text + TextsOf(entries[1..])
  }

  lemma {:induction false} JoinEntries(limits: Limits, a: seq<Entry>, b: seq<Entry>)
    ensures RawsOf(a + b) == RawsOf(a) + RawsOf(b) && TextsOf(a + b) == TextsOf(a) + TextsOf(b)
    ensures limits.Lines(a + b) == limits.Lines(a) + limits.Lines(b)
    decreases |a|
  {
    if a == [] {
      assert a + b == b;
    } else {
      assert (a + b)[1..] == a[1..] + b;
      JoinEntries(limits, a[1..], b);
      Regroup(a[0].raw, RawsOf(a[1..]), RawsOf(b));
      Regroup(a[0].text, TextsOf(a[1..]), TextsOf(b));
    }
  }

  lemma OneEntry(limits: Limits, e: Entry)
    ensures RawsOf([e]) == e.raw && TextsOf([e]) == e.text && limits.Lines([e]) == limits.LinesOf(e)
  {
    assert [e][1..] == [];
    assert e.raw + [] == e.raw && e.text + [] == e.text;
  }

  /** The transcript's count of newlines is the number of LFs. */
  lemma {:induction false} CountIsExact(s: seq<Byte>)
    ensures CountNewlines(s) == multiset(s)[0x0A]
    decreases |s|
  {
    if s != [] {
      CountIsExact(s[1..]);
      assert s == [s[0]] + s[1..];
      assert multiset(s) == multiset([s[0]]) + multiset(s[1..]);
    }
  }

  /** The least number of oldest entries whose removal makes the rest fit is the number trimmed. */
  lemma {:induction false} TrimIsLeast(limits: Limits, entries: seq<Entry>, n: nat)
    requires n <= |entries| && (n == |entries| || limits.Fit(entries[n..]))
    requires forall j :: 0 <= j < n ==> !limits.Fit(entries[j..])
    ensures limits.Trim(entries) == entries[n..]
    decreases n
  {
    assert entries[0..] == entries;
    if n > 0 {
      forall j | 0 <= j < n - 1
        ensures !limits.Fit(entries[1..][j..])
      {
        assert entries[1..][j..] == entries[j + 1..];
      }
      assert entries[1..][n - 1..] == entries[n..];
      TrimIsLeast(limits, entries[1..], n - 1);
    }
  }

  lemma {:induction false} TrimFits(limits: Limits, entries: seq<Entry>)
    ensures limits.Fit(limits.Trim(entries))
    decreases |entries|
  {
    if entries != [] && !limits.Fit(entries) {
      TrimFits(limits, entries[1..]);
    }
  }

  // ---------------------------------------------------------------------
  // The ledger keeps the shelf
  // ---------------------------------------------------------------------

  function ChunkFor(limits: Limits, e: Entry): Chunk { Chunk(|e.raw|, |e.text|, limits.LinesOf(e)) }

  predicate Keeps(l: Log, limits: Limits, entries: seq<Entry>) {
    && l.mode == limits.mode && l.maxBytes == limits.maxBytes && l.maxLines == limits.maxLines
    && l.raw == RawsOf(entries) && l.plain == TextsOf(entries) && l.totalLines == limits.Lines(entries)
    && |l.chunks| == |entries| && forall i :: 0 <= i < |entries| ==> l.chunks[i] == ChunkFor(limits, entries[i])
  }

  lemma {:induction false} TotalsOfEntries(l: Log, limits: Limits, entries: seq<Entry>, k: nat)
    requires Keeps(l, limits, entries) && k <= |entries|
    ensures Total(l.chunks, k)
      == Chunk(|RawsOf(entries[..k])|, |TextsOf(entries[..k])|, limits.Lines(entries[..k]))
    decreases k
  {
    if k == 0 {
      assert entries[..0] == [];
    } else {
      hide RawsOf, TextsOf;
      TotalsOfEntries(l, limits, entries, k - 1);
      assert entries[..k] == entries[..k - 1] + [entries[k - 1]];
      JoinEntries(limits, entries[..k - 1], [entries[k - 1]]);
      OneEntry(limits, entries[k - 1]);
    }
  }

  lemma KeepsIsExact(l: Log, limits: Limits, entries: seq<Entry>)
    requires Keeps(l, limits, entries)
    ensures Exact(l)
  {
    TotalsOfEntries(l, limits, entries, |entries|);
    assert entries[..|entries|] == entries;
  }

  lemma OverIsUnfit(l: Log, limits: Limits, entries: seq<Entry>, k: nat)
    requires Keeps(l, limits, entries) && k <= |entries|
    ensures Accounted(l) && (OverAfter(l, k) <==> !limits.Fit(entries[k..]))
  {
    hide RawsOf, TextsOf;
    KeepsIsExact(l, limits, entries);
    TotalsOfEntries(l, limits, entries, k);
    assert entries == entries[..k] + entries[k..];
    JoinEntries(limits, entries[..k], entries[k..]);
  }

  /** Enforcing the limits on the ledger trims the shelf. */
  lemma EnforceTrims(l: Log, limits: Limits, entries: seq<Entry>)
    requires Keeps(l, limits, entries)
    ensures Accounted(l) && Keeps(Enforce(l), limits, limits.Trim(entries)) && Enforce(l).pending == l.pending
  {
    hide RawsOf, TextsOf, Keeps, limits.Fit, limits.Trim;
    KeepsIsExact(l, limits, entries);
    SameLength(l, limits, entries);
    var n := LeastFrom(l, 0);
    forall j | 0 <= j <= |entries|
      ensures OverAfter(l, j) <==> !limits.Fit(entries[j..])
    {
      OverIsUnfit(l, limits, entries, j);
    }
    TrimIsLeast(limits, entries, n);
    DropKeeps(l, limits, entries, n);
  }

  lemma SameLength(l: Log, limits: Limits, entries: seq<Entry>)
    requires Keeps(l, limits, entries)
    ensures |l.chunks| == |entries|
  {
  }

  lemma DropKeeps(l: Log, limits: Limits, entries: seq<Entry>, n: nat)
    requires Keeps(l, limits, entries) && n <= |entries| && Accounted(l)
    ensures Keeps(Without(l, n), limits, entries[n..])
  {
    hide RawsOf, TextsOf, Accounted;
    TotalsOfEntries(l, limits, entries, n);
    assert entries == entries[..n] + entries[n..];
    JoinEntries(limits, entries[..n], entries[n..]);
  }

  /** A recording more, on the ledger and on the shelf. */
  lemma KeepsSnoc(l: Log, limits: Limits, entries: seq<Entry>, e: Entry, after: Log)
    requires Keeps(l, limits, entries)
    requires after == l.(
      raw := l.raw + e.raw, plain := l.plain + e.text, chunks := l.chunks + [ChunkFor(limits, e)],
      totalLines := l.totalLines + limits.LinesOf(e), pending := after.pending, nextRaw := after.nextRaw,
      nextPlain := after.nextPlain)
    ensures Keeps(after, limits, entries + [e])
  {
    hide RawsOf, TextsOf;
    JoinEntries(limits, entries, [e]);
    OneEntry(limits, e);
  }

  lemma PutIsKept(l: Log, limits: Limits, s: Shelf, bytes: seq<Byte>)
    requires Keeps(l, limits, s.entries) && l.pending == s.held && QuietOp(l, Feed(bytes)) && Accounted(l)
    requires l.mode.Plain() || l.pending == []
    ensures
      var after, put := Step(l, Feed(bytes)), limits.Put(s, bytes);
      && Keeps(after, limits, put.entries) && after.pending == put.held
      && (after.mode.Plain() || after.pending == [])
  {
    hide RawsOf, TextsOf, Absorb, Strip, Enforce, CountNewlines, Accounted;
    if !Ignored(l, bytes) {
      var a := Appended(l, bytes);
      var e := Entry(if l.mode.Raw() then bytes else [], TextOfFrame(l, bytes));
      CountIsExact(bytes);
      CountIsExact(e.text);
      assert l.raw + [] == l.raw && (l.plain + e.text) + [] == l.plain + e.text;
      AppendedIsAccounted(l, bytes);
      KeepsSnoc(l, limits, s.entries, e, a);
      EnforceTrims(a, limits, s.entries + [e]);
    }
  }

  lemma FinishIsKept(l: Log, limits: Limits, s: Shelf)
    requires Keeps(l, limits, s.entries) && l.pending == s.held && Accounted(l)
    requires l.mode.Plain() || l.pending == []
    ensures
      var after, finished := Step(l, Flush), limits.Finish(s);
      && Keeps(after, limits, finished.entries) && after.pending == finished.held
      && (after.mode.Plain() || after.pending == [])
  {
    hide RawsOf, TextsOf, Strip, Enforce, CountNewlines, Accounted;
    if l.pending != [] {
      var d, text := Drained(l), Strip(l.pending);
      CountIsExact(text);
      assert l.raw + [] == l.raw;
      DrainedIsAccounted(l);
      KeepsSnoc(l, limits, s.entries, Entry([], text), d);
      EnforceTrims(d, limits, s.entries + [Entry([], text)]);
    }
  }

  /** In every run without text from a forced flush the transcript keeps the shelf. */
  lemma {:induction false} TranscriptKeepsTheShelf(mode: TranscriptMode, maxBytes: nat, maxLines: nat, ops: seq<Op>)
    requires Quiet(Empty(mode, maxBytes, maxLines), ops)
    ensures
      var l, limits := Run(Empty(mode, maxBytes, maxLines), ops), Limits(mode, maxBytes, maxLines);
      && Keeps(l, limits, limits.After(ops).entries) && l.pending == limits.After(ops).held
      && (mode.Plain() || l.pending == [])
    decreases |ops|
  {
    hide Step, Keeps, QuietOp;
    var l0, limits := Empty(mode, maxBytes, maxLines), Limits(mode, maxBytes, maxLines);
    if ops == [] {
      EmptyShelf(mode, maxBytes, maxLines);
    } else {
      var n := |ops| - 1;
      TranscriptKeepsTheShelf(mode, maxBytes, maxLines, ops[..n]);
      var l, s := Run(l0, ops[..n]), limits.After(ops[..n]);
      KeepsMode(l, limits, s.entries);
      match ops[n]
      case Feed(bytes) =>
        PutIsKept(l, limits, s, bytes);
        KeepsMode(Step(l, ops[n]), limits, limits.Put(s, bytes).entries);
      case Flush =>
        FinishIsKept(l, limits, s);
        KeepsMode(Step(l, ops[n]), limits, limits.Finish(s).entries);
    }
  }

  lemma EmptyShelf(mode: TranscriptMode, maxBytes: nat, maxLines: nat)
    ensures Keeps(Empty(mode, maxBytes, maxLines), Limits(mode, maxBytes, maxLines), [])
  {
  }

  lemma KeepsMode(l: Log, limits: Limits, entries: seq<Entry>)
    requires Keeps(l, limits, entries)
    ensures l.mode == limits.mode
  {
  }

  // ---------------------------------------------------------------------
  // What the limits limit
  // ---------------------------------------------------------------------

  lemma {:induction false} LinesAreFeeds(limits: Limits, entries: seq<Entry>)
    ensures limits.mode == PlainText ==> limits.Lines(entries) == multiset(TextsOf(entries))[0x0A]
    ensures limits.mode == RawBytes ==> limits.Lines(entries) == multiset(RawsOf(entries))[0x0A]
    ensures limits.mode == Both ==>
      && limits.Lines(entries) >= multiset(RawsOf(entries))[0x0A]
      && limits.Lines(entries) >= multiset(TextsOf(entries))[0x0A]
    decreases |entries|
  {
    if entries != [] {
      LinesAreFeeds(limits, entries[1..]);
      assert multiset(RawsOf(entries)) == multiset(entries[0].raw) + multiset(RawsOf(entries[1..]));
      assert multiset(TextsOf(entries)) == multiset(entries[0].text) + multiset(TextsOf(entries[1..]));
    }
  }

  lemma {:induction false} OnlyWhatIsRecorded(limits: Limits, ops: seq<Op>)
    ensures limits.mode == RawBytes || limits.mode == Disabled ==>
      TextsOf(limits.After(ops).entries) == [] && limits.After(ops).held == []
    ensures limits.mode == PlainText || limits.mode == Disabled ==> RawsOf(limits.After(ops).entries) == []
    decreases |ops|
  {
    hide limits.Fit, Absorb, Strip;
    if ops != [] {
      var before := limits.After(ops[..|ops| - 1]);
      OnlyWhatIsRecorded(limits, ops[..|ops| - 1]);
      match ops[|ops| - 1]
      case Feed(bytes) =>
        if limits.mode != Disabled && bytes != [] {
          var text := if limits.mode == RawBytes then [] else Absorb(before.held, bytes).0;
          NothingAdded(limits, before.entries, Entry(if limits.mode == PlainText then [] else bytes, text));
        }
      case Flush =>
        if before.held != [] {
          NothingAdded(limits, before.entries, Entry([], Strip(before.held)));
        }
    }
  }

  lemma NothingAdded(limits: Limits, entries: seq<Entry>, e: Entry)
    ensures RawsOf(entries) == [] && e.raw == [] ==> RawsOf(limits.Trim(entries + [e])) == []
    ensures TextsOf(entries) == [] && e.text == [] ==> TextsOf(limits.Trim(entries + [e])) == []
  {
    JoinEntries(limits, entries, [e]);
    OneEntry(limits, e);
    TrimTakes(limits, entries + [e]);
  }

  lemma {:induction false} TrimTakes(limits: Limits, entries: seq<Entry>)
    ensures RawsOf(entries) == [] ==> RawsOf(limits.Trim(entries)) == []
    ensures TextsOf(entries) == [] ==> TextsOf(limits.Trim(entries)) == []
    decreases |entries|
  {
    hide limits.Fit;
    if entries != [] && !limits.Fit(entries) {
      TrimTakes(limits, entries[1..]);
    }
  }

  lemma {:induction false} AfterFits(limits: Limits, ops: seq<Op>)
    ensures limits.Fit(limits.After(ops).entries)
    decreases |ops|
  {
    hide limits.Fit, Absorb, Strip;
    if ops == [] {
      NothingFits(limits);
    } else {
      var before := limits.After(ops[..|ops| - 1]);
      AfterFits(limits, ops[..|ops| - 1]);
      match ops[|ops| - 1]
      case Feed(bytes) =>
        if limits.mode != Disabled && bytes != [] {
          var raw := if limits.mode == RawBytes || limits.mode == Both then bytes else [];
          var text := if limits.mode == PlainText || limits.mode == Both then Absorb(before.held, bytes).0 else [];
          TrimFits(limits, before.entries + [Entry(raw, text)]);
        }
      case Flush =>
        TrimFits(limits, before.entries + [Entry([], Strip(before.held))]);
    }
  }

  lemma NothingFits(limits: Limits)
    ensures limits.Fit([])
  {
  }

  /**
   * The limits bound what is really there: the bytes and text retained together, and the LFs in either. The line
   * count is the number of LFs where one form is recorded, and no smaller than either where both are.
   */
  lemma LimitsBoundWhatIsKept(mode: TranscriptMode, maxBytes: nat, maxLines: nat, ops: seq<Op>)
    requires Quiet(Empty(mode, maxBytes, maxLines), ops)
    ensures
      var l := Run(Empty(mode, maxBytes, maxLines), ops);
      && (maxBytes > 0 ==> |l.raw| + |l.plain| <= maxBytes)
      && (maxLines > 0 ==> multiset(l.raw)[0x0A] <= maxLines && multiset(l.plain)[0x0A] <= maxLines)
      && (mode == RawBytes ==> l.totalLines == multiset(l.raw)[0x0A])
      && (mode == PlainText ==> l.totalLines == multiset(l.plain)[0x0A])
      && (mode == Both ==> l.totalLines >= multiset(l.raw)[0x0A] && l.totalLines >= multiset(l.plain)[0x0A])
      && (mode == RawBytes || mode == Disabled ==> l.plain == [] && l.pending == [])
      && (mode == PlainText || mode == Disabled ==> l.raw == [])
  {
    hide Run, Quiet, RawsOf, TextsOf;
    var limits := Limits(mode, maxBytes, maxLines);
    TranscriptKeepsTheShelf(mode, maxBytes, maxLines, ops);
    AfterFits(limits, ops);
    LinesAreFeeds(limits, limits.After(ops).entries);
    OnlyWhatIsRecorded(limits, ops);
    if mode == Disabled {
      DisabledIsEmpty(limits, ops);
    }
  }

  lemma {:induction false} DisabledIsEmpty(limits: Limits, ops: seq<Op>)
    requires limits.mode == Disabled
    ensures limits.After(ops) == Shelf([], [])
    decreases |ops|
  {
    if ops != [] {
      DisabledIsEmpty(limits, ops[..|ops| - 1]);
    }
  }
}
