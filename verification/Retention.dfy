/** What a transcript is: its buffers, its chunk ledger, and the effect of every operation on them. */
module Retention {
  import opened Bytes
  import opened StripAnsi
  import opened SplitSafety

  const MAX_PENDING_PREFIX_BYTES: nat := 1024

  datatype TranscriptMode = Disabled | RawBytes | PlainText | Both
  {
    predicate Raw() { RawBytes? || Both? }
    predicate Plain() { PlainText? || Both? }
  }

  datatype Chunk = Chunk(rawLen: nat, plainLen: nat, lines: nat)

  datatype Rotation = Rotation(chunksDropped: nat, rawBytesDropped: nat, plainBytesDropped: nat)
  {
    function BytesDropped(): nat { rawBytesDropped + plainBytesDropped }
  }

  datatype Log = Log(
    mode: TranscriptMode, maxBytes: nat, maxLines: nat,
    raw: seq<Byte>, plain: seq<Byte>, chunks: seq<Chunk>,
    nextRaw: nat, nextPlain: nat, totalLines: nat, pending: seq<Byte>)
  {
    function RetainedRawStart(): nat { if nextRaw < |raw| then 0 else nextRaw - |raw| }
    function RetainedPlainStart(): nat { if nextPlain < |plain| then 0 else nextPlain - |plain| }

    /** With `bytes` of text and `lines` of newlines kept, is a limit exceeded? A limit of 0 is no limit. */
    predicate Over(bytes: nat, lines: nat) {
      (maxBytes > 0 && bytes > maxBytes) || (maxLines > 0 && lines > maxLines)
    }

    predicate WithinLimits() { !Over(|raw| + |plain|, totalLines) }
  }

  function Empty(mode: TranscriptMode, maxBytes: nat, maxLines: nat): Log {
    Log(mode, maxBytes, maxLines, [], [], [], 0, 0, 0, [])
  }

  function CountNewlines(s: seq<Byte>): nat {
    if s == [] then 0 else (if s[0] == LF then 1 else 0) + CountNewlines(s[1..])
  }

  // ---------------------------------------------------------------------
  // The chunk ledger
  // ---------------------------------------------------------------------

  /** The oldest `k` chunks taken together. */
  function Total(chunks: seq<Chunk>, k: nat): Chunk
    requires k <= |chunks|
  {
    if k == 0 then Chunk(0, 0, 0)
    else
      var t, c := Total(chunks, k - 1), chunks[k - 1];
      Chunk(t.rawLen + c.rawLen, t.plainLen + c.plainLen, t.lines + c.lines)
  }

  /** All chunks taken together. */
  function Sum(chunks: seq<Chunk>): Chunk { Total(chunks, |chunks|) }

  lemma {:induction false} TotalGrows(chunks: seq<Chunk>, j: nat, k: nat)
    requires j <= k <= |chunks|
    ensures Total(chunks, j).rawLen <= Total(chunks, k).rawLen
    ensures Total(chunks, j).plainLen <= Total(chunks, k).plainLen
    ensures Total(chunks, j).lines <= Total(chunks, k).lines
    decreases k - j
  {
    if j < k {
      TotalGrows(chunks, j, k - 1);
    }
  }

  lemma {:induction false} TotalOfPrefix(chunks: seq<Chunk>, more: seq<Chunk>, k: nat)
    requires k <= |chunks|
    ensures Total(chunks + more, k) == Total(chunks, k)
  {
    if k > 0 {
      TotalOfPrefix(chunks, more, k - 1);
    }
  }

  lemma SumSnoc(chunks: seq<Chunk>, c: Chunk)
    ensures Sum(chunks + [c])
      == Chunk(Sum(chunks).rawLen + c.rawLen, Sum(chunks).plainLen + c.plainLen, Sum(chunks).lines + c.lines)
  {
    TotalOfPrefix(chunks, [c], |chunks|);
  }

  lemma {:induction false} TotalSplits(chunks: seq<Chunk>, k: nat, n: nat)
    requires k <= n <= |chunks|
    ensures var a, b, c := Total(chunks, k), Total(chunks[k..], n - k), Total(chunks, n);
      c == Chunk(a.rawLen + b.rawLen, a.plainLen + b.plainLen, a.lines + b.lines)
    decreases n
  {
    if k < n {
      TotalSplits(chunks, k, n - 1);
      assert chunks[k..][n - 1 - k] == chunks[n - 1];
    }
  }

  /** The ledger accounts for the raw buffer and the line count exactly, and for no more text than there is. */
  predicate Accounted(l: Log) {
    && Sum(l.chunks).rawLen == |l.raw|
    && Sum(l.chunks).plainLen <= |l.plain|
    && Sum(l.chunks).lines == l.totalLines
  }

  /** The ledger also accounts for all of the text. */
  predicate Exact(l: Log) { Accounted(l) && Sum(l.chunks).plainLen == |l.plain| }

  /** A limit is exceeded when only the chunks after the oldest `k` are kept. */
  predicate OverAfter(l: Log, k: nat)
    requires k <= |l.chunks| && Accounted(l)
  {
    var t := Total(l.chunks, k);
    TotalGrows(l.chunks, k, |l.chunks|);
    l.Over(|l.raw| - t.rawLen + |l.plain| - t.plainLen, l.totalLines - t.lines)
  }

  // ---------------------------------------------------------------------
  // Dropping the oldest chunks
  // ---------------------------------------------------------------------

  /** `k` is the least number of oldest chunks whose removal meets both limits, or all of them. */
  predicate Least(l: Log, k: nat)
    requires Accounted(l)
  {
    && k <= |l.chunks|
    && (k < |l.chunks| ==> !OverAfter(l, k))
    && (forall j :: 0 <= j < k ==> OverAfter(l, j))
  }

  lemma LeastIsUnique(l: Log, j: nat, k: nat)
    requires Accounted(l) && Least(l, j) && Least(l, k)
    ensures j == k
  {
  }

  function LeastFrom(l: Log, k: nat): (n: nat)
    requires Accounted(l) && k <= |l.chunks|
    requires forall j :: 0 <= j < k ==> OverAfter(l, j)
    ensures Least(l, n)
    decreases |l.chunks| - k
  {
    if k == |l.chunks| || !OverAfter(l, k) then k else LeastFrom(l, k + 1)
  }

  /** The log without its `k` oldest chunks. */
  function Without(l: Log, k: nat): Log
    requires k <= |l.chunks| && Accounted(l)
  {
    var t := Total(l.chunks, k);
    TotalGrows(l.chunks, k, |l.chunks|);
    l.(raw := l.raw[t.rawLen..], plain := l.plain[t.plainLen..], chunks := l.chunks[k..],
       totalLines := l.totalLines - t.lines)
  }

  function Enforce(l: Log): Log
    requires Accounted(l)
  {
    Without(l, LeastFrom(l, 0))
  }

  function RotationOf(l: Log): Option<Rotation>
    requires Accounted(l)
  {
    var k := LeastFrom(l, 0);
    var t := Total(l.chunks, k);
    if k == 0 then None else Some(Rotation(k, t.rawLen, t.plainLen))
  }

  lemma WithoutKeepsAccounts(l: Log, k: nat)
    requires Accounted(l) && k <= |l.chunks|
    ensures Accounted(Without(l, k)) && (Exact(l) <==> Exact(Without(l, k)))
    ensures OverAfter(l, k) <==> !Without(l, k).WithinLimits()
  {
    TotalSplits(l.chunks, k, |l.chunks|);
    TotalGrows(l.chunks, k, |l.chunks|);
  }

  /** Enforcement meets both limits when the ledger accounts for all of the text. */
  lemma EnforceMeetsLimits(l: Log)
    requires Exact(l)
    ensures Exact(Enforce(l)) && Enforce(l).WithinLimits()
  {
    var k := LeastFrom(l, 0);
    WithoutKeepsAccounts(l, k);
    if k == |l.chunks| {
      assert Without(l, k).raw == [] && Without(l, k).plain == [];
    }
  }

  /** And no smaller number of chunks would have met them. */
  lemma EnforceDropsFewest(l: Log, k: nat)
    requires Accounted(l) && k <= |l.chunks| && Without(l, k).WithinLimits()
    ensures |l.chunks| - |Enforce(l).chunks| <= k
  {
    WithoutKeepsAccounts(l, k);
  }

  /** A rotation reports exactly what enforcement took away, and none is reported when nothing was. */
  lemma RotationCountsTheLoss(l: Log)
    requires Accounted(l)
    ensures
      var after := Enforce(l);
      match RotationOf(l)
      case None => after == l
      case Some(r) =>
        && r.chunksDropped == |l.chunks| - |after.chunks| > 0
        && r.rawBytesDropped == |l.raw| - |after.raw| && r.plainBytesDropped == |l.plain| - |after.plain|
        && r.BytesDropped() == (|l.raw| + |l.plain|) - (|after.raw| + |after.plain|)
  {
    var k := LeastFrom(l, 0);
    TotalGrows(l.chunks, k, |l.chunks|);
    if k == 0 {
      assert l.raw[0..] == l.raw && l.plain[0..] == l.plain && l.chunks[0..] == l.chunks;
    }
  }

  // ---------------------------------------------------------------------
  // Recording and flushing
  // ---------------------------------------------------------------------

  /** The text a frame adds for itself. */
  function TextOfFrame(l: Log, bytes: seq<Byte>): seq<Byte> {
    if l.mode.Plain() then Absorb(l.pending, bytes).0 else []
  }

  /** The bytes a frame would leave pending. */
  function Carried(l: Log, bytes: seq<Byte>): seq<Byte> {
    if l.mode.Plain() then Absorb(l.pending, bytes).1 else l.pending
  }

  /** An overlong pending prefix is stripped and given up; what it yields enters no ledger. */
  function ForcedText(l: Log, bytes: seq<Byte>): seq<Byte> {
    if l.mode.Plain() && |Carried(l, bytes)| > MAX_PENDING_PREFIX_BYTES then Strip(Carried(l, bytes)) else []
  }

  function ChunkOf(l: Log, bytes: seq<Byte>): Chunk {
    var text := TextOfFrame(l, bytes);
    Chunk(
      if l.mode.Raw() then |bytes| else 0,
      |text|,
      if l.mode.Both? then Max(CountNewlines(bytes), CountNewlines(text))
      else if l.mode.PlainText? then CountNewlines(text) else CountNewlines(bytes))
  }

  /** A recorded frame before the limits are enforced. */
  function Appended(l: Log, bytes: seq<Byte>): Log {
    var chunk := ChunkOf(l, bytes);
    var carried := Carried(l, bytes);
    l.(raw := if l.mode.Raw() then l.raw + bytes else l.raw,
       plain := l.plain + TextOfFrame(l, bytes) + ForcedText(l, bytes),
       pending := if l.mode.Plain() && |carried| > MAX_PENDING_PREFIX_BYTES then [] else carried,
       nextRaw := l.nextRaw + |bytes|,
       nextPlain := l.nextPlain + |TextOfFrame(l, bytes)|,
       totalLines := l.totalLines + chunk.lines,
       chunks := l.chunks + [chunk])
  }

  predicate Ignored(l: Log, bytes: seq<Byte>) { l.mode.Disabled? || bytes == [] }

  lemma AppendedIsAccounted(l: Log, bytes: seq<Byte>)
    requires Accounted(l)
    ensures Accounted(Appended(l, bytes))
    ensures Exact(Appended(l, bytes)) <==> Exact(l) && ForcedText(l, bytes) == []
  {
    SumSnoc(l.chunks, ChunkOf(l, bytes));
  }

  function Recorded(l: Log, bytes: seq<Byte>): Log
    requires Accounted(l)
  {
    if Ignored(l, bytes) then l.(nextRaw := l.nextRaw + |bytes|)
    else
      AppendedIsAccounted(l, bytes);
      Enforce(Appended(l, bytes))
  }

  function RecordedOffset(l: Log, bytes: seq<Byte>): nat {
    if !Ignored(l, bytes) && l.mode.PlainText? then l.nextPlain else l.nextRaw
  }

  function RecordedRotation(l: Log, bytes: seq<Byte>): Option<Rotation>
    requires Accounted(l)
  {
    if Ignored(l, bytes) then None
    else
      AppendedIsAccounted(l, bytes);
      RotationOf(Appended(l, bytes))
  }

  /** The end of the stream: the pending prefix becomes a chunk of its own. */
  function Drained(l: Log): Log {
    var text := Strip(l.pending);
    l.(plain := l.plain + text, pending := [], nextPlain := l.nextPlain + |text|,
       totalLines := l.totalLines + CountNewlines(text),
       chunks := l.chunks + [Chunk(0, |text|, CountNewlines(text))])
  }

  lemma DrainedIsAccounted(l: Log)
    requires Accounted(l)
    ensures Accounted(Drained(l)) && (Exact(Drained(l)) <==> Exact(l))
  {
    SumSnoc(l.chunks, Chunk(0, |Strip(l.pending)|, CountNewlines(Strip(l.pending))));
  }

  function Flushed(l: Log): Log
    requires Accounted(l)
  {
    if l.pending == [] then l
    else
      DrainedIsAccounted(l);
      Enforce(Drained(l))
  }

  function FlushedRotation(l: Log): Option<Rotation>
    requires Accounted(l)
  {
    if l.pending == [] then None
    else
      DrainedIsAccounted(l);
      RotationOf(Drained(l))
  }
}
