/** The transcript object: methods over buffers and counters, each tied to its effect in `Retention`. */
module Transcript {
  import opened Bytes
  import opened EscapeScan
  import opened StripAnsi
  import opened Retention

  /** The enforcement loop after `n` chunks: what is gone, what is left, and that every smaller number was too few. */
  ghost predicate Dropping(l: Log, chunks: seq<Chunk>, n: nat, rawDrop: int, plainDrop: int,
                           remainingRaw: int, remainingPlain: int, remainingLines: int)
  {
    && Accounted(l) && n <= |l.chunks| && chunks == l.chunks[n..]
    && rawDrop == Total(l.chunks, n).rawLen <= |l.raw|
    && plainDrop == Total(l.chunks, n).plainLen <= |l.plain|
    && remainingRaw == |l.raw| - rawDrop
    && remainingPlain == |l.plain| - plainDrop
    && remainingLines == l.totalLines - Total(l.chunks, n).lines >= 0
    && (forall j :: 0 <= j < n ==> OverAfter(l, j))
  }

  lemma DroppingStep(l: Log, chunks: seq<Chunk>, n: nat, rawDrop: int, plainDrop: int,
                     remainingRaw: int, remainingPlain: int, remainingLines: int)
    requires Dropping(l, chunks, n, rawDrop, plainDrop, remainingRaw, remainingPlain, remainingLines)
    requires chunks != []
    ensures remainingRaw >= 0 && remainingPlain >= 0
    ensures OverAfter(l, n) <==> l.Over(remainingRaw + remainingPlain, remainingLines)
    ensures OverAfter(l, n) ==>
      var c := chunks[0];
      Dropping(l, chunks[1..], n + 1, rawDrop + c.rawLen, plainDrop + c.plainLen,
               remainingRaw - c.rawLen, remainingPlain - c.plainLen, remainingLines - c.lines)
  {
    TotalGrows(l.chunks, n + 1, |l.chunks|);
    assert chunks[1..] == l.chunks[n + 1..];
  }

  lemma ChunkShape(l: Log, bytes: seq<Byte>)
    ensures var c := ChunkOf(l, bytes);
      && c.rawLen == (if l.mode.Raw() then |bytes| else 0)
      && (!l.mode.Plain() ==> c.plainLen == 0 && c.lines == CountNewlines(bytes))
  {
  }

  /** A log that received the frame's bytes, text and chunk, field by field. */
  lemma AppendedIs(l: Log, bytes: seq<Byte>, after: Log)
    requires Accounted(l)
    requires after == l.(raw := after.raw, plain := after.plain, pending := after.pending, nextRaw := after.nextRaw,
                         nextPlain := after.nextPlain, totalLines := after.totalLines, chunks := after.chunks)
    requires after.raw == (if l.mode.Raw() then l.raw + bytes else l.raw)
    requires l.mode.Plain() ==> after.plain == Appended(l, bytes).plain && after.pending == Appended(l, bytes).pending
    requires !l.mode.Plain() ==> after.plain == l.plain && after.pending == l.pending
    requires after.chunks == l.chunks + [ChunkOf(l, bytes)]
    requires after.nextRaw == l.nextRaw + |bytes| && after.nextPlain == l.nextPlain + ChunkOf(l, bytes).plainLen
    requires after.totalLines == l.totalLines + ChunkOf(l, bytes).lines
    ensures after == Appended(l, bytes) && Accounted(after)
  {
    hide Accounted, CountNewlines, Total, TextOfFrame, ForcedText, Carried;
    AppendedIsAccounted(l, bytes);
    NoText(l, bytes);
  }

  /** Without text nothing is forced. */
  lemma NoText(l: Log, bytes: seq<Byte>)
    ensures !l.mode.Plain() ==> TextOfFrame(l, bytes) == [] && ForcedText(l, bytes) == []
    ensures !l.mode.Plain() ==> Appended(l, bytes).plain == l.plain && Appended(l, bytes).pending == l.pending
  {
  }

  class Transcript {
    const mode: TranscriptMode
    const maxBytes: nat
    const maxLines: nat
    var raw: seq<Byte>
    var plain: seq<Byte>
    var chunks: seq<Chunk>
    var nextRawOffset: nat
    var nextPlainOffset: nat
    var totalLines: nat
    var pendingPlainPrefix: seq<Byte>

    /** The abstract value of the object. */
    function View(): Log
      reads this
    {
      Log(mode, maxBytes, maxLines, raw, plain, chunks, nextRawOffset, nextPlainOffset, totalLines, pendingPlainPrefix)
    }

    ghost predicate Valid()
      reads this
    {
      Accounted(View())
    }

    constructor (mode: TranscriptMode, maxBytes: nat, maxLines: nat)
      ensures View() == Empty(mode, maxBytes, maxLines) && Valid()
    {
      this.mode, this.maxBytes, this.maxLines := mode, maxBytes, maxLines;
      raw, plain, chunks, pendingPlainPrefix := [], [], [], [];
      nextRawOffset, nextPlainOffset, totalLines := 0, 0, 0;
    }

    method Record(bytes: seq<Byte>) returns (offset: nat, rotated: Option<Rotation>)
      requires Valid()
      modifies this
      ensures Valid()
      ensures View() == Recorded(old(View()), bytes)
      ensures offset == RecordedOffset(old(View()), bytes)
      ensures rotated == RecordedRotation(old(View()), bytes)
    {
      ghost var before := View();
      if mode.Disabled? || bytes == [] {
        offset := nextRawOffset;
        nextRawOffset := nextRawOffset + |bytes|;
        return offset, None;
      }

      var rawLen := 0;
      if mode.RawBytes? || mode.Both? {
        raw := raw + bytes;
        rawLen := |bytes|;
      }

      var plainLen, lines := 0, CountNewlines(bytes);
      if mode.PlainText? || mode.Both? {
        plainLen, lines := AppendPlain(bytes, before);
      }
      ChunkShape(before, bytes);

      offset := if mode.PlainText? then nextPlainOffset else nextRawOffset;
      nextRawOffset := nextRawOffset + |bytes|;
      nextPlainOffset := nextPlainOffset + plainLen;
      totalLines := totalLines + lines;
      chunks := chunks + [Chunk(rawLen, plainLen, lines)];
      AppendedIs(before, bytes, View());
      rotated := EnforceLimits();
    }

    /** The plain-text half of recording a frame. */
    method AppendPlain(bytes: seq<Byte>, ghost l: Log) returns (plainLen: nat, lines: nat)
      requires mode.Plain() && mode == l.mode && bytes != []
      requires plain == l.plain && pendingPlainPrefix == l.pending
      modifies this`plain, this`pendingPlainPrefix
      ensures plain == Appended(l, bytes).plain
      ensures pendingPlainPrefix == Appended(l, bytes).pending
      ensures plainLen == ChunkOf(l, bytes).plainLen && lines == ChunkOf(l, bytes).lines
    {
      hide Strip, HoldBack, CountNewlines;
      var combined := if pendingPlainPrefix == [] then bytes else pendingPlainPrefix + bytes;
      assert combined == l.pending + bytes;
      var holdBack := TrailingIncompleteBytes(combined);
      var cut := |combined| - holdBack;
      var stripped := StripText(combined[..cut]);
      var strippedLines := CountNewlines(stripped);
      plain := plain + stripped;

      if holdBack > 0 {
        pendingPlainPrefix := combined[cut..];
      } else {
        pendingPlainPrefix := [];
      }
      assert pendingPlainPrefix == combined[cut..];
      if |pendingPlainPrefix| > MAX_PENDING_PREFIX_BYTES {
        var forced := StripText(pendingPlainPrefix);
        plain := plain + forced;
        pendingPlainPrefix := [];
      } else {
        assert plain + [] == plain;
      }
      plainLen := |stripped|;
      lines := if mode.Both? then Max(CountNewlines(bytes), strippedLines) else strippedLines;
    }

    method EnforceLimits() returns (rotated: Option<Rotation>)
      requires Valid()
      modifies this
      ensures Valid()
      ensures View() == Enforce(old(View()))
      ensures rotated == RotationOf(old(View()))
    {
      ghost var l := View();
      if maxBytes == 0 && maxLines == 0 {
        assert LeastFrom(l, 0) == 0 && Without(l, 0) == l;
        return None;
      }

      var chunksDropped, rawDrop, plainDrop := 0, 0, 0;
      var remainingRaw, remainingPlain, remainingLines := |raw|, |plain|, totalLines;
      while chunks != []
        invariant View() == l.(chunks := chunks)
        invariant Dropping(l, chunks, chunksDropped, rawDrop, plainDrop, remainingRaw, remainingPlain, remainingLines)
        decreases |chunks|
      {
        DroppingStep(l, chunks, chunksDropped, rawDrop, plainDrop, remainingRaw, remainingPlain, remainingLines);
        var overBytes := maxBytes > 0 && remainingRaw + remainingPlain > maxBytes;
        var overLines := maxLines > 0 && remainingLines > maxLines;
        if !overBytes && !overLines {
          break;
        }
        var chunk := chunks[0];
        chunks := chunks[1..];
        chunksDropped := chunksDropped + 1;
        rawDrop := rawDrop + chunk.rawLen;
        plainDrop := plainDrop + chunk.plainLen;
        remainingRaw := remainingRaw - chunk.rawLen;
        remainingPlain := remainingPlain - chunk.plainLen;
        remainingLines := remainingLines - chunk.lines;
      }

      assert chunksDropped == LeastFrom(l, 0) && |l.chunks| - chunksDropped == |chunks| by {
        LeastIsUnique(l, chunksDropped, LeastFrom(l, 0));
      }
      WithoutKeepsAccounts(l, chunksDropped);
      if chunksDropped > 0 {
        if rawDrop > 0 {
          raw := raw[Min(rawDrop, |raw|)..];
        }
        if plainDrop > 0 {
          plain := plain[Min(plainDrop, |plain|)..];
        }
        totalLines := remainingLines;
        rotated := Some(Rotation(chunksDropped, rawDrop, plainDrop));
      } else {
        rotated := None;
      }
    }

    method FlushPending() returns (rotated: Option<Rotation>)
      requires Valid()
      modifies this
      ensures Valid()
      ensures View() == Flushed(old(View()))
      ensures rotated == FlushedRotation(old(View()))
    {
      ghost var before := View();
      if pendingPlainPrefix == [] {
        return None;
      }
      var forced := StripText(pendingPlainPrefix);
      var lines := CountNewlines(forced);
      plain := plain + forced;
      pendingPlainPrefix := [];
      nextPlainOffset := nextPlainOffset + |forced|;
      totalLines := totalLines + lines;
      chunks := chunks + [Chunk(0, |forced|, lines)];
      assert View() == Drained(before);
      DrainedIsAccounted(before);
      rotated := EnforceLimits();
    }
  }
}
