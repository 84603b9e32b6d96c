/** The retrying PTY writer, against a device that may accept any part of a write or fail in any way at any time. */
module PtyWriter {
  import opened Bytes

  datatype WriteReply = Wrote(count: nat) | WriteTransient | WriteFatal
  datatype FlushReply = FlushedOk | FlushTransient | FlushFatal

  datatype Failure = ZeroWrite | WriteError | FlushError

  /** How many bytes were written, and why not all of it succeeded if it did not. */
  datatype WriteOutcome = WriteOutcome(bytesWritten: nat, failure: Option<Failure>)

  /** The child's side of the PTY: every reply is arbitrary, and `accepted` is what actually went through. */
  class PtyDevice {
    const writeReplies: nat -> WriteReply
    const flushReplies: nat -> FlushReply
    var writes: nat
    var flushes: nat
    var accepted: seq<Byte>

    constructor (writeReplies: nat -> WriteReply, flushReplies: nat -> FlushReply)
      ensures this.writeReplies == writeReplies && this.flushReplies == flushReplies
      ensures writes == 0 && flushes == 0 && accepted == []
    {
      this.writeReplies, this.flushReplies := writeReplies, flushReplies;
      writes, flushes, accepted := 0, 0, [];
    }

    /** A write never reports more than it was given. */
    method Write(buf: seq<Byte>) returns (reply: WriteReply)
      modifies this
      ensures writes == old(writes) + 1 && flushes == old(flushes)
      ensures reply == match writeReplies(old(writes))
        case Wrote(n) => Wrote(Min(n, |buf|))
        case other => other
      ensures accepted == old(accepted) + if reply.Wrote? then buf[..reply.count] else []
    {
      reply := writeReplies(writes);
      writes := writes + 1;
      if reply.Wrote? {
        reply := Wrote(Min(reply.count, |buf|));
        accepted := accepted + buf[..reply.count];
      }
    }

    method Flush() returns (reply: FlushReply)
      modifies this`flushes
      ensures flushes == old(flushes) + 1 && reply == flushReplies(old(flushes))
    {
      reply := flushReplies(flushes);
      flushes := flushes + 1;
    }

    /** There were writes from number `from` on, and the reply to the latest was `reply`. */
    ghost predicate LastWrite(from: nat, reply: WriteReply)
      reads this
    {
      writes > from && writeReplies(writes - 1) == reply
    }

    ghost predicate LastFlush(from: nat, reply: FlushReply)
      reads this
    {
      flushes > from && flushReplies(flushes - 1) == reply
    }

    /** Of the `n` write replies before number `k` one was no transient error. */
    ghost predicate WriteChance(k: nat, n: nat) {
      exists j {:trigger writeReplies(j)} :: k - n <= j < k && j >= 0 && !writeReplies(j).WriteTransient?
    }

    ghost predicate FlushChance(k: nat, n: nat) {
      exists j {:trigger flushReplies(j)} :: k - n <= j < k && j >= 0 && !flushReplies(j).FlushTransient?
    }

    /** Since number `from`, no write was made behind `n` transient errors in a row. */
    ghost predicate WritesWithin(from: nat, n: nat)
      reads this`writes
    {
      forall k :: from + n <= k < writes ==> WriteChance(k, n)
    }

    ghost predicate FlushesWithin(from: nat, n: nat)
      reads this`flushes
    {
      forall k :: from + n <= k < flushes ==> FlushChance(k, n)
    }

    /** There were `n` writes or more from number `from` on, and the last `n` replies were all transient errors. */
    ghost predicate TransientWrites(from: nat, n: nat)
      reads this
    {
      && writes >= from + n
      && forall k {:trigger writeReplies(k)} :: writes - n <= k < writes ==> writeReplies(k).WriteTransient?
    }

    ghost predicate TransientFlushes(from: nat, n: nat)
      reads this
    {
      && flushes >= from + n
      && forall k {:trigger flushReplies(k)} :: flushes - n <= k < flushes ==> flushReplies(k).FlushTransient?
    }
  }

  /**
   * Writes all of `bytes`, retrying transient errors. Whatever happens the device accepted exactly the first
   * `bytesWritten` bytes; a write is given up only on a fatal reply, a zero-length write, or one transient error
   * more than the retries allow, all in a row and all within this call; and behind as many it is not tried again.
   */
  method WriteBytesRetrying(device: PtyDevice, bytes: seq<Byte>, maxTransientRetries: nat) returns (r: WriteOutcome)
    modifies device
    ensures r.bytesWritten <= |bytes|
    ensures device.accepted == old(device.accepted) + bytes[..r.bytesWritten]
    ensures r.failure.None? ==> r.bytesWritten == |bytes| && device.LastFlush(old(device.flushes), FlushedOk)
    ensures r.failure == Some(FlushError) ==> r.bytesWritten == |bytes|
    ensures r.failure == Some(ZeroWrite) || r.failure == Some(WriteError) ==> r.bytesWritten < |bytes|
    ensures r.failure == Some(ZeroWrite) ==> device.LastWrite(old(device.writes), Wrote(0))
    ensures r.failure == Some(WriteError) ==>
      || device.LastWrite(old(device.writes), WriteFatal)
      || device.TransientWrites(old(device.writes), maxTransientRetries + 1)
    ensures r.failure == Some(FlushError) ==>
      || device.LastFlush(old(device.flushes), FlushFatal)
      || device.TransientFlushes(old(device.flushes), maxTransientRetries + 1)
    ensures device.writes >= old(device.writes) && device.flushes >= old(device.flushes)
    ensures device.WritesWithin(old(device.writes), maxTransientRetries + 1)
    ensures device.FlushesWithin(old(device.flushes), maxTransientRetries + 1)
  {
    var bytesWritten, retries: nat := 0, 0;
    while bytesWritten < |bytes|
      invariant 0 <= bytesWritten <= |bytes| && retries <= maxTransientRetries
      invariant device.accepted == old(device.accepted) + bytes[..bytesWritten]
      invariant device.TransientWrites(old(device.writes), retries)
      invariant device.writes >= old(device.writes) && device.flushes == old(device.flushes)
      invariant device.WritesWithin(old(device.writes), maxTransientRetries + 1)
      invariant device.writes - retries > old(device.writes) ==>
        !device.writeReplies(device.writes - retries - 1).WriteTransient?
      decreases |bytes| - bytesWritten, maxTransientRetries - retries
    {
      assert device.writes - retries > old(device.writes) ==>
        device.WriteChance(device.writes, maxTransientRetries + 1);
      var reply := device.Write(bytes[bytesWritten..]);
      match reply
      case Wrote(count) =>
        if count == 0 {
          return WriteOutcome(bytesWritten, Some(ZeroWrite));
        }
        assert bytes[..bytesWritten] + bytes[bytesWritten..][..count] == bytes[..bytesWritten + count];
        bytesWritten := bytesWritten + count;
        retries := 0;
      case WriteTransient =>
        if retries >= maxTransientRetries {
          return WriteOutcome(bytesWritten, Some(WriteError));
        }
        retries := retries + 1;
      case WriteFatal =>
        return WriteOutcome(bytesWritten, Some(WriteError));
    }
    assert bytes[..|bytes|] == bytes;
    var failed := RetryFlush(device, maxTransientRetries);
    return WriteOutcome(bytesWritten, if failed then Some(FlushError) else None);
  }

  method RetryFlush(device: PtyDevice, maxTransientRetries: nat) returns (failed: bool)
    modifies device`flushes
    ensures device.flushes > old(device.flushes)
    ensures !failed <==> device.LastFlush(old(device.flushes), FlushedOk)
    ensures failed ==>
      || device.LastFlush(old(device.flushes), FlushFatal)
      || device.TransientFlushes(old(device.flushes), maxTransientRetries + 1)
    ensures device.FlushesWithin(old(device.flushes), maxTransientRetries + 1)
  {
    var retries: nat := 0;
    while true
      invariant retries <= maxTransientRetries && device.TransientFlushes(old(device.flushes), retries)
      invariant device.flushes >= old(device.flushes)
      invariant device.FlushesWithin(old(device.flushes), maxTransientRetries + 1)
      invariant device.flushes - retries == old(device.flushes)
      decreases maxTransientRetries - retries
    {
      var reply := device.Flush();
      match reply
      case FlushedOk => return false;
      case FlushTransient =>
        if retries >= maxTransientRetries {
          return true;
        }
        retries := retries + 1;
      case FlushFatal => return true;
    }
  }
}
