/** The complete-write loops of `main`: `get` copies each chunk it reads from the file
    to standard output (memory.c:138-159), `set` writes the payload to the file
    (memory.c:229-239) and then "OK\n" to standard output (memory.c:240-245). Each loop
    repeats `write` until every requested byte is accepted or a call makes no progress. */
module Transfer {
  import opened Bytes
  import opened Accumulator

  /** The `write` calls of one loop: given how many bytes are already written and how
      many remain, the count the call returns. */
  type WriteOracle = (nat, nat) -> int

  /** How a complete-write loop ends: every byte written, or stopped by a call that
      returned `reply <= 0` after `written` bytes. */
  datatype Outcome = Complete(written: int) | Aborted(written: int, reply: int)

  /** `write` keeps the POSIX promise: a call never reports more bytes than it was asked
      to write. */
  ghost predicate WithinRequest(write: WriteOracle)
  {
    forall done: nat, remaining: nat | remaining > 0 :: write(done, remaining) <= remaining
  }

  /** `write` never fails and always makes progress. */
  ghost predicate Progresses(write: WriteOracle)
  {
    forall done: nat, remaining: nat | remaining > 0 :: write(done, remaining) >= 1
  }

  /** The complete-write loop from `done` bytes written, for a `count`-byte request:
      it stops once `done` reaches `count` and aborts on a reply that is not positive.
      Whatever `write` answers, the count only grows, an abort happens short of
      `count`, and a normal exit never stops short of it. */
  function Drain(write: WriteOracle, count: int, done: nat): (r: Outcome)
    ensures done <= r.written
    ensures r.Complete? ==> count <= r.written && (done >= count ==> r.written == done)
    ensures r.Aborted? ==> r.written < count && r.reply <= 0
    decreases if done < count then count - done else 0
  {
    if done >= count then Complete(done)
    else
      var bytes := write(done, count - done);
      if bytes <= 0 then Aborted(done, bytes) else Drain(write, count, done + bytes)
  }

  /** With `write` keeping the POSIX promise, the count never passes `count`, so a
      normal exit has written exactly `count` bytes. */
  lemma {:induction false} DrainExact(write: WriteOracle, count: int, done: nat)
    requires WithinRequest(write) && done <= count
    ensures Drain(write, count, done).written <= count
    ensures Drain(write, count, done).Complete? ==> Drain(write, count, done).written == count
    decreases count - done
  {
    if done < count {
      var bytes := write(done, count - done);
      if bytes > 0 {
        assert bytes <= count - done;
        DrainExact(write, count, done + bytes);
      }
    }
  }

  /** A `write` that always makes progress lets the loop run to completion. */
  lemma {:induction false} DrainCompletes(write: WriteOracle, count: int, done: nat)
    requires Progresses(write)
    ensures Drain(write, count, done).Complete?
    decreases if done < count then count - done else 0
  {
    if done < count {
      var bytes := write(done, count - done);
      assert bytes >= 1;
      DrainCompletes(write, count, done + bytes);
    }
  }

  /** The inner do-while of `get` (memory.c:148-157): `write` is called at least once,
      the chunk being non-empty, and again while bytes remain. It fails (the C code
      then exits with 1) exactly when the loop aborts, after `written` bytes. */
  method WriteChunk(count: nat, write: WriteOracle) returns (failed: bool, written: int)
    requires count > 0
    ensures failed <==> Drain(write, count, 0).Aborted?
    ensures written == Drain(write, count, 0).written
    ensures !failed ==> written >= count
  {
    written := 0;
    while true
      invariant 0 <= written < count
      invariant Drain(write, count, written) == Drain(write, count, 0)
      decreases count - written
    {
      var bytes := write(written, count - written);
      if bytes <= 0 {
        return true, written;
      }
      written := written + bytes;
      if written >= count {
        break;
      }
    }
    failed := false;
  }

  /** What `get` does once the file is open: whether copying it succeeds, from the
      `k`-th read on. A failed read or an aborted write ends it with failure, an empty
      read with success; `write(k, _, _)` answers the writes of the `k`-th chunk. */
  function SendOk(replies: seq<ReadReply>, write: (nat, nat, nat) -> int, k: nat): bool
    decreases |replies| - k
  {
    if k >= |replies| then true
    else match replies[k]
      case Failure => false
      case Data(bytes) =>
        bytes == [] ||
        (Drain((done: nat, remaining: nat) => write(k, done, remaining), |bytes|, 0).Complete?
         && SendOk(replies, write, k + 1))
  }

  /** The copy loop of `get` (memory.c:138-159): read a chunk, write all of it, until
      an empty read. The exit status is 0 on success and 1 on a failed read or write. */
  method SendFile(replies: seq<ReadReply>, write: (nat, nat, nat) -> int) returns (status: int)
    ensures status == 0 || status == 1
    ensures status == 0 <==> SendOk(replies, write, 0)
  {
    var k := 0;
    while true
      invariant 0 <= k <= |replies|
      invariant SendOk(replies, write, 0) == SendOk(replies, write, k)
      decreases |replies| - k
    {
      var reply := if k < |replies| then replies[k] else Data([]);
      if reply.Failure? {
        return 1;
      }
      var chunk := reply.bytes;
      if chunk == [] {
        break;
      }
      var failed, _ := WriteChunk(|chunk|, (done: nat, remaining: nat) => write(k, done, remaining));
      if failed {
        return 1;
      }
      k := k + 1;
    }
    status := 0;
  }

  /** Whether copying succeeds depends, when every write makes progress, only on the
      reads: it succeeds exactly when no read fails before the end of the file. */
  lemma {:induction false} SendOkIffReadsSucceed(replies: seq<ReadReply>,
                                                 write: (nat, nat, nat) -> int, k: nat)
    requires forall j: nat, done: nat, remaining: nat | remaining > 0 :: write(j, done, remaining) >= 1
    requires k <= |replies|
    ensures SendOk(replies, write, k) <==> !ReadFails(replies[k..])
    decreases |replies| - k
  {
    if k < |replies| {
      assert replies[k..][1..] == replies[k + 1..];
      if replies[k].Data? && replies[k].bytes != [] {
        var chunkWrite := (done: nat, remaining: nat) => write(k, done, remaining);
        assert Progresses(chunkWrite) by {
          forall done: nat, remaining: nat | remaining > 0
            ensures chunkWrite(done, remaining) >= 1
          {
            assert chunkWrite(done, remaining) == write(k, done, remaining);
          }
        }
        DrainCompletes(chunkWrite, |replies[k].bytes|, 0);
        SendOkIffReadsSucceed(replies, write, k + 1);
      }
    }
  }

  /** A failed read ends the copy with failure, whatever was written before. */
  lemma {:induction false} ReadFailureFailsSend(replies: seq<ReadReply>,
                                                write: (nat, nat, nat) -> int, k: nat)
    requires k <= |replies| && ReadFails(replies[k..])
    ensures !SendOk(replies, write, k)
    decreases |replies| - k
  {
    assert replies[k..][1..] == replies[k + 1..];
    if replies[k].Data? {
      ReadFailureFailsSend(replies, write, k + 1);
    }
  }

  /** The payload loop of `set` (memory.c:229-239) and the "OK\n" that follows it
      (memory.c:240-245): the loop runs while fewer than `length` bytes are written,
      so a length that is not positive writes nothing; an aborted loop exits with -1,
      and so does an "OK\n" write answered with -1 (`okReply`); otherwise the status
      is 0. */
  method WritePayload(length: int, write: WriteOracle, okReply: int)
    returns (status: int, written: int)
    ensures written == Drain(write, length, 0).written
    ensures length <= 0 ==> written == 0
    ensures status == (if Drain(write, length, 0).Aborted? || okReply == -1 then -1 else 0)
  {
    written := 0;
    while written < length
      invariant 0 <= written
      invariant Drain(write, length, written) == Drain(write, length, 0)
      decreases length - written
    {
      var bytes := write(written, length - written);
      if bytes <= 0 {
        return -1, written;
      }
      written := written + bytes;
    }
    if okReply == -1 {
      return -1, written;
    }
    status := 0;
  }
}
