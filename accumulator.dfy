/** The input accumulation loop of `main` (memory.c:58-92): standard input is read in
    chunks and appended to a buffer that `realloc` grows to hold every byte read so far
    plus a terminator. */
module Accumulator {
  import opened Bytes

  /** What one `read(STDIN_FILENO, buf, BUFFER_SIZE)` returns: some bytes (none at end
      of input) or a failure (a negative count). */
  datatype ReadReply = Data(bytes: seq<byte>) | Failure

  /** The bytes of the stream: the chunks read before the first end of input or
      failure; a stream that runs out of replies is at its end. */
  function Received(replies: seq<ReadReply>): seq<byte>
  {
    if replies == [] then []
    else match replies[0]
      case Failure => []
      case Data(bytes) => if bytes == [] then [] else bytes + Received(replies[1..])
  }

  /** A negative read happens before the end of input is reached. */
  predicate ReadFails(replies: seq<ReadReply>)
  {
    replies != [] &&
    match replies[0]
      case Failure => true
      case Data(bytes) => bytes != [] && ReadFails(replies[1..])
  }

  /** The concatenation of `chunks`, in order. */
  function Concat(chunks: seq<seq<byte>>): (s: seq<byte>)
    ensures |s| == Sum(chunks)
  {
    if chunks == [] then [] else chunks[0] + Concat(chunks[1..])
  }

  /** The total length of `chunks`. */
  function Sum(chunks: seq<seq<byte>>): nat
  {
    if chunks == [] then 0 else |chunks[0]| + Sum(chunks[1..])
  }

  /** The replies that deliver `chunks` one by one. */
  function AsReplies(chunks: seq<seq<byte>>): (rs: seq<ReadReply>)
    ensures |rs| == |chunks|
    ensures forall k | 0 <= k < |rs| :: rs[k] == Data(chunks[k])
  {
    if chunks == [] then [] else [Data(chunks[0])] + AsReplies(chunks[1..])
  }

  /** A stream split into non-empty chunks and then ended by an empty read (or by
      running out of replies) delivers exactly the concatenation of the chunks, whose
      length is the sum of theirs, and does not fail: how the input was split into
      reads does not matter. */
  lemma {:induction false} ReceivedChunks(chunks: seq<seq<byte>>, tail: seq<ReadReply>)
    requires forall k | 0 <= k < |chunks| :: chunks[k] != []
    requires tail == [] || tail[0] == Data([])
    ensures Received(AsReplies(chunks) + tail) == Concat(chunks)
    ensures |Received(AsReplies(chunks) + tail)| == Sum(chunks)
    ensures !ReadFails(AsReplies(chunks) + tail)
  {
    var rs := AsReplies(chunks) + tail;
    if chunks == [] {
      assert rs == tail;
    } else {
      assert rs[0] == Data(chunks[0]);
      assert rs[1..] == AsReplies(chunks[1..]) + tail;
      ReceivedChunks(chunks[1..], tail);
    }
  }

  /** A negative read after some non-empty chunks makes the whole read phase fail,
      whatever was received before it. */
  lemma {:induction false} FailureAfterChunks(chunks: seq<seq<byte>>, tail: seq<ReadReply>)
    requires forall k | 0 <= k < |chunks| :: chunks[k] != []
    requires tail != [] && tail[0] == Failure
    ensures ReadFails(AsReplies(chunks) + tail)
  {
    var rs := AsReplies(chunks) + tail;
    if chunks != [] {
      assert rs[0] == Data(chunks[0]);
      assert rs[1..] == AsReplies(chunks[1..]) + tail;
      FailureAfterChunks(chunks[1..], tail);
    }
  }

  /** The read loop. On a failed read it reports failure (the C code exits with 1 and
      interprets nothing). Otherwise `contents` is NULL when nothing was read, and
      else holds the bytes received followed by the terminator, which `totalSize`
      does not count; `newline` says whether the last byte received is '\n'. */
  method ReadInput(replies: seq<ReadReply>)
    returns (failed: bool, contents: array?<byte>, totalSize: nat, newline: bool)
    ensures failed <==> ReadFails(replies)
    ensures !failed ==> totalSize == |Received(replies)| && (contents == null <==> totalSize == 0)
    ensures !failed && contents != null ==>
      && contents.Length == totalSize + 1
      && contents[..totalSize] == Received(replies)
      && contents[totalSize] == NUL
    ensures !failed ==>
      (newline <==> totalSize > 0 && Received(replies)[totalSize - 1] == NEWLINE)
  {
    contents, totalSize, newline := null, 0, false;
    var i := 0;
    while true
      invariant 0 <= i <= |replies|
      invariant contents == null <==> totalSize == 0
      invariant contents != null ==> fresh(contents) && contents.Length == totalSize + 1
      invariant contents != null ==> Received(replies) == contents[..totalSize] + Received(replies[i..])
      invariant contents == null ==> Received(replies) == Received(replies[i..])
      invariant ReadFails(replies) <==> ReadFails(replies[i..])
      decreases |replies| - i
    {
      // Past the last reply the stream is at its end.
      var reply := if i < |replies| then replies[i] else Data([]);
      if reply.Failure? {
        return true, null, 0, false;
      }
      var chunk := reply.bytes;
      if chunk == [] {
        break;
      }
      assert replies[i..][1..] == replies[i + 1..];
      // realloc(contents, total_size + bytes_read + 1), then memcpy of the chunk
      var grown := new byte[totalSize + |chunk| + 1];
      if contents != null {
        forall k | 0 <= k < totalSize {
          grown[k] := contents[k];
        }
      }
      forall k | 0 <= k < |chunk| {
        grown[totalSize + k] := chunk[k];
      }
      assert grown[..totalSize + |chunk|] == (if contents == null then [] else contents[..totalSize]) + chunk;
      contents := grown;
      totalSize := totalSize + |chunk|;
      i := i + 1;
    }
    failed := false;
    assert Received(replies[i..]) == [] && !ReadFails(replies[i..]);
    if contents != null {
      newline := contents[totalSize - 1] == NEWLINE;
      contents[totalSize] := NUL;
    }
  }
}
