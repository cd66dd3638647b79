/** `main` (memory.c:53-260) as one request: read standard input, validate it, then
    serve a `get` by copying the file to standard output or a `set` by writing the
    payload to the file, and exit with the status the C code returns. */
module Handler {
  import opened Bytes
  import opened Tokenizer
  import opened Protocol
  import opened Accumulator
  import opened Transfer

  /** Whether `open` reaches and truncates the `set` target: the request got past the
      filename and length checks (memory.c:189-199), whatever the size check then says. */
  predicate OpensTarget(r: Result<Command, Error>)
  {
    || (r.Ok? && r.value.Set?)
    || (r.Err? && (r.error.ShortPayload? || r.error == PayloadOutOfBounds))
  }

  /** One run of the program. `stdin` answers the reads of standard input, `openOk`
      says whether `open` of the named file succeeds, `fileReads` answers the reads of
      the file a `get` names, `stdoutWrite` the writes of its chunks to standard output,
      `fileWrite` the writes of a `set` payload, and `okReply` the write of "OK\n".
      Every rejection exits with 1, a failed payload or "OK\n" write with -1;
      `truncated` says whether the target of a `set` was opened with O_TRUNC, which
      happens even when the size check then rejects the request. */
  method HandleRequest(stdin: seq<ReadReply>, pathMax: nat, openOk: bool,
                       fileReads: seq<ReadReply>, stdoutWrite: (nat, nat, nat) -> int,
                       fileWrite: WriteOracle, okReply: int)
    returns (status: int, truncated: bool)
    ensures ReadFails(stdin) ==> status == 1 && !truncated
    ensures !ReadFails(stdin) ==>
      var r := Parse(Received(stdin), pathMax);
      && (truncated <==> openOk && OpensTarget(r))
      && (r.Err? || !openOk ==> status == 1)
      && (r.Ok? && openOk && r.value.Get? ==>
            status == if SendOk(fileReads, stdoutWrite, 0) then 0 else 1)
      && (r.Ok? && openOk && r.value.Set? ==>
            status == if r.value.length != 0 && (Drain(fileWrite, r.value.length, 0).Aborted? || okReply == -1)
                      then -1 else 0)
  {
    var failed, contents, totalSize, newline := ReadInput(stdin);
    if failed {
      return 1, false;
    }
    var input := if contents == null then [] else contents[..totalSize];
    // `Parse` reads the `newline` flag off the input's last byte; it is the flag the
    // read loop set.
    assert newline <==> input != [] && input[|input| - 1] == NEWLINE;
    var r := Parse(input, pathMax);
    truncated := openOk && OpensTarget(r);
    if r.Err? || !openOk {
      return 1, truncated;
    }
    match r.value
    case Get(filename) =>
      status := SendFile(fileReads, stdoutWrite);
    case Set(filename, length, payload) =>
      if length == 0 {
        // fprintf(stdout, "OK\n") is not checked (memory.c:201-207)
        status := 0;
      } else {
        var written;
        status, written := WritePayload(length, fileWrite, okReply);
      }
  }
}
