/** The request validator of `main` (memory.c:86-228): the accumulated input is
    tokenized in place and checked against the two request shapes
      get\n<filename>\n
      set\n<filename>\n<length>\n<payload bytes>
    Opening, reading and writing files is left to the caller: on success the result
    says which file to read, or which file to fill with which bytes. */
module Protocol {
  import opened Bytes
  import opened Digits
  import opened Tokenizer

  datatype Command =
    | Get(filename: seq<byte>)
      /** `payload` is what the write loop of memory.c:229-239 copies: `length` bytes
          when `length` is positive, none otherwise. */
    | Set(filename: seq<byte>, length: int, payload: seq<byte>)

  datatype Error =
      /** Every rejection memory.c reports as "Invalid Command". */
    | InvalidCommand
      /** The `set` size check failed (memory.c:224). By then `target` has already been
          opened with O_TRUNC (memory.c:194), so the rejection has emptied that file. */
    | ShortPayload(target: seq<byte>)
      /** Undefined behaviour in C: `strcpy` of a filename token of 100 bytes or more
          into `filename[100]` (memory.c:110). */
    | FilenameOverflow
      /** Undefined behaviour in C: `atoi` of a value that does not fit in an `int`
          (memory.c:182). */
    | LengthOutOfRange
      /** Undefined behaviour in C: reading the buffer past its allocation of
          `total_size + 1` bytes (memory.c:212-218, 232). */
    | PayloadOutOfBounds

  /** `ptr += strlen(ptr) + 1` (memory.c:212, 215, 218); `None` when `ptr` already lies
      outside the buffer, where `strlen` would read memory that is not allocated. */
  function StepOver(buf: seq<byte>, p: nat): (r: Option<nat>)
  {
    if p < |buf| then Some(p + Strlen(buf, p) + 1) else None
  }

  /** `binary_data` (memory.c:210-221): three steps over C strings from the front of the
      tokenized buffer. */
  function PayloadStart(buf: seq<byte>): Option<nat>
  {
    var p1 := StepOver(buf, 0);
    if p1.None? then None
    else
      var p2 := StepOver(buf, p1.value);
      if p2.None? then None else StepOver(buf, p2.value)
  }

  /** `header_size` (memory.c:209-217): the header length `set` assumes, one byte of
      delimiter after each of the three header tokens, counting the filename as the
      truncated copy in `filename`. */
  function HeaderSize(filename: seq<byte>, lengthToken: seq<byte>): nat
  {
    (|SET| + 1) + (|filename| + 1) + (|lengthToken| + 1)
  }

  /** The whole request: `input` is `contents[0..total_size)`, `pathMax` is `PATH_MAX`. */
  function Parse(input: seq<byte>, pathMax: nat): Result<Command, Error>
  {
    if input == [] then Err(InvalidCommand)  // `contents` stays NULL and no token is found
    else
      var newline := input[|input| - 1] == NEWLINE;
      var buf := input + [NUL];
      var (t1, s1) := Strtok(Scan(buf, 0));
      if t1.None? then Err(InvalidCommand)
      else
        var cmd := Prefix(TokenBytes(buf, t1.value), MAX_LENGTH - 1);
        if cmd == GET then ParseGet(s1, newline, pathMax)
        else if cmd == SET then ParseSet(|input|, s1, pathMax)
        else Err(InvalidCommand)
  }

  /** The `get` branch (memory.c:100-128), resuming the tokenizer after "get". */
  function ParseGet(s1: Scan, newline: bool, pathMax: nat): Result<Command, Error>
    requires ValidScan(s1)
  {
    if !newline then Err(InvalidCommand)
    else
      var (t2, s2) := Strtok(s1);
      if t2.None? then Err(InvalidCommand)
      else
        var filename := TokenBytes(s1.buf, t2.value);
        if |filename| >= MAX_LENGTH then Err(FilenameOverflow)
        else if Strtok(s2).0.Some? then Err(InvalidCommand)
        else if |filename| > pathMax then Err(InvalidCommand)
        else Ok(Get(filename))
  }

  /** The `set` branch (memory.c:164-187), resuming the tokenizer after "set";
      `totalSize` is `total_size`. */
  function ParseSet(totalSize: nat, s1: Scan, pathMax: nat): Result<Command, Error>
    requires ValidScan(s1)
  {
    var (t2, s2) := Strtok(s1);
    if t2.None? then Err(InvalidCommand)
    else
      var filename := Prefix(TokenBytes(s1.buf, t2.value), MAX_LENGTH - 1);
      var (t3, s3) := Strtok(s2);
      if t3.None? then Err(InvalidCommand)
      else SetFrame(totalSize, filename, TokenBytes(s2.buf, t3.value), s3.buf, pathMax)
  }

  /** The rest of `set` (memory.c:182-228), once `filename` and the length token are
      known; `buf` is the tokenized buffer that `ptr` walks. */
  function SetFrame(totalSize: nat, filename: seq<byte>, token: seq<byte>, buf: seq<byte>,
                    pathMax: nat): Result<Command, Error>
  {
    var length := Atoi(token);
    if length < INT_MIN || INT_MAX < length then Err(LengthOutOfRange)
    else if |filename| >= pathMax then Err(InvalidCommand)
    else if length == 0 then Ok(Set(filename, 0, []))
    else SizedFrame(totalSize, filename, HeaderSize(filename, token), length, buf)
  }

  /** The size check and the payload of a `set` with a non-zero `length`
      (memory.c:209-228): `ptr` steps over three C strings of `buf`, then
      `header_size + (size_t) length` is compared with `total_size` in 64-bit unsigned
      arithmetic, and a positive length takes that many bytes from `ptr`. */
  function SizedFrame(totalSize: nat, filename: seq<byte>, headerSize: nat, length: int,
                      buf: seq<byte>): Result<Command, Error>
  {
    var data := PayloadStart(buf);
    if data.None? then Err(PayloadOutOfBounds)
    else if totalSize < SizeT(headerSize + length) then Err(ShortPayload(filename))
    else if length < 0 then Ok(Set(filename, length, []))
    else if data.value + length > |buf| then Err(PayloadOutOfBounds)
    else Ok(Set(filename, length, buf[data.value..data.value + length]))
  }

  /** Appending the terminator does not change the C string. */
  lemma CStrOfTerminated(input: seq<byte>)
    ensures CStr(input + [NUL]) == CStr(input)
  {
    var buf := input + [NUL];
    var r := CStr(input);
    CStrSplit(buf, 0, |r|);
    assert buf[..|r|] == r;
    assert buf[|r|] == NUL;
  }

  /** The tokenizer's first call starts from a valid state whose fields are the
      non-empty lines of the input's C string. */
  lemma FirstScan(input: seq<byte>)
    ensures ValidScan(Scan(input + [NUL], 0))
    ensures Remaining(Scan(input + [NUL], 0)) == Fields(CStr(input))
  {
    CStrOfTerminated(input);
    assert (input + [NUL])[0..] == input + [NUL];
  }

  /** `strncpy` to 99 bytes then `strcmp` matches a command word exactly when the
      token is that word. */
  lemma CommandWord(token: seq<byte>)
    ensures Prefix(token, MAX_LENGTH - 1) == GET <==> token == GET
    ensures Prefix(token, MAX_LENGTH - 1) == SET <==> token == SET
  {
  }

  /** The first tokenizer call in terms of the input's non-empty lines: with none the
      request is rejected, otherwise the first line picks the branch and the scan
      state handed to it has the remaining lines still to deliver. */
  lemma FirstLine(input: seq<byte>, pathMax: nat)
    requires input != []
    ensures var fs := Fields(CStr(input));
      var s1 := Strtok(Scan(input + [NUL], 0)).1;
      && ValidScan(s1)
      && (fs == [] ==> Parse(input, pathMax) == Err(InvalidCommand))
      && (fs != [] ==>
            && Remaining(s1) == fs[1..]
            && Parse(input, pathMax) ==
                 if fs[0] == GET then ParseGet(s1, input[|input| - 1] == NEWLINE, pathMax)
                 else if fs[0] == SET then ParseSet(|input|, s1, pathMax)
                 else Err(InvalidCommand))
  {
    FirstScan(input);
    var s0 := Scan(input + [NUL], 0);
    StrtokYieldsFields(s0);
    var t1 := Strtok(s0).0;
    if t1.Some? {
      CommandWord(TokenBytes(input + [NUL], t1.value));
    }
  }

  /** Requests whose first non-empty line is neither "get" nor "set" are rejected,
      and so are empty inputs and inputs made only of newlines. */
  lemma RejectsUnknownCommand(input: seq<byte>, pathMax: nat)
    requires var fs := Fields(CStr(input)); fs == [] || (fs[0] != GET && fs[0] != SET)
    ensures Parse(input, pathMax) == Err(InvalidCommand)
  {
    if input != [] {
      FirstLine(input, pathMax);
    }
  }

  /** The `get` branch in terms of the lines after "get". */
  lemma GetBranch(s1: Scan, newline: bool, pathMax: nat)
    requires ValidScan(s1)
    ensures var fs := Remaining(s1);
      ParseGet(s1, newline, pathMax) ==
        if !newline || fs == [] then Err(InvalidCommand)
        else if |fs[0]| >= MAX_LENGTH then Err(FilenameOverflow)
        else if |fs| > 1 || |fs[0]| > pathMax then Err(InvalidCommand)
        else Ok(Get(fs[0]))
  {
    StrtokYieldsFields(s1);
    var s2 := Strtok(s1).1;
    StrtokYieldsFields(s2);
  }

  /** The `get` branch in terms of the input's non-empty lines: the input must end in
      '\n' and hold exactly the lines "get" and a filename; a filename of 100 bytes or
      more overflows `filename` before the line count is checked. */
  lemma GetOutcome(input: seq<byte>, pathMax: nat)
    requires input != []
    requires var fs := Fields(CStr(input)); fs != [] && fs[0] == GET
    ensures var fs := Fields(CStr(input));
      Parse(input, pathMax) ==
        if input[|input| - 1] != NEWLINE || |fs| < 2 then Err(InvalidCommand)
        else if |fs[1]| >= MAX_LENGTH then Err(FilenameOverflow)
        else if |fs| > 2 || |fs[1]| > pathMax then Err(InvalidCommand)
        else Ok(Get(fs[1]))
  {
    FirstLine(input, pathMax);
    GetBranch(Strtok(Scan(input + [NUL], 0)).1, input[|input| - 1] == NEWLINE, pathMax);
  }

  /** `get` is accepted exactly when the input ends in '\n', its non-empty lines are
      "get" and the filename, and the filename fits both `filename[100]` and `PATH_MAX`.
      Blank lines anywhere are skipped and do not cause a rejection. */
  lemma GetAccepted(input: seq<byte>, pathMax: nat, filename: seq<byte>)
    ensures Parse(input, pathMax) == Ok(Get(filename)) <==>
      && input != [] && input[|input| - 1] == NEWLINE
      && Fields(CStr(input)) == [GET, filename]
      && |filename| < MAX_LENGTH && |filename| <= pathMax
  {
    var fs := Fields(CStr(input));
    if fs == [] || (fs[0] != GET && fs[0] != SET) {
      RejectsUnknownCommand(input, pathMax);
    } else {
      assert input != [];
      FirstLine(input, pathMax);
      if fs[0] == GET {
        GetOutcome(input, pathMax);
        if |fs| == 2 {
          assert fs == [GET, fs[1]];
        }
      } else {
        SetOutcome(input, pathMax);
      }
    }
  }

  /** The `set` branch in terms of the lines after "set": fewer than two are rejected;
      otherwise the filename is the first cut to 99 bytes and the length token the second. */
  lemma SetBranch(totalSize: nat, s1: Scan, pathMax: nat)
    requires ValidScan(s1)
    ensures var fs := Remaining(s1);
      && (|fs| < 2 ==> ParseSet(totalSize, s1, pathMax) == Err(InvalidCommand))
      && (|fs| >= 2 ==>
            ParseSet(totalSize, s1, pathMax)
              == SetFrame(totalSize, Prefix(fs[0], MAX_LENGTH - 1), fs[1], Strtok(Strtok(s1).1).1.buf,
                          pathMax))
  {
    var fs := Remaining(s1);
    StrtokYieldsFields(s1);
    var (t2, s2) := Strtok(s1);
    if t2.Some? {
      StrtokYieldsFields(s2);
      var (t3, s3) := Strtok(s2);
      if t3.Some? {
        assert ParseSet(totalSize, s1, pathMax)
            == SetFrame(totalSize, Prefix(fs[0], MAX_LENGTH - 1), fs[1], s3.buf, pathMax);
      }
    }
  }

  /** What every outcome of the `set` checks says, whatever the buffer: the length is
      `atoi` of its token and must fit an `int`; the filename must be under `PATH_MAX`;
      a length of 0 is accepted with no payload whatever follows. Every accepted `set`
      names that file and that length, and carries `length` payload bytes when the
      length is positive and none otherwise. */
  lemma SetFrameOutcome(totalSize: nat, filename: seq<byte>, token: seq<byte>, buf: seq<byte>,
                        pathMax: nat)
    ensures var length := Atoi(token);
      var r := SetFrame(totalSize, filename, token, buf, pathMax);
      && (length < INT_MIN || INT_MAX < length ==> r == Err(LengthOutOfRange))
      && (INT_MIN <= length <= INT_MAX && |filename| >= pathMax ==> r == Err(InvalidCommand))
      && (length == 0 && |filename| < pathMax ==> r == Ok(Set(filename, 0, [])))
      && (r.Ok? ==>
            && r.value.Set? && r.value.filename == filename && r.value.length == length
            && |r.value.payload| == if length > 0 then length else 0)
  {
  }

  /** The `set` branch in terms of the input's non-empty lines (see `SetBranch`). */
  lemma SetOutcome(input: seq<byte>, pathMax: nat)
    requires var fs := Fields(CStr(input)); fs != [] && fs[0] == SET
    ensures var fs := Fields(CStr(input));
      var r := Parse(input, pathMax);
      && (|fs| < 3 ==> r == Err(InvalidCommand))
      && (|fs| >= 3 ==>
            var filename := Prefix(fs[1], MAX_LENGTH - 1);
            var length := Atoi(fs[2]);
            && (length < INT_MIN || INT_MAX < length ==> r == Err(LengthOutOfRange))
            && (INT_MIN <= length <= INT_MAX && |filename| >= pathMax ==> r == Err(InvalidCommand))
            && (length == 0 && |filename| < pathMax ==> r == Ok(Set(filename, 0, [])))
            && (r.Ok? ==>
                  && r.value.Set? && r.value.filename == filename && r.value.length == length
                  && |r.value.payload| == if length > 0 then length else 0))
  {
    assert input != [];
    FirstLine(input, pathMax);
    var s1 := Strtok(Scan(input + [NUL], 0)).1;
    SetBranch(|input|, s1, pathMax);
    var fs := Fields(CStr(input));
    assert GET != SET;
    assert Parse(input, pathMax) == ParseSet(|input|, s1, pathMax);
    assert |Remaining(s1)| == |fs| - 1;
    if |fs| >= 3 {
      assert Remaining(s1)[0] == fs[1] && Remaining(s1)[1] == fs[2];
      var buf := Strtok(Strtok(s1).1).1.buf;
      var filename := Prefix(fs[1], MAX_LENGTH - 1);
      assert Parse(input, pathMax) == SetFrame(|input|, filename, fs[2], buf, pathMax);
      SetFrameOutcome(|input|, filename, fs[2], buf, pathMax);
    }
  }
}
