# memory — a verified model of a one-shot file request handler

`memory.c` serves one request per run. It reads all of standard input into a
growing buffer. Then it splits the header lines with `strtok(_, "\n")` and
accepts one of two requests:

- `get\n<filename>\n`: copy the named file to standard output;
- `set\n<filename>\n<length>\n<payload>`: store `length` raw payload bytes in the
  named file, then answer `OK\n`.

Payload bytes are opaque. They may contain `\n` or NUL. Every rejection prints
`Invalid Command` and exits with 1. A failed payload write, or a failed `OK\n`
write, exits with -1.

The model is a set of Dafny modules:

| module | file | what it models |
|---|---|---|
| `Bytes` | `bytes.dfy` | bytes, the program's constants, C strings, 64-bit `size_t` arithmetic, `Option`/`Result` |
| `Digits` | `digits.dfy` | `is_all_digits`, `convert_string_to_int` and the `atoi` applied to the length line |
| `Accumulator` | `accumulator.dfy` | the read/`realloc` loop that fills `contents`, the `newline` flag and the terminator |
| `Tokenizer` | `tokenizer.dfy` | `strtok` with its saved pointer made an explicit `Scan` state, and its NUL writes kept |
| `Protocol` | `protocol.dfy` | the `get`/`set` validator as a pure `Parse(input, pathMax): Result<Command, Error>`, including `header_size` and the `ptr` walk |
| `Framing` | `framing.dfy` | where the `set` payload lies on clean requests, and what happens when blank lines shift it |
| `Transfer` | `transfer.dfy` | the two complete-write loops, with `write` as an oracle that returns a count |
| `Handler` | `handler.dfy` | `main` as one run, from the replies of its system calls to its exit status |

`strtok` is specified against a reference splitter, `Tokenizer.Fields`: the
non-empty lines of the C string. `Tokenizer.StrtokYieldsFields` proves that each
call yields the next field. So the `get` results and the results about the `set`
filename and length line are stated in terms of the input's non-empty lines. The
payload results are stated over a request built from its parts
(`Framing.SetRequest`) or over the `strtok` states themselves.

Three kinds of undefined behaviour in the C code are not given a meaning. Each
is reported as a distinct `Protocol.Error`:

- `FilenameOverflow`: `strcpy` of a filename of 100 bytes or more into `filename[100]`;
- `LengthOutOfRange`: `atoi` of a value outside `int`;
- `PayloadOutOfBounds`: reading past the `total_size + 1` bytes of `contents`.

Where the code and its documented behaviour differ, the model follows the code:

- The `set` length is read with the lenient `atoi`, not the strict digit parser.
  A token without digits reads as 0, which is accepted with no payload. A
  negative length passes the 64-bit size check when its magnitude is at most
  `header_size`. Such a request is then accepted and writes nothing.
- The target of a `set` is opened with `O_TRUNC` before the size check. A `set`
  rejected for a short payload has therefore already emptied the file
  (`ShortPayload`, and `truncated` in `Handler.HandleRequest`).
- The size check uses `header_size`. That is the header length of a request with
  no blank lines and a filename under 100 bytes. The payload pointer instead
  walks over the three tokens as `strtok` left them. With a blank header line,
  the two disagree (`Framing.BlankLineShiftsPayload`).
- The payload and `OK\n` write failures exit with -1, not 1.

## Model

| member | source | states |
|---|---|---|
| Digits.DigitsFrom | memory.c:21-26 | The pointer walk from position `i` returns true exactly when every byte of the C string from `i` on is a digit. |
| Digits.IsAllDigits | memory.c:15-27 | True exactly when the pointer is not NULL, the C string is non-empty, and every byte of it is an ASCII digit. |
| Digits.ConvertStringToInt | memory.c:29-51 | The result is never below -1 and never above `INT_MAX`. It is -1 exactly when the string is not all digits or its value exceeds `INT_MAX`. Otherwise it is the base-10 value of the digits. |
| Digits.ConvertDecimal | memory.c:29-51 | Round trip: the decimal spelling of any `n` converts back to `n` when `n <= INT_MAX`, and to -1 otherwise. |
| Digits.AtoiSigned | memory.c:182 | `atoi` reads back the signed decimal spelling of every integer. |
| Digits.AtoiIgnoresTrailer | memory.c:182 | `atoi` stops at the first byte that is not a digit: a decimal spelling followed by anything else reads as its value. |
| Digits.AtoiAgreesWithConvert | memory.c:182 | On every string the strict parser accepts, `atoi` gives the same value. |
| Digits.AtoiLenientOnGarbage | memory.c:182 | A token starting with a byte that is not a space, digit or sign is rejected by the strict parser (-1) but read as 0 by `atoi`. |
| Accumulator.ReadInput | memory.c:64-92 | The loop fails exactly when a read fails before end of input. Otherwise `contents` is NULL exactly when nothing was read. Else `contents[0..total_size)` is the bytes received and `contents[total_size]` is an uncounted NUL. `newline` is true exactly when the last received byte is `\n`. |
| Accumulator.ReceivedChunks | memory.c:64-84 | Non-empty chunks followed by end of input deliver exactly their concatenation, whose length is the sum of theirs, without failing, however the stream was split into reads. |
| Accumulator.FailureAfterChunks | memory.c:66-70 | A failed read after any number of non-empty chunks fails the whole read phase. |
| Tokenizer.Strtok | memory.c:94-117 | One call: only `\n` bytes lie between the saved position and the token. The token holds no `\n` and no NUL, and ends at the first `\n` or NUL. Only that delimiter is overwritten with NUL. The new saved position is just past the token, or at the terminator. No token means only `\n` bytes up to the terminator, and leaves the buffer unchanged. |
| Tokenizer.StrtokYieldsFields | memory.c:94-117 | A call yields nothing exactly when no non-empty line remains. Otherwise it yields the next non-empty line and leaves the rest to deliver. |
| Tokenizer.FieldsOfJoinLines | memory.c:94-117 | The reference splitter inverts joining non-empty lines that hold no `\n`. |
| Protocol.CommandWord | memory.c:98-100 | Copying with `strncpy` to 99 bytes then comparing with `strcmp` matches "get" or "set" exactly when the token is that word. |
| Protocol.FirstLine | memory.c:94-100 | Input with no non-empty line is rejected. Otherwise the first line picks the branch, and the lines after it remain for that branch. |
| Protocol.RejectsUnknownCommand | memory.c:250-258 | Empty input, input made only of newlines, and input whose first line is neither "get" nor "set" are rejected. |
| Protocol.GetBranch | memory.c:100-128 | The `get` checks in order: a missing final `\n` or a missing filename line rejects. A filename of 100 bytes or more overflows. An extra line, or a filename longer than `PATH_MAX`, rejects. Otherwise the request is accepted with that filename. |
| Protocol.GetOutcome | memory.c:100-128 | The same outcome, stated in terms of the non-empty lines of the whole input. |
| Protocol.GetAccepted | memory.c:100-128 | `get` of `filename` is accepted exactly when the input ends in `\n`, its non-empty lines are exactly "get" and `filename`, and the filename fits both `filename[100]` and `PATH_MAX`. Blank lines are skipped. |
| Protocol.SetBranch | memory.c:164-187 | Fewer than two lines after "set" is a rejection. Otherwise the filename is the first line cut to 99 bytes, and the length token is the second. |
| Protocol.SetFrameOutcome | memory.c:182-228 | The length is `atoi` of the token and must fit an `int`. A filename not under `PATH_MAX` rejects. A length of 0 is accepted with no payload. Every accepted `set` carries that filename and length, with `length` payload bytes when the length is positive and none otherwise. |
| Protocol.SetOutcome | memory.c:164-228 | The same outcome, stated in terms of the non-empty lines of the whole input. Fewer than three lines is a rejection. |
| Framing.SetRequestTokens | memory.c:164-187 | The three `strtok` calls on a clean `set` request yield "set", the filename and the length token. They leave the buffer with exactly those three delimiters overwritten. |
| Framing.CleanPayloadStart | memory.c:209-221 | On a clean request the payload pointer lands exactly at `header_size`. |
| Framing.SetFraming | memory.c:209-239 | Clean `set` with a non-zero length. A positive length is accepted exactly when at least `length` bytes follow the header. The payload is then exactly those bytes, whatever they contain. A negative length is accepted with no payload exactly when the 64-bit sum `header_size + length` does not wrap. |
| Framing.PayloadFollowsLengthToken | memory.c:210-221 | Whatever blank lines the header holds, the payload pointer lands one byte past the end of the length token. |
| Framing.BlankLineShiftsPayload | memory.c:209-228 | For "set\n\n" + filename + "\n1\n", the size check passes and the accepted one-byte payload is the terminator after the input. That byte is not part of the input. |
| Transfer.Drain | memory.c:229-239 | Whatever `write` answers: the written count never decreases, an abort happens short of the requested count after a non-positive reply, and a normal exit never stops short. |
| Transfer.DrainExact | memory.c:229-239 | When `write` never reports more than requested, the count never passes the request, so a normal exit has written exactly the requested count. |
| Transfer.DrainCompletes | memory.c:229-239 | A `write` that always makes progress lets the loop finish normally. |
| Transfer.WriteChunk | memory.c:148-157 | The do-while fails exactly when the write loop aborts. Its count is the loop's. On success it has written at least the chunk. |
| Transfer.SendFile | memory.c:138-159 | The `get` copy loop exits with 0 or 1, and with 0 exactly when no read fails and every chunk is written completely. |
| Transfer.SendOkIffReadsSucceed | memory.c:138-159 | When every write makes progress, copying succeeds exactly when no read of the file fails. |
| Transfer.ReadFailureFailsSend | memory.c:141-145 | A failed read of the file fails the copy, whatever was written before it. |
| Transfer.WritePayload | memory.c:229-245 | The written count is that of the write loop, and a length that is not positive writes nothing. The status is -1 when the loop aborts or the `OK\n` write returns -1, and 0 otherwise. |
| Handler.HandleRequest | memory.c:53-262 | A failed read of standard input exits with 1. A rejected request, or a failed `open`, exits with 1. `get` exits as the copy loop does. `set` exits with 0 for a length of 0, and otherwise as the payload write does. The `set` target is truncated exactly when `open` succeeds and the request got past the filename and length checks, including requests the size check then rejects. |

## Left out

- The file system is left out. `open` is a boolean (`openOk`). `read` and `write`
  are sequences of replies and oracles that return counts. The file's contents and
  its mode 0644 are not modelled. The bytes a `write` transfers are not
  tracked, only the counts.
- The messages printed to standard error and standard output are not modelled.
  Only the exit status is.
- `realloc` failure (memory.c:72-77) is not modelled. Allocation always succeeds.
- `read` returning at most `BUFFER_SIZE` bytes is not enforced. A chunk may be
  of any length, which the accumulation results do not depend on.
- `PATH_MAX` is the parameter `pathMax`.
- Protocol.Parse: empty input is rejected. In C, `strtok` is then first called with a
  NULL buffer and no saved position, which is undefined. The model takes the "no
  token" branch that the code would take for a NULL result.
- Handler.HandleRequest: the three undefined-behaviour errors exit with 1 and have
  no further meaning. For `PayloadOutOfBounds` the target counts as truncated,
  since `open` comes before the out-of-bounds read. The C program's actual
  behaviour there is unspecified.
- Transfer.WritePayload: `bytes_written` is an unbounded integer, so a `write`
  reporting more than requested cannot wrap it as a 32-bit `int` could. While
  `write` keeps its POSIX promise, the count stays at most `length` (see
  `Transfer.DrainExact`).
- Transfer.WriteChunk: requires a non-empty chunk. The do-while is entered only
  after a read that returned bytes (memory.c:146).
- `write` is a function of the bytes already written and the bytes remaining. Within
  one loop the first strictly increases, so no two calls ask the same question.
- The `errno` test of `convert_string_to_int` (memory.c:41) is modelled for a
  fresh `errno`. A stale `ERANGE` cannot matter: `strtol` of a digit string
  returns `LONG_MAX` either on overflow or for exactly 9223372036854775807, and
  any `LONG_MAX` is above `INT_MAX`, so memory.c:45 returns -1 whatever `errno`
  holds.
- `convert_string_to_int` is never called from `main`. It is modelled on its own.
- Framing.SetFraming: stated for clean requests only, as `Framing.CleanSet`
  defines them: "set" as the very first bytes, then the filename and the length
  token each on its own line with no blank line between, neither holding a NUL, a
  filename under 100 bytes and under `pathMax`, a length token that `atoi` reads as
  a non-zero `int`, and a request no longer than `LONG_MAX` bytes. Other requests are covered by
  `Framing.PayloadFollowsLengthToken` and `Framing.BlankLineShiftsPayload`.
- `close` and `free` are not modelled.
