/** Where the `set` payload starts and what the size check compares (memory.c:209-228):
    `header_size` is the header length assumed for a request without blank lines,
    while `ptr`, which the write loop actually reads from, steps over the three header
    tokens as `strtok` left them. */
module Framing {
  import opened Bytes
  import opened Digits
  import opened Tokenizer
  import opened Protocol

  /** A `set` request with no blank header line: "set", the filename, the length token,
      each followed by '\n', then the payload and whatever follows it. */
  function SetRequest(filename: seq<byte>, token: seq<byte>, rest: seq<byte>): seq<byte>
  {
    SET + [NEWLINE] + filename + [NEWLINE] + token + [NEWLINE] + rest
  }

  /** A header line: non-empty, with no delimiter and no terminator in it. */
  predicate HeaderLine(line: seq<byte>)
  {
    line != [] && NEWLINE !in line && NUL !in line
  }

  /** `strtok` resuming at `c0`, before blank lines that end at `c` where a header line
      of `n` bytes ended by '\n' starts, yields that line and overwrites the '\n'. */
  lemma StrtokAtLine(buf: seq<byte>, c0: nat, c: nat, n: nat)
    requires Terminated(buf) && c0 <= c && c + n < |buf|
    requires forall i | c0 <= i < c :: buf[i] == NEWLINE
    requires HeaderLine(buf[c..c + n]) && buf[c + n] == NEWLINE
    ensures Strtok(Scan(buf, c0)) == (Some(Token(c, c + n)), Scan(buf[c + n := NUL], c + n + 1))
  {
    var line := buf[c..c + n];
    forall i | c <= i < c + n
      ensures buf[i] != NEWLINE && buf[i] != NUL
    {
      assert buf[i] == line[i - c];
    }
    var s := SkipDelims(buf, c0);
    assert buf[c] != NEWLINE;
    assert s == c;
    var e := FindDelim(buf, c);
    assert e == c + n;
  }

  /** The buffer after the three `strtok` calls on a clean `set` request. */
  function Tokenized(filename: seq<byte>, token: seq<byte>, rest: seq<byte>): seq<byte>
  {
    var a := |filename|;
    var b := |token|;
    (SetRequest(filename, token, rest) + [NUL])[3 := NUL][4 + a := NUL][5 + a + b := NUL]
  }

  /** Where the parts of a clean `set` request sit in the buffer. */
  lemma RequestLayout(filename: seq<byte>, token: seq<byte>, rest: seq<byte>)
    ensures var b0 := SetRequest(filename, token, rest) + [NUL];
      var a, b := |filename|, |token|;
      && |b0| == 7 + a + b + |rest|
      && b0[..3] == SET && b0[3] == NEWLINE
      && b0[4..4 + a] == filename && b0[4 + a] == NEWLINE
      && b0[5 + a..5 + a + b] == token && b0[5 + a + b] == NEWLINE
      && b0[6 + a + b..] == rest + [NUL]
  {
    var head := SET + [NEWLINE] + filename + [NEWLINE] + token + [NEWLINE];
    assert SetRequest(filename, token, rest) + [NUL] == head + (rest + [NUL]);
  }

  /** A request whose first three `strtok` calls find "set", a token under 100 bytes
      and another token reaches `SetFrame` with those two tokens as filename and
      length line and with the buffer the calls leave behind. */
  lemma SetFromTokens(input: seq<byte>, pathMax: nat, s1: Scan, t2: Token, s2: Scan, t3: Token,
                      s3: Scan)
    requires |input| >= 3 && input[..3] == SET
    requires Strtok(Scan(input + [NUL], 0)) == (Some(Token(0, 3)), s1)
    requires Strtok(s1) == (Some(t2), s2) && t2.end - t2.start < MAX_LENGTH
    requires Strtok(s2) == (Some(t3), s3)
    ensures Parse(input, pathMax)
      == SetFrame(|input|, TokenBytes(s1.buf, t2), TokenBytes(s2.buf, t3), s3.buf, pathMax)
  {
    assert TokenBytes(input + [NUL], Token(0, 3)) == SET;
    assert Prefix(SET, MAX_LENGTH - 1) == SET;
    assert Parse(input, pathMax) == ParseSet(|input|, s1, pathMax);
    assert Prefix(TokenBytes(s1.buf, t2), MAX_LENGTH - 1) == TokenBytes(s1.buf, t2);
  }

  /** The first `strtok` call on a clean `set` request finds "set". */
  lemma CleanToken1(filename: seq<byte>, token: seq<byte>, rest: seq<byte>)
    ensures var b0 := SetRequest(filename, token, rest) + [NUL];
      Strtok(Scan(b0, 0)) == (Some(Token(0, 3)), Scan(b0[3 := NUL], 4))
  {
    RequestLayout(filename, token, rest);
    StrtokAtLine(SetRequest(filename, token, rest) + [NUL], 0, 0, 3);
  }

  /** The second finds the filename. */
  lemma CleanToken2(filename: seq<byte>, token: seq<byte>, rest: seq<byte>)
    requires HeaderLine(filename)
    ensures var b1 := (SetRequest(filename, token, rest) + [NUL])[3 := NUL];
      var a := |filename|;
      && Strtok(Scan(b1, 4)) == (Some(Token(4, 4 + a)), Scan(b1[4 + a := NUL], 5 + a))
      && TokenBytes(b1, Token(4, 4 + a)) == filename
  {
    var a := |filename|;
    var b0 := SetRequest(filename, token, rest) + [NUL];
    RequestLayout(filename, token, rest);
    var b1 := b0[3 := NUL];
    assert b1[4..4 + a] == b0[4..4 + a];
    StrtokAtLine(b1, 4, 4, a);
  }

  /** The third finds the length token and leaves the `Tokenized` buffer. */
  lemma CleanToken3(filename: seq<byte>, token: seq<byte>, rest: seq<byte>)
    requires HeaderLine(token)
    ensures var a, b := |filename|, |token|;
      var b2 := (SetRequest(filename, token, rest) + [NUL])[3 := NUL][4 + a := NUL];
      && Strtok(Scan(b2, 5 + a))
         == (Some(Token(5 + a, 5 + a + b)), Scan(Tokenized(filename, token, rest), 6 + a + b))
      && TokenBytes(b2, Token(5 + a, 5 + a + b)) == token
  {
    var a, b := |filename|, |token|;
    var b0 := SetRequest(filename, token, rest) + [NUL];
    RequestLayout(filename, token, rest);
    var b2 := b0[3 := NUL][4 + a := NUL];
    assert b2[5 + a..5 + a + b] == b0[5 + a..5 + a + b];
    StrtokAtLine(b2, 5 + a, 5 + a, b);
  }

  /** The three `strtok` calls on a clean `set` request hand `SetFrame` the filename,
      the length token and the tokenized buffer. */
  lemma SetRequestTokens(filename: seq<byte>, token: seq<byte>, rest: seq<byte>, pathMax: nat)
    requires HeaderLine(filename) && HeaderLine(token) && |filename| < MAX_LENGTH
    ensures Parse(SetRequest(filename, token, rest), pathMax)
      == SetFrame(|SetRequest(filename, token, rest)|, filename, token,
                  Tokenized(filename, token, rest), pathMax)
  {
    var input := SetRequest(filename, token, rest);
    var a, b := |filename|, |token|;
    var b1 := (input + [NUL])[3 := NUL];
    var b2 := b1[4 + a := NUL];
    CleanToken1(filename, token, rest);
    CleanToken2(filename, token, rest);
    CleanToken3(filename, token, rest);
    assert input[..3] == SET;
    SetFromTokens(input, pathMax, Scan(b1, 4), Token(4, 4 + a), Scan(b2, 5 + a),
                  Token(5 + a, 5 + a + b), Scan(Tokenized(filename, token, rest), 6 + a + b));
  }

  /** Where the parts of a clean `set` request sit once `strtok` has overwritten the
      three delimiters. */
  lemma TokenizedLayout(filename: seq<byte>, token: seq<byte>, rest: seq<byte>)
    ensures var buf := Tokenized(filename, token, rest);
      var a, b := |filename|, |token|;
      && |buf| == 7 + a + b + |rest|
      && buf[..3] == SET && buf[3] == NUL
      && buf[4..4 + a] == filename && buf[4 + a] == NUL
      && buf[5 + a..5 + a + b] == token && buf[5 + a + b] == NUL
      && buf[6 + a + b..] == rest + [NUL]
  {
    var a, b := |filename|, |token|;
    var b0 := SetRequest(filename, token, rest) + [NUL];
    var buf := Tokenized(filename, token, rest);
    RequestLayout(filename, token, rest);
    assert buf[..3] == b0[..3];
    assert buf[4..4 + a] == b0[4..4 + a];
    assert buf[5 + a..5 + a + b] == b0[5 + a..5 + a + b];
    assert buf[6 + a + b..] == b0[6 + a + b..];
  }

  /** A NUL-free string stored at `p` puts no NUL in `[p, p + |x|)`. */
  lemma NoNulIn(buf: seq<byte>, p: nat, x: seq<byte>)
    requires p + |x| <= |buf| && buf[p..p + |x|] == x && NUL !in x
    ensures forall i | p <= i < p + |x| :: buf[i] != NUL
  {
    forall i | p <= i < p + |x|
      ensures buf[i] != NUL
    {
      assert buf[i] == x[i - p];
    }
  }

  /** A buffer holding "set", the filename and the length token, each ended by a NUL,
      puts `ptr` at `header_size`. */
  lemma HeaderPayloadStart(buf: seq<byte>, filename: seq<byte>, token: seq<byte>)
    requires HeaderLine(filename) && HeaderLine(token)
    requires var a, b := |filename|, |token|;
      && 5 + a + b < |buf|
      && buf[..3] == SET && buf[3] == NUL
      && buf[4..4 + a] == filename && buf[4 + a] == NUL
      && buf[5 + a..5 + a + b] == token && buf[5 + a + b] == NUL
    ensures PayloadStart(buf) == Some(HeaderSize(filename, token))
  {
    var a, b := |filename|, |token|;
    NoNulIn(buf, 0, SET);
    NoNulIn(buf, 4, filename);
    NoNulIn(buf, 5 + a, token);
    ThreeStrings(buf, 3, 4 + a, 5 + a + b);
  }

  /** On a clean request `ptr` lands exactly at `header_size`. */
  lemma CleanPayloadStart(filename: seq<byte>, token: seq<byte>, rest: seq<byte>)
    requires HeaderLine(filename) && HeaderLine(token)
    ensures PayloadStart(Tokenized(filename, token, rest)) == Some(HeaderSize(filename, token))
  {
    TokenizedLayout(filename, token, rest);
    HeaderPayloadStart(Tokenized(filename, token, rest), filename, token);
  }

  /** A clean `set` request is `header_size` bytes of header followed by `rest`. */
  lemma RequestLength(filename: seq<byte>, token: seq<byte>, rest: seq<byte>)
    ensures |SetRequest(filename, token, rest)| == HeaderSize(filename, token) + |rest|
  {
  }

  /** A clean `set` request: no blank header line, a filename under 100 bytes that
      also fits `PATH_MAX`, a length token that `atoi` reads as a non-zero `int`, and a
      request length (`header_size` plus the bytes after the header) that fits a
      `long`. */
  predicate CleanSet(filename: seq<byte>, token: seq<byte>, rest: seq<byte>, pathMax: nat)
  {
    && HeaderLine(filename) && HeaderLine(token)
    && |filename| < MAX_LENGTH && |filename| < pathMax
    && INT_MIN <= Atoi(token) <= INT_MAX && Atoi(token) != 0
    && HeaderSize(filename, token) + |rest| <= LONG_MAX
  }

  /** What a clean `set` request with header size `h` and `rest` after its header
      yields, as stated by `SetFraming`. */
  function CleanOutcome(filename: seq<byte>, length: int, rest: seq<byte>, h: nat): Result<Command, Error>
  {
    if length > 0 then
      if |rest| < length then Err(ShortPayload(filename))
      else Ok(Set(filename, length, rest[..length]))
    else if length + h < 0 then Err(ShortPayload(filename))
    else Ok(Set(filename, length, []))
  }

  /** The size check and the payload bounds on a buffer whose payload pointer lands at
      `h`, the header size, followed by `rest` and the terminator. */
  lemma FrameOnBuffer(filename: seq<byte>, length: int, rest: seq<byte>, buf: seq<byte>, h: nat)
    requires INT_MIN <= length <= INT_MAX && length != 0 && h + |rest| <= LONG_MAX
    requires PayloadStart(buf) == Some(h) && h <= |buf| && buf[h..] == rest + [NUL]
    ensures SizedFrame(h + |rest|, filename, h, length, buf) == CleanOutcome(filename, length, rest, h)
  {
    var r := SizedFrame(h + |rest|, filename, h, length, buf);
    if length > 0 {
      assert SizeT(h + length) == h + length;
      if |rest| >= length {
        assert buf[h..h + length] == buf[h..][..length];
        assert (rest + [NUL])[..length] == rest[..length];
        assert r == Ok(Set(filename, length, rest[..length]));
      } else {
        assert r == Err(ShortPayload(filename));
      }
    } else if length + h < 0 {
      assert SizeT(h + length) == h + length + SIZE_MODULUS;
      assert r == Err(ShortPayload(filename));
    } else {
      assert SizeT(h + length) == h + length;
      assert r == Ok(Set(filename, length, []));
    }
  }

  /** The size check and the payload bounds on the buffer `strtok` leaves for a clean
      `set` request with a non-zero `length`. */
  lemma CleanFrame(filename: seq<byte>, token: seq<byte>, rest: seq<byte>, length: int)
    requires HeaderLine(filename) && HeaderLine(token)
    requires INT_MIN <= length <= INT_MAX && length != 0
    requires HeaderSize(filename, token) + |rest| <= LONG_MAX
    ensures SizedFrame(|SetRequest(filename, token, rest)|, filename, HeaderSize(filename, token),
                       length, Tokenized(filename, token, rest))
      == CleanOutcome(filename, length, rest, HeaderSize(filename, token))
  {
    var h := HeaderSize(filename, token);
    var buf := Tokenized(filename, token, rest);
    RequestLength(filename, token, rest);
    CleanPayloadStart(filename, token, rest);
    TokenizedLayout(filename, token, rest);
    FrameOnBuffer(filename, length, rest, buf, h);
  }

  /** Payload framing of a clean `set` request: a positive length is accepted exactly
      when at least that many bytes follow the header, and the payload is then exactly
      those bytes, opaque whatever they contain; a negative length passes the 64-bit
      size check when it is no larger in magnitude than the header, and is then
      accepted with nothing to write. */
  lemma SetFraming(filename: seq<byte>, token: seq<byte>, rest: seq<byte>, pathMax: nat)
    requires CleanSet(filename, token, rest, pathMax)
    ensures var length := Atoi(token);
      Parse(SetRequest(filename, token, rest), pathMax) ==
        if length > 0 then
          if |rest| < length then Err(ShortPayload(filename))
          else Ok(Set(filename, length, rest[..length]))
        else if length + HeaderSize(filename, token) < 0 then Err(ShortPayload(filename))
        else Ok(Set(filename, length, []))
  {
    SetRequestTokens(filename, token, rest, pathMax);
    CleanFrame(filename, token, rest, Atoi(token));
  }

  /** Stepping over the C string at `p` lands just past its terminator at `q`. */
  lemma StepOverTo(buf: seq<byte>, p: nat, q: nat)
    requires p <= q < |buf| && buf[q] == NUL
    requires forall i | p <= i < q :: buf[i] != NUL
    ensures StepOver(buf, p) == Some(q + 1)
  {
    StrlenTo(buf, p, q);
  }

  /** No NUL in `buf[p..q]`. */
  predicate NulFree(buf: seq<byte>, p: nat, q: nat)
    requires q <= |buf|
  {
    forall i | p <= i < q :: buf[i] != NUL
  }

  /** Writing a NUL outside `[p, q)` keeps that range free of NULs. */
  lemma NulFreeUpdate(buf: seq<byte>, p: nat, q: nat, j: nat)
    requires q <= |buf| && j < |buf| && NulFree(buf, p, q) && (j < p || q <= j)
    ensures NulFree(buf[j := NUL], p, q)
  {
  }

  /** Three C strings ending at the NULs `e1 < e2 < e3` put `ptr` at `e3 + 1`. */
  lemma ThreeStrings(buf: seq<byte>, e1: nat, e2: nat, e3: nat)
    requires e1 < e2 < e3 < |buf|
    requires buf[e1] == NUL && buf[e2] == NUL && buf[e3] == NUL
    requires NulFree(buf, 0, e1) && NulFree(buf, e1 + 1, e2) && NulFree(buf, e2 + 1, e3)
    ensures PayloadStart(buf) == Some(e3 + 1)
  {
    StepOverTo(buf, 0, e1);
    StepOverTo(buf, e1 + 1, e2);
    StepOverTo(buf, e2 + 1, e3);
  }

  /** `ptr` always ends one byte past the length token, wherever blank lines put it:
      each step over a C string crosses exactly one of the NULs `strtok` wrote. */
  lemma PayloadFollowsLengthToken(buf: seq<byte>, r1: (Option<Token>, Scan),
                                   r2: (Option<Token>, Scan), r3: (Option<Token>, Scan))
    requires Terminated(buf)
    requires r1 == Strtok(Scan(buf, 0)) && r1.0.Some?
    requires r2 == Strtok(r1.1) && r2.0.Some?
    requires r3 == Strtok(r2.1) && r3.0.Some?
    ensures PayloadStart(r3.1.buf) == Some(r3.0.value.end + 1)
  {
    var e1, e2, e3 := r1.0.value.end, r2.0.value.end, r3.0.value.end;
    var b1, b2, b3 := r1.1.buf, r2.1.buf, r3.1.buf;
    StrtokStep(Scan(buf, 0));
    StrtokStep(r1.1);
    StrtokStep(r2.1);
    NextCursor(Scan(buf, 0));
    NextCursor(r1.1);
    // the NULs written by the later calls lie after each earlier range
    NulFreeUpdate(buf, 0, e1, e1);
    NulFreeUpdate(b1, 0, e1, e2);
    NulFreeUpdate(b2, 0, e1, e3);
    NulFreeUpdate(b1, e1 + 1, e2, e2);
    NulFreeUpdate(b2, e1 + 1, e2, e3);
    NulFreeUpdate(b2, e2 + 1, e3, e3);
    ThreeStrings(b3, e1, e2, e3);
  }

  /** One `strtok` call that finds a token, in the terms the `ptr` walk needs: the
      bytes from the saved position to the token's end hold no NUL, and the one byte
      written is the NUL at that end. */
  lemma StrtokStep(st: Scan)
    requires ValidScan(st) && Strtok(st).0.Some?
    ensures var r := Strtok(st);
      && st.cursor < r.0.value.end < |st.buf|
      && NulFree(st.buf, st.cursor, r.0.value.end)
      && r.1.buf == st.buf[r.0.value.end := NUL]
  {
  }

  /** A call followed by another that finds a token resumed just past the NUL it wrote:
      a token that ended at the terminator would leave nothing for the next call. */
  lemma NextCursor(st: Scan)
    requires ValidScan(st) && Strtok(st).0.Some? && Strtok(Strtok(st).1).0.Some?
    ensures Strtok(st).1.cursor == Strtok(st).0.value.end + 1
  {
    var r := Strtok(st);
    var r' := Strtok(r.1);
    if r.1.cursor != r.0.value.end + 1 {
      assert r'.0.value.start < r'.0.value.end;
    }
  }

  /** "set\n\n" + `filename` + "\n1\n": a `set` request with a blank line before the
      filename and a length of 1. */
  function BlankLineRequest(filename: seq<byte>): seq<byte>
  {
    SET + [NEWLINE, NEWLINE] + filename + [NEWLINE, 49, NEWLINE]
  }

  /** The buffer after the three `strtok` calls on a `BlankLineRequest`. */
  function BlankLineTokenized(filename: seq<byte>): seq<byte>
  {
    var a := |filename|;
    (BlankLineRequest(filename) + [NUL])[3 := NUL][5 + a := NUL][7 + a := NUL]
  }

  /** Where the parts of a `BlankLineRequest` sit in the buffer. */
  lemma BlankLineLayout(filename: seq<byte>)
    ensures var b0 := BlankLineRequest(filename) + [NUL];
      var a := |filename|;
      && |b0| == 9 + a
      && b0[..3] == SET && b0[3] == NEWLINE && b0[4] == NEWLINE
      && b0[5..5 + a] == filename && b0[5 + a] == NEWLINE
      && b0[6 + a..7 + a] == [49] && b0[7 + a] == NEWLINE && b0[8 + a] == NUL
  {
    var b0 := BlankLineRequest(filename) + [NUL];
    assert b0 == (SET + [NEWLINE, NEWLINE]) + filename + [NEWLINE, 49, NEWLINE, NUL];
  }

  /** The first `strtok` call on a `BlankLineRequest` finds "set". */
  lemma BlankLineToken1(filename: seq<byte>)
    requires HeaderLine(filename)
    ensures var b0 := BlankLineRequest(filename) + [NUL];
      Strtok(Scan(b0, 0)) == (Some(Token(0, 3)), Scan(b0[3 := NUL], 4))
  {
    BlankLineLayout(filename);
    StrtokAtLine(BlankLineRequest(filename) + [NUL], 0, 0, 3);
  }

  /** The second skips the blank line and finds the filename. */
  lemma BlankLineToken2(filename: seq<byte>)
    requires HeaderLine(filename)
    ensures var b1 := (BlankLineRequest(filename) + [NUL])[3 := NUL];
      var a := |filename|;
      && Strtok(Scan(b1, 4)) == (Some(Token(5, 5 + a)), Scan(b1[5 + a := NUL], 6 + a))
      && TokenBytes(b1, Token(5, 5 + a)) == filename
  {
    var a := |filename|;
    var b0 := BlankLineRequest(filename) + [NUL];
    BlankLineLayout(filename);
    var b1 := b0[3 := NUL];
    assert b1[5..5 + a] == b0[5..5 + a];
    StrtokAtLine(b1, 4, 5, a);
  }

  /** The third finds the length token "1". */
  lemma BlankLineToken3(filename: seq<byte>)
    requires HeaderLine(filename)
    ensures var a := |filename|;
      var b2 := (BlankLineRequest(filename) + [NUL])[3 := NUL][5 + a := NUL];
      && Strtok(Scan(b2, 6 + a)) == (Some(Token(6 + a, 7 + a)), Scan(BlankLineTokenized(filename), 8 + a))
      && TokenBytes(b2, Token(6 + a, 7 + a)) == [49]
  {
    var a := |filename|;
    var b0 := BlankLineRequest(filename) + [NUL];
    BlankLineLayout(filename);
    var b2 := b0[3 := NUL][5 + a := NUL];
    assert b2[6 + a..7 + a] == b0[6 + a..7 + a];
    StrtokAtLine(b2, 6 + a, 6 + a, 1);
  }

  /** The three `strtok` calls on a `BlankLineRequest` hand `SetFrame` the filename,
      the length token "1" and the tokenized buffer. */
  lemma BlankLineTokens(filename: seq<byte>, pathMax: nat)
    requires HeaderLine(filename) && |filename| < MAX_LENGTH
    ensures var a := |filename|;
      Parse(BlankLineRequest(filename), pathMax)
      == SetFrame(8 + a, filename, [49], BlankLineTokenized(filename), pathMax)
  {
    var a := |filename|;
    var input := BlankLineRequest(filename);
    var b1 := (input + [NUL])[3 := NUL];
    var b2 := b1[5 + a := NUL];
    BlankLineToken1(filename);
    BlankLineToken2(filename);
    BlankLineToken3(filename);
    BlankLineLayout(filename);
    assert input[..3] == SET;
    SetFromTokens(input, pathMax, Scan(b1, 4), Token(5, 5 + a), Scan(b2, 6 + a),
                  Token(6 + a, 7 + a), Scan(BlankLineTokenized(filename), 8 + a));
  }

  /** In the buffer `strtok` leaves for a `BlankLineRequest`, `ptr` lands on the
      terminator written after the input. */
  lemma BlankLinePayloadStart(filename: seq<byte>)
    requires HeaderLine(filename)
    ensures var b3 := BlankLineTokenized(filename);
      var a := |filename|;
      PayloadStart(b3) == Some(8 + a) && b3[8 + a..9 + a] == [NUL]
  {
    var a := |filename|;
    var b0 := BlankLineRequest(filename) + [NUL];
    var b3 := BlankLineTokenized(filename);
    BlankLineLayout(filename);
    assert b3[..3] == b0[..3];
    assert b3[5..5 + a] == b0[5..5 + a];
    NoNulIn(b3, 0, SET);
    NoNulIn(b3, 5, filename);
    assert b3[4] == NEWLINE && b3[6 + a] == 49;
    ThreeStrings(b3, 3, 5 + a, 7 + a);
  }

  /** A blank line between the header lines makes `header_size` one byte short of
      `ptr`: for "set\n\n" + `filename` + "\n1\n" the size check passes and the one
      byte written is the terminator at `contents[total_size]`, a byte the input does
      not contain. */
  lemma BlankLineShiftsPayload(filename: seq<byte>, pathMax: nat)
    requires HeaderLine(filename) && |filename| < MAX_LENGTH && |filename| < pathMax
    ensures Parse(BlankLineRequest(filename), pathMax) == Ok(Set(filename, 1, [NUL]))
  {
    var a := |filename|;
    BlankLineTokens(filename, pathMax);
    BlankLinePayloadStart(filename);
    AtoiIgnoresTrailer(1, []);
    assert DecimalString(1) + [] == [49];
    assert SizeT(HeaderSize(filename, [49]) + 1) == 8 + a;
  }
}
