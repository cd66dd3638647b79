/** `strtok(_, "\n")` over the input buffer (memory.c:94, 107, 117, 168, 179), with the
    pointer it keeps between calls made explicit, and the in-place NUL writes kept. */
module Tokenizer {
  import opened Bytes

  /** A buffer `strtok` may scan: it ends with the terminator memory.c:91 writes. */
  predicate Terminated(buf: seq<byte>) { |buf| > 0 && buf[|buf| - 1] == NUL }

  /** What `strtok` carries from one call to the next: the buffer, which it rewrites,
      and the saved position where the next call resumes. */
  datatype Scan = Scan(buf: seq<byte>, cursor: nat)

  predicate ValidScan(st: Scan) { Terminated(st.buf) && st.cursor < |st.buf| }

  /** A token is the byte range `[start, end)` of the buffer; it is never copied. */
  datatype Token = Token(start: nat, end: nat)

  /** `s + strspn(s, "\n")`: the first position at or after `p` that is not a delimiter. */
  function SkipDelims(buf: seq<byte>, p: nat): (q: nat)
    requires Terminated(buf) && p < |buf|
    ensures p <= q < |buf| && buf[q] != NEWLINE
    ensures forall i | p <= i < q :: buf[i] == NEWLINE
    decreases |buf| - p
  {
    if buf[p] != NEWLINE then p else SkipDelims(buf, p + 1)
  }

  /** `s + strcspn(s, "\n")`: the first delimiter or terminator at or after `p`. */
  function FindDelim(buf: seq<byte>, p: nat): (q: nat)
    requires Terminated(buf) && p < |buf|
    ensures p <= q < |buf| && (buf[q] == NEWLINE || buf[q] == NUL)
    ensures forall i | p <= i < q :: buf[i] != NEWLINE && buf[i] != NUL
    decreases |buf| - p
  {
    if buf[p] == NEWLINE || buf[p] == NUL then p else FindDelim(buf, p + 1)
  }

  /** One call of `strtok` with delimiter "\n", resuming at the saved position:
      skip delimiters; at the terminator there is no token; otherwise the token runs
      to the next delimiter, which is overwritten with NUL and stepped over. */
  function Strtok(st: Scan): (r: (Option<Token>, Scan))
    requires ValidScan(st)
    ensures ValidScan(r.1) && |r.1.buf| == |st.buf|
    ensures r.0.None? ==>
      && r.1.buf == st.buf && st.cursor <= r.1.cursor && st.buf[r.1.cursor] == NUL
      && (forall i | st.cursor <= i < r.1.cursor :: st.buf[i] == NEWLINE)
    ensures r.0.Some? ==>
      var t := r.0.value;
      && st.cursor <= t.start < t.end < |st.buf|
      && (forall i | st.cursor <= i < t.start :: st.buf[i] == NEWLINE)
      && (st.buf[t.end] == NEWLINE || st.buf[t.end] == NUL)
      && (forall i | st.cursor <= i < t.end :: st.buf[i] != NUL)
      && (forall i | t.start <= i < t.end :: st.buf[i] != NEWLINE)
      && r.1.buf == st.buf[t.end := NUL]
      && (r.1.cursor == t.end + 1 || (r.1.cursor == t.end && st.buf[t.end] == NUL))
  {
    var s := SkipDelims(st.buf, st.cursor);
    if st.buf[s] == NUL then (None, Scan(st.buf, s))
    else
      var e := FindDelim(st.buf, s);
      if st.buf[e] == NUL then
        assert st.buf[e := NUL] == st.buf;
        (Some(Token(s, e)), Scan(st.buf, e))
      else (Some(Token(s, e)), Scan(st.buf[e := NUL], e + 1))
  }

  /** The bytes of a token. */
  function TokenBytes(buf: seq<byte>, t: Token): seq<byte>
    requires t.start <= t.end <= |buf|
  {
    buf[t.start..t.end]
  }

  /** `strlen(buf + p)`: the number of bytes before the first NUL at or after `p`
      (all the rest of `buf` when it holds none). */
  function Strlen(buf: seq<byte>, p: nat): (n: nat)
    requires p <= |buf|
    ensures p + n <= |buf|
    ensures forall i | p <= i < p + n :: buf[i] != NUL
    ensures p + n < |buf| ==> buf[p + n] == NUL
    decreases |buf| - p
  {
    if p == |buf| || buf[p] == NUL then 0 else 1 + Strlen(buf, p + 1)
  }

  /** The length of the line at the front of `s`: the bytes before its first '\n'. */
  function LineLength(s: seq<byte>): (n: nat)
    ensures n <= |s| && NEWLINE !in s[..n]
    ensures n < |s| ==> s[n] == NEWLINE
  {
    if s == [] || s[0] == NEWLINE then 0 else 1 + LineLength(s[1..])
  }

  /** Reference splitter: the non-empty lines of `s`, in order, without their '\n'. */
  function Fields(s: seq<byte>): (fs: seq<seq<byte>>)
    ensures forall k | 0 <= k < |fs| :: fs[k] != [] && NEWLINE !in fs[k]
    ensures NUL !in s ==> forall k | 0 <= k < |fs| :: NUL !in fs[k]
    decreases |s|
  {
    if s == [] then []
    else if s[0] == NEWLINE then Fields(s[1..])
    else
      var n := LineLength(s);
      [s[..n]] + Fields(s[n..])
  }

  /** The lines `ls`, each followed by '\n'. */
  function JoinLines(ls: seq<seq<byte>>): seq<byte>
  {
    if ls == [] then [] else ls[0] + [NEWLINE] + JoinLines(ls[1..])
  }

  /** Splitting undoes joining, for lines that are non-empty and hold no '\n'. */
  lemma {:induction false} FieldsOfJoinLines(ls: seq<seq<byte>>)
    requires forall k | 0 <= k < |ls| :: ls[k] != [] && NEWLINE !in ls[k]
    ensures Fields(JoinLines(ls)) == ls
  {
    if ls != [] {
      FieldsOfLine(ls[0], JoinLines(ls[1..]));
      FieldsOfJoinLines(ls[1..]);
    }
  }

  /** A non-empty line and its '\n' contribute exactly that line as the first field. */
  lemma FieldsOfLine(line: seq<byte>, rest: seq<byte>)
    requires line != [] && NEWLINE !in line
    ensures Fields(line + [NEWLINE] + rest) == [line] + Fields(rest)
  {
    var s := line + [NEWLINE] + rest;
    var n := |line|;
    var tail := [NEWLINE] + rest;
    assert s == line + tail;
    LineLengthOfLine(line, tail);
    assert s[0] == line[0];
    assert s[..n] == line && s[n..] == tail;
    assert tail[1..] == rest;
  }

  /** The fields `strtok` has still to deliver from a scan state. */
  function Remaining(st: Scan): seq<seq<byte>>
    requires st.cursor <= |st.buf|
  {
    Fields(CStr(st.buf[st.cursor..]))
  }

  lemma {:induction false} LineLengthOfLine(a: seq<byte>, b: seq<byte>)
    requires NEWLINE !in a
    requires b == [] || b[0] == NEWLINE
    ensures LineLength(a + b) == |a|
  {
    if a != [] {
      assert (a + b)[1..] == a[1..] + b;
      LineLengthOfLine(a[1..], b);
    }
  }

  /** The C string at `p` is the NUL-free bytes up to `q` followed by the C string at `q`. */
  lemma {:induction false} CStrSplit(buf: seq<byte>, p: nat, q: nat)
    requires p <= q <= |buf|
    requires forall i | p <= i < q :: buf[i] != NUL
    ensures CStr(buf[p..]) == buf[p..q] + CStr(buf[q..])
    decreases q - p
  {
    if p < q {
      assert buf[p..][1..] == buf[p + 1..];
      CStrSplit(buf, p + 1, q);
    }
  }

  /** `strlen` from `p` stops at the first NUL, found at `q`. */
  lemma StrlenTo(buf: seq<byte>, p: nat, q: nat)
    requires p <= q < |buf| && buf[q] == NUL
    requires forall i | p <= i < q :: buf[i] != NUL
    ensures Strlen(buf, p) == q - p
  {
  }

  lemma {:induction false} SkipKeepsRemaining(buf: seq<byte>, p: nat)
    requires Terminated(buf) && p < |buf|
    ensures Remaining(Scan(buf, p)) == Remaining(Scan(buf, SkipDelims(buf, p)))
    decreases |buf| - p
  {
    if buf[p] == NEWLINE {
      CStrSplit(buf, p, p + 1);
      assert ([NEWLINE] + CStr(buf[p + 1..]))[1..] == CStr(buf[p + 1..]);
      SkipKeepsRemaining(buf, p + 1);
    }
  }

  /** A delimiter contributes no field: the fields after a '\n' at `p` are those from `p + 1`. */
  lemma DelimKeepsRemaining(buf: seq<byte>, p: nat)
    requires p < |buf| && buf[p] == NEWLINE
    ensures Remaining(Scan(buf, p)) == Remaining(Scan(buf, p + 1))
  {
    var x, c := CStr(buf[p..]), CStr(buf[p + 1..]);
    CStrSplit(buf, p, p + 1);
    assert buf[p..p + 1] == [NEWLINE];
    assert x == [NEWLINE] + c;
    assert x[0] == NEWLINE && x[1..] == c;
    assert Fields(x) == Fields(c);
  }

  /** The field found at `[s, e)` comes first, then those from the delimiter at `e`. */
  lemma FieldAt(buf: seq<byte>, s: nat, e: nat)
    requires s < e < |buf| && (buf[e] == NEWLINE || buf[e] == NUL)
    requires forall i | s <= i < e :: buf[i] != NEWLINE && buf[i] != NUL
    ensures Remaining(Scan(buf, s)) == [buf[s..e]] + Remaining(Scan(buf, e))
  {
    CStrSplit(buf, s, e);
    var x := CStr(buf[s..]);
    var tail := CStr(buf[e..]);
    assert tail == [] || tail[0] == NEWLINE;
    LineLengthOfLine(buf[s..e], tail);
    assert x[..e - s] == buf[s..e];
    assert x[e - s..] == tail;
  }

  /** A token ended by a '\n' at `e`: once that delimiter is overwritten with NUL, the
      fields from `e + 1` are still those that followed the token. */
  lemma DelimToken(buf: seq<byte>, s: nat, e: nat)
    requires s < e < |buf| && buf[e] == NEWLINE
    requires forall i | s <= i < e :: buf[i] != NEWLINE && buf[i] != NUL
    ensures Remaining(Scan(buf, s)) == [buf[s..e]] + Remaining(Scan(buf[e := NUL], e + 1))
  {
    FieldAt(buf, s, e);
    DelimKeepsRemaining(buf, e);
    assert buf[e := NUL][e + 1..] == buf[e + 1..];
  }

  /** A token ended by the terminator at `e` is the last field. */
  lemma LastToken(buf: seq<byte>, s: nat, e: nat)
    requires s < e < |buf| && buf[e] == NUL
    requires forall i | s <= i < e :: buf[i] != NEWLINE && buf[i] != NUL
    ensures Remaining(Scan(buf, s)) == [buf[s..e]] && Remaining(Scan(buf, e)) == []
  {
    FieldAt(buf, s, e);
    assert CStr(buf[e..]) == [];
  }

  /** `strtok` finds only delimiters before the terminator: no field remains. */
  lemma StrtokAtEnd(st: Scan)
    requires ValidScan(st) && st.buf[SkipDelims(st.buf, st.cursor)] == NUL
    ensures Strtok(st).0.None? && Remaining(st) == [] && Remaining(Strtok(st).1) == []
  {
    var s := SkipDelims(st.buf, st.cursor);
    SkipKeepsRemaining(st.buf, st.cursor);
    assert CStr(st.buf[s..]) == [];
  }

  /** `strtok` finds a token that runs to the terminator: it is the last field. */
  lemma StrtokLastField(st: Scan)
    requires ValidScan(st)
    requires var s := SkipDelims(st.buf, st.cursor);
      st.buf[s] != NUL && st.buf[FindDelim(st.buf, s)] == NUL
    ensures Strtok(st).0.Some?
    ensures Remaining(st) == [TokenBytes(st.buf, Strtok(st).0.value)] + Remaining(Strtok(st).1)
  {
    var buf := st.buf;
    var s := SkipDelims(buf, st.cursor);
    var e := FindDelim(buf, s);
    SkipKeepsRemaining(buf, st.cursor);
    LastToken(buf, s, e);
    assert [buf[s..e]] + [] == [buf[s..e]];
  }

  /** `strtok` finds a token ended by '\n': the fields after it are left. */
  lemma StrtokDelimField(st: Scan)
    requires ValidScan(st)
    requires var s := SkipDelims(st.buf, st.cursor);
      st.buf[s] != NUL && st.buf[FindDelim(st.buf, s)] == NEWLINE
    ensures Strtok(st).0.Some?
    ensures Remaining(st) == [TokenBytes(st.buf, Strtok(st).0.value)] + Remaining(Strtok(st).1)
  {
    var buf := st.buf;
    var s := SkipDelims(buf, st.cursor);
    var e := FindDelim(buf, s);
    SkipKeepsRemaining(buf, st.cursor);
    DelimToken(buf, s, e);
    var r := Strtok(st);
    assert r.0 == Some(Token(s, e)) && r.1 == Scan(buf[e := NUL], e + 1);
  }

  /** The fields still to deliver are the token `strtok` yields followed by those it
      leaves; when it yields nothing, none remain before or after. */
  lemma StrtokSplits(st: Scan)
    requires ValidScan(st)
    ensures Strtok(st).0.None? ==> Remaining(st) == [] && Remaining(Strtok(st).1) == []
    ensures Strtok(st).0.Some? ==>
      Remaining(st) == [TokenBytes(st.buf, Strtok(st).0.value)] + Remaining(Strtok(st).1)
  {
    var s := SkipDelims(st.buf, st.cursor);
    if st.buf[s] == NUL {
      StrtokAtEnd(st);
    } else if st.buf[FindDelim(st.buf, s)] == NUL {
      StrtokLastField(st);
    } else {
      StrtokDelimField(st);
    }
  }

  /** `strtok` delivers exactly the reference fields: it yields nothing iff none remain,
      and otherwise yields the first remaining field and leaves the rest. */
  lemma StrtokYieldsFields(st: Scan)
    requires ValidScan(st)
    ensures Strtok(st).0.None? <==> Remaining(st) == []
    ensures Strtok(st).0.None? ==> Remaining(Strtok(st).1) == []
    ensures Strtok(st).0.Some? ==>
      && TokenBytes(st.buf, Strtok(st).0.value) == Remaining(st)[0]
      && Remaining(Strtok(st).1) == Remaining(st)[1..]
  {
    StrtokSplits(st);
    var (t, st') := Strtok(st);
    if t.Some? {
      var rest := Remaining(st');
      assert ([TokenBytes(st.buf, t.value)] + rest)[1..] == rest;
    }
  }
}
