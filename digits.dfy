/** Decimal parsing: the strict `is_all_digits` / `convert_string_to_int` pair
    (memory.c:15-51) and the lenient `atoi` that `set` applies to its length line. */
module Digits {
  import opened Bytes

  /** `isdigit` in the C locale: '0' .. '9'. */
  predicate IsDigit(b: byte) { 48 <= b <= 57 }

  /** `isspace` in the C locale: ' ', '\t', '\n', '\v', '\f', '\r'. */
  predicate IsSpace(b: byte) { b == 32 || 9 <= b <= 13 }

  const MINUS: byte := 45  // '-'
  const PLUS: byte := 43   // '+'

  predicate AllDigits(s: seq<byte>) { forall i | 0 <= i < |s| :: IsDigit(s[i]) }

  function Pow10(n: nat): (p: nat)
    ensures p >= 1
  {
    if n == 0 then 1 else 10 * Pow10(n - 1)
  }

  /** The base-10 value of a string of digits, most significant digit first. */
  function Value(s: seq<byte>): (v: nat)
    requires AllDigits(s)
    ensures v < Pow10(|s|)
  {
    if s == [] then 0 else 10 * Value(s[..|s| - 1]) + (s[|s| - 1] - 48) as nat
  }

  /** The pointer walk of `is_all_digits` from position `i`: false at the first
      non-digit, true on reaching the terminator (a NUL or the end of `mem`). */
  function DigitsFrom(mem: seq<byte>, i: nat): (r: bool)
    requires i <= |mem| && NUL !in mem[..i]
    ensures r <==> AllDigits(CStr(mem[i..]))
    decreases |mem| - i
  {
    if i == |mem| || mem[i] == NUL then true
    else if !IsDigit(mem[i]) then false
    else
      assert CStr(mem[i..]) == [mem[i]] + CStr(mem[i + 1..]);
      DigitsFrom(mem, i + 1)
  }

  /** `is_all_digits(str)`; `None` stands for a NULL pointer, `Some(mem)` for the
      memory the pointer addresses. */
  function IsAllDigits(str: Option<seq<byte>>): (r: bool)
    ensures r <==> str.Some? && CStr(str.value) != [] && AllDigits(CStr(str.value))
  {
    match str
    case None => false
    case Some(mem) => !(mem == [] || mem[0] == NUL) && DigitsFrom(mem, 0)
  }

  /** `strtol(s, &end, 10)` on a string of digits: the value, clamped to `LONG_MAX`
      with `errno` set to `ERANGE` when it does not fit in a `long`. */
  function StrtolDigits(s: seq<byte>): (r: (int, bool))
    requires AllDigits(s)
  {
    var v := Value(s);
    if v > LONG_MAX then (LONG_MAX, true) else (v, false)
  }

  /** `convert_string_to_int(str)`: the value of an all-digit string that fits in an
      `int`, and -1 for NULL, empty, non-digit or too large input. */
  function ConvertStringToInt(str: Option<seq<byte>>): (r: int)
    ensures -1 <= r <= INT_MAX
    ensures r == -1 <==> !IsAllDigits(str) || Value(CStr(str.value)) > INT_MAX
    ensures r != -1 ==> r == Value(CStr(str.value))
  {
    if !IsAllDigits(str) then -1
    else
      var (val, erange) := StrtolDigits(CStr(str.value));
      if (val == LONG_MAX || val == LONG_MIN) && erange then -1
      else if val > INT_MAX || val < INT_MIN then -1
      else val
  }

  /** The canonical decimal spelling of `n`: no sign, no leading zero. */
  function DecimalString(n: nat): (s: seq<byte>)
    ensures s != [] && AllDigits(s) && NUL !in s
    ensures s[0] == 48 ==> n == 0
  {
    if n < 10 then [(48 + n) as byte] else DecimalString(n / 10) + [(48 + n % 10) as byte]
  }

  /** `DecimalString` and `Value` are inverse: spelling `n` and reading it back gives `n`. */
  lemma {:induction false} ValueOfDecimal(n: nat)
    ensures Value(DecimalString(n)) == n
  {
    if n >= 10 {
      var s := DecimalString(n);
      assert s[..|s| - 1] == DecimalString(n / 10);
      ValueOfDecimal(n / 10);
    }
  }

  /** A string without NUL is its own C string. */
  lemma {:induction false} CStrOfNulFree(s: seq<byte>)
    requires NUL !in s
    ensures CStr(s) == s
  {
  }

  /** Round trip through `convert_string_to_int`: the decimal spelling of any `n`
      converts back to `n` when it fits in an `int`, and to -1 when it does not. */
  lemma ConvertDecimal(n: nat)
    ensures ConvertStringToInt(Some(DecimalString(n))) == if n <= INT_MAX then n else -1
  {
    CStrOfNulFree(DecimalString(n));
    ValueOfDecimal(n);
  }

  /** The leading spaces `atoi` skips. */
  function SkipSpaces(s: seq<byte>): (r: seq<byte>)
    ensures |r| <= |s| && r == s[|s| - |r|..]
    ensures r == [] || !IsSpace(r[0])
  {
    if s == [] || !IsSpace(s[0]) then s else SkipSpaces(s[1..])
  }

  /** The longest run of digits at the front of `s`. */
  function DigitRun(s: seq<byte>): (r: seq<byte>)
    ensures r <= s && AllDigits(r)
    ensures |r| < |s| ==> !IsDigit(s[|r|])
  {
    if s == [] || !IsDigit(s[0]) then [] else [s[0]] + DigitRun(s[1..])
  }

  /** `atoi(s)` (memory.c:182) as the exact integer it denotes: leading white space
      skipped, an optional sign, then as many digits as follow; anything else ends
      the number, and no digits at all read as 0. Whether the value fits in an `int`
      (outside it `atoi` is undefined) is left to the caller. */
  function Atoi(s: seq<byte>): int
  {
    var t := SkipSpaces(s);
    if t != [] && t[0] == MINUS then -(Value(DigitRun(t[1..])) as int)
    else if t != [] && t[0] == PLUS then Value(DigitRun(t[1..]))
    else Value(DigitRun(t))
  }

  /** `atoi` ignores whatever follows the digits: the decimal spelling of `n` followed
      by any byte that is not a digit reads as `n`. */
  lemma AtoiIgnoresTrailer(n: nat, rest: seq<byte>)
    requires rest == [] || !IsDigit(rest[0])
    ensures Atoi(DecimalString(n) + rest) == n
  {
    var s := DecimalString(n) + rest;
    assert s[0] == DecimalString(n)[0];
    assert SkipSpaces(s) == s;
    DigitRunOfDigits(DecimalString(n), rest);
    ValueOfDecimal(n);
  }

  lemma {:induction false} DigitRunOfDigits(d: seq<byte>, rest: seq<byte>)
    requires AllDigits(d)
    requires rest == [] || !IsDigit(rest[0])
    ensures DigitRun(d + rest) == d
  {
    if d != [] {
      assert (d + rest)[1..] == d[1..] + rest;
      DigitRunOfDigits(d[1..], rest);
    }
  }

  /** The decimal spelling of any integer, with a '-' in front when it is negative. */
  function SignedDecimal(n: int): (s: seq<byte>)
    ensures NUL !in s
  {
    if n < 0 then [MINUS] + DecimalString(-n) else DecimalString(n)
  }

  /** `atoi` reads back every signed decimal spelling. */
  lemma AtoiSigned(n: int)
    ensures Atoi(SignedDecimal(n)) == n
  {
    if n < 0 {
      var s := SignedDecimal(n);
      assert SkipSpaces(s) == s;
      assert s[1..] == DecimalString(-n);
      DigitRunOfDigits(DecimalString(-n), []);
      assert DecimalString(-n) + [] == DecimalString(-n);
      ValueOfDecimal(-n);
    } else {
      AtoiIgnoresTrailer(n, []);
      assert DecimalString(n) + [] == DecimalString(n);
    }
  }

  /** On the strings the strict parser accepts, the lenient one agrees with it. */
  lemma AtoiAgreesWithConvert(s: seq<byte>)
    requires NUL !in s
    requires ConvertStringToInt(Some(s)) != -1
    ensures Atoi(s) == ConvertStringToInt(Some(s))
  {
    CStrOfNulFree(s);
    assert SkipSpaces(s) == s;
    DigitRunOfDigits(s, []);
    assert s + [] == s;
  }

  /** Where the two differ: a token with no digits at all is rejected by the strict
      parser but read as 0 by `atoi`. */
  lemma AtoiLenientOnGarbage(s: seq<byte>)
    requires NUL !in s && s != []
    requires !IsSpace(s[0]) && !IsDigit(s[0]) && s[0] != MINUS && s[0] != PLUS
    ensures ConvertStringToInt(Some(s)) == -1
    ensures Atoi(s) == 0
  {
  }
}
