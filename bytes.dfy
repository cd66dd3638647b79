/** Bytes, C-string helpers and the failure-carrying wrappers shared by every stage. */
module Bytes {

  /** One octet of the input stream or of a file. */
  newtype byte = x: int | 0 <= x < 256

  /** The string terminator the C code writes and stops at. */
  const NUL: byte := 0
  /** The header delimiter, '\n'. */
  const NEWLINE: byte := 10

  /** `MAX_LENGTH` (memory.c:12): the size of the `cmd` and `filename` arrays. */
  const MAX_LENGTH: nat := 100

  /** `INT_MAX` and `INT_MIN` of a 32-bit `int`. */
  const INT_MAX: int := 0x7fff_ffff
  const INT_MIN: int := -0x8000_0000
  /** `LONG_MAX` and `LONG_MIN` of a 64-bit `long`. */
  const LONG_MAX: int := 0x7fff_ffff_ffff_ffff
  const LONG_MIN: int := -0x8000_0000_0000_0000
  /** 2^64: `size_t` arithmetic is taken modulo this. */
  const SIZE_MODULUS: int := 0x1_0000_0000_0000_0000

  /** A value converted to `size_t`: taken modulo 2^64. */
  function SizeT(x: int): (r: nat)
    ensures r < SIZE_MODULUS
    ensures -SIZE_MODULUS <= x < SIZE_MODULUS ==> r == if x >= 0 then x else x + SIZE_MODULUS
  {
    x % SIZE_MODULUS
  }

  /** The command words, as bytes. */
  const GET: seq<byte> := [103, 101, 116]  // "get"
  const SET: seq<byte> := [115, 101, 116]  // "set"

  datatype Option<+T> = None | Some(value: T)

  datatype Result<+T, +E> = Ok(value: T) | Err(error: E)

  /** The C string stored at the front of `mem`: every byte before the first NUL
      (all of `mem` when it holds none, the end of `mem` standing for the terminator). */
  function CStr(mem: seq<byte>): (r: seq<byte>)
    ensures r <= mem && NUL !in r
    ensures |r| < |mem| ==> mem[|r|] == NUL
  {
    if mem == [] || mem[0] == NUL then [] else [mem[0]] + CStr(mem[1..])
  }

  /** The first `n` bytes of `s`, or all of `s` when it is shorter: what `strncpy` keeps. */
  function Prefix(s: seq<byte>, n: nat): (r: seq<byte>)
    ensures |r| == if |s| < n then |s| else n
    ensures r <= s
  {
    if |s| <= n then s else s[..n]
  }
}
