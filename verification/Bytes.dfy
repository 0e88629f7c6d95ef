/** Bytes, fixed-width integers and the optional values used throughout the model. */
module Bytes {

  /** A Go value that may be nil. */
  datatype Option<+T> = None | Some(value: T)

  type Byte = x: int | 0 <= x < 256

  const TWO63: int := 0x8000_0000_0000_0000
  const TWO64: int := 0x1_0000_0000_0000_0000

  type U16 = x: int | 0 <= x < 0x1_0000
  type U64 = x: int | 0 <= x < TWO64
  type I64 = x: int | -TWO63 <= x < TWO63

  /** The value a uint64 keeps of an exact integer: the remainder modulo 2^64. */
  function Wrap(x: int): (r: U64)
    decreases x < 0, if x < 0 then -x else x
  {
    if x < 0 then Wrap(x + TWO64)
    else if x < TWO64 then x
    else Wrap(x - TWO64)
  }

  lemma WrapShift(x: int)
    ensures Wrap(x + TWO64) == Wrap(x)
  {
  }

  lemma {:induction false} WrapIsRemainder(x: int)
    ensures Wrap(x) == x % TWO64
    decreases x < 0, if x < 0 then -x else x
  {
    if x < 0 {
      WrapIsRemainder(x + TWO64);
    } else if x >= TWO64 {
      WrapIsRemainder(x - TWO64);
    }
  }

  /** Wrapping early or late makes no difference to a sum. */
  lemma {:induction false} WrapAdd(x: int, y: int)
    ensures Wrap(Wrap(x) + y) == Wrap(x + y)
    ensures Wrap(Wrap(x) - y) == Wrap(x - y)
    decreases x < 0, if x < 0 then -x else x
  {
    if x < 0 {
      WrapAdd(x + TWO64, y);
      WrapShift(x + y);
      WrapShift(x - y);
    } else if x >= TWO64 {
      WrapAdd(x - TWO64, y);
      WrapShift(x - TWO64 + y);
      WrapShift(x - TWO64 - y);
    }
  }

  /** int64(x) for a uint64 x. */
  function AsInt64(x: U64): (r: I64)
    ensures r % TWO64 == x
  {
    if x < TWO63 then x else x - TWO64
  }

  /** uint64(x) for an int64 x. */
  function AsUint64(x: I64): (r: U64)
    ensures AsInt64(r) == x
  {
    if x < 0 then x + TWO64 else x
  }

  /** Little-endian 16 bit read. */
  function U16At(b: seq<Byte>, offset: nat): U16
    requires offset + 2 <= |b|
  {
    (b[offset] as int) + 0x100 * (b[offset + 1] as int)
  }

  /** Little-endian 16 bit write, the inverse of U16At. */
  function U16Bytes(x: U16): (r: seq<Byte>)
    ensures |r| == 2 && U16At(r, 0) == x
  {
    [x % 0x100, x / 0x100]
  }

  /** Little-endian 32 bit read; at most 2^32 - 1. */
  function U32At(b: seq<Byte>, offset: nat): (r: int)
    requires offset + 4 <= |b|
    ensures 0 <= r < 0x1_0000_0000
  {
    (U16At(b, offset) as int) + 0x1_0000 * (U16At(b, offset + 2) as int)
  }

  /** Little-endian 64 bit read. */
  function U64At(b: seq<Byte>, offset: nat): U64
    requires offset + 8 <= |b|
  {
    U32At(b, offset) + 0x1_0000_0000 * U32At(b, offset + 4)
  }

  function Zeros(n: nat): (r: seq<Byte>)
    ensures |r| == n && forall i :: 0 <= i < n ==> r[i] == 0
  {
    seq(n, _ => 0)
  }

  const RTA_ALIGNTO := 4

  /** rtaAlignOf: the least multiple of RTA_ALIGNTO that is at least n. */
  function RtaAlignOf(n: nat): (r: nat)
    ensures r % RTA_ALIGNTO == 0 && n <= r < n + RTA_ALIGNTO
  {
    n + RTA_ALIGNTO - 1 - (n + RTA_ALIGNTO - 1) % RTA_ALIGNTO
  }

  lemma AppendAssociates<T>(a: seq<T>, b: seq<T>, c: seq<T>)
    ensures (a + b) + c == a + (b + c)
  {
  }
}
