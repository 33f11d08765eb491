/** Machine-level vocabulary shared by every component: bytes, fixed-width
    integers and the two failure-carrying datatypes. */
module Primitives {

  const U32_RANGE: nat := 0x1_0000_0000
  const U64_MAX: nat := 0xFFFF_FFFF_FFFF_FFFF
  const U128_MAX: nat := 0xFFFF_FFFF_FFFF_FFFF_FFFF_FFFF_FFFF_FFFF

  type U64 = n: nat | n <= U64_MAX
  type U128 = n: nat | n <= U128_MAX

  type Byte = n: nat | n < 256
  type Bytes = seq<Byte>
  type Bytes32 = s: Bytes | |s| == 32 witness seq(32, _ => 0)

  /** An account or validator address: a 32-byte public-key hash. */
  datatype Address = Address(bytes: Bytes32)

  datatype Option<+T> = None | Some(value: T)

  datatype Result<+T, +E> = Ok(value: T) | Err(error: E)

  /** The unchecked `+` of a release build on u128: it wraps. */
  function WrapAdd128(a: U128, b: U128): U128 {
    if a + b <= U128_MAX then a + b else a + b - U128_MAX - 1
  }

  /** The unchecked `+ 1` of a release build on u64. */
  function WrapSucc64(n: U64): U64 {
    if n < U64_MAX then n + 1 else 0
  }

  function Cap128(n: nat): U128 {
    if n <= U128_MAX then n else U128_MAX
  }

  function Min(a: nat, b: nat): nat {
    if a <= b then a else b
  }

  /** serde encoding of one type, as a pair of functions; `Lossless` is the
      round trip every stored or transmitted record relies on. */
  datatype Codec<!T(!new)> = Codec(encode: T -> Bytes, decode: Bytes -> Option<T>) {
    ghost predicate Lossless() {
      forall x: T :: decode(encode(x)) == Some(x)
    }

    /** No proper prefix of an encoding decodes, as with JSON strings and objects. */
    ghost predicate PrefixFree() {
      forall x: T, k: nat :: k < |encode(x)| ==> decode(encode(x)[..k]) == None
    }
  }
}
