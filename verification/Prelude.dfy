/** Machine integers, bytes and outcome types shared by every component model. */
module Prelude {
  datatype Option<+T> = None | Some(value: T)

  datatype Result<+T, +E> = Ok(value: T) | Err(error: E)

  const TWO_16: int := 0x1_0000
  const TWO_32: int := 0x1_0000_0000
  const TWO_63: int := 0x8000_0000_0000_0000
  const TWO_64: int := 0x1_0000_0000_0000_0000

  type U16 = x: int | 0 <= x < 0x1_0000
  type U32 = x: int | 0 <= x < 0x1_0000_0000
  type U64 = x: int | 0 <= x < 0x1_0000_0000_0000_0000
  type I64 = x: int | -0x8000_0000_0000_0000 <= x < 0x8000_0000_0000_0000

  type Byte = x: int | 0 <= x < 256
  type Bytes = seq<Byte>

  /** `u64::checked_add`. */
  function CheckedAdd(a: nat, b: nat): Option<nat> {
    if a + b < TWO_64 then Some(a + b) else None
  }

  /** The release-mode `+` on `u64`: it wraps. */
  function WrapAdd(a: nat, b: nat): nat {
    (a + b) % TWO_64
  }

  /** `value as i64` for a `u64` value. */
  function AsI64(u: U64): I64 {
    if u < TWO_63 then u else u - TWO_64
  }

  /** `value as u64` for an `i64` value. */
  function AsU64(i: I64): U64 {
    if i >= 0 then i else i + TWO_64
  }

  function Min(a: int, b: int): int {
    if a <= b then a else b
  }

  function Max(a: int, b: int): int {
    if a >= b then a else b
  }

  lemma MulMonotone(a: nat, b: nat, d: nat)
    requires a <= b
    ensures a * d <= b * d
  {
  }

  /** A quotient is determined by its remainder. */
  lemma DivUnique(n: nat, d: nat, q: nat, m: nat)
    requires d > 0 && m < d && n == q * d + m
    ensures n / d == q
  {
    var q', m' := n / d, n % d;
    assert n == q' * d + m';
    if q < q' { MulMonotone(q + 1, q', d); } else if q' < q { MulMonotone(q' + 1, q, d); }
  }

  lemma JoinAssociates<T>(a: seq<T>, b: seq<T>, c: seq<T>)
    ensures a + (b + c) == (a + b) + c
  {
  }

  lemma SubsetSize<T>(a: set<T>, b: set<T>)
    requires a <= b
    ensures |a| <= |b|
  {
    assert b == a + (b - a);
  }
}
