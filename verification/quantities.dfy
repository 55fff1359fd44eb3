// The I80F48 fixed-point number and its 16-byte account representation (quantities.rs).
//
// An I80F48 is held as its raw two's-complement bits, an integer in [-2^127, 2^127);
// the number it denotes is bits / 2^48.

module Quantities {
  import opened Bytes
  import opened Errors
  import opened Arith

  const ONE: nat := 0x1_0000_0000_0000               // 2^48, the fixed-point scale
  const TWO_POW_127: int := 0x8000_0000_0000_0000_0000_0000_0000_0000
  const TWO_POW_128: int := 0x1_0000_0000_0000_0000_0000_0000_0000_0000

  predicate InRange(bits: int)
  {
    -TWO_POW_127 <= bits < TWO_POW_127
  }

  type I80F48 = bits: int | InRange(bits)

  /** The account representation: sixteen little-endian bytes. */
  datatype WrappedI80F48 = WrappedI80F48(value: seq<Byte>)
  {
    predicate WellFormed() { |value| == 16 }
  }

  /** The 128-bit two's-complement pattern of the bits, read as unsigned. */
  function Unsigned(i: I80F48): (u: nat)
    ensures u < TWO_POW_128
    ensures u < TWO_POW_127 <==> i >= 0
  {
    assert InRange(i);
    if i < 0 then i + TWO_POW_128 else i
  }

  /** `From<I80F48>`: `to_le_bytes` of the two's-complement bits. */
  function Wrap(i: I80F48): (w: WrappedI80F48)
    ensures w.WellFormed()
  {
    Pow256Values();
    WrappedI80F48(LeEncode(Unsigned(i), 16))
  }

  /** `From<WrappedI80F48>`: `from_le_bytes`, reading the top bit as the sign. */
  function Unwrap(w: WrappedI80F48): I80F48
    requires w.WellFormed()
  {
    Pow256Values();
    var u := LeDecode(w.value);
    if u >= TWO_POW_127 then u - TWO_POW_128 else u
  }

  /** Wrapping and unwrapping loses nothing, in either order. */
  lemma WrapRoundTrip(i: I80F48)
    ensures Unwrap(Wrap(i)) == i
  {
    Pow256Values();
    DecodeEncode(Unsigned(i), 16);
  }

  lemma UnwrapRoundTrip(w: WrappedI80F48)
    requires w.WellFormed()
    ensures Wrap(Unwrap(w)) == w
  {
    Pow256Values();
    EncodeDecode(w.value);
  }

  /** Equality of wrapped values is byte equality, which is equality of the numbers. */
  lemma WrapInjective(a: I80F48, b: I80F48)
    ensures Wrap(a) == Wrap(b) <==> a == b
  {
    WrapRoundTrip(a);
    WrapRoundTrip(b);
  }

  /** `WrappedI80F48::ZERO`: sixteen zero bytes. */
  const ZERO: WrappedI80F48 := WrappedI80F48(seq(16, _ => 0))

  lemma ZeroIsZero()
    ensures ZERO.WellFormed() && Unwrap(ZERO) == 0 && Wrap(0) == ZERO
  {
    Pow256Values();
    var z: seq<Byte> := seq(16, _ => 0);
    assert LeDecode(z) == 0 by {
      var k := 16;
      while k > 0
        invariant 0 <= k <= 16
        invariant LeDecode(z[k..]) == 0
      {
        k := k - 1;
        assert z[k..][1..] == z[k + 1..];
      }
      assert z[0..] == z;
    }
    EncodeDecode(z);
  }

  /** `checked_add`: the exact sum, or None when it leaves the I80F48 range. */
  function CheckedAdd(w: WrappedI80F48, rhs: I80F48): (r: Option<WrappedI80F48>)
    requires w.WellFormed()
    ensures r.None? <==> !InRange(Unwrap(w) + rhs)
    ensures r.Some? ==> r.value.WellFormed() && Unwrap(r.value) == Unwrap(w) + rhs
  {
    var s := Unwrap(w) + rhs;
    if InRange(s) then WrapRoundTrip(s); Some(Wrap(s)) else None
  }

  /** `checked_sub`: the exact difference, or None when it leaves the I80F48 range. */
  function CheckedSub(w: WrappedI80F48, rhs: I80F48): (r: Option<WrappedI80F48>)
    requires w.WellFormed()
    ensures r.None? <==> !InRange(Unwrap(w) - rhs)
    ensures r.Some? ==> r.value.WellFormed() && Unwrap(r.value) == Unwrap(w) - rhs
  {
    var d := Unwrap(w) - rhs;
    if InRange(d) then WrapRoundTrip(d); Some(Wrap(d)) else None
  }

  /** `I80F48::from_num` of an unsigned 64-bit integer: exact. */
  function FromU64(v: U64): (i: I80F48)
    ensures i == v * ONE
  {
    v * ONE
  }

  /** `to_num::<u64>`: drops the fraction (rounding down) and panics unless the result fits in a u64. */
  function ToU64(i: I80F48): (r: Result<U64>)
    ensures r.Ok? <==> 0 <= i && i / ONE < U64_LIMIT
    ensures r.Ok? ==> r.value * ONE <= i < (r.value + 1) * ONE
    ensures r.Err? ==> r.error == Panic
  {
    var n := i / ONE;
    if 0 <= n < U64_LIMIT then Ok(n) else Err(Panic)
  }

  /** `From<u64> for WrappedI80F48` followed by `From<WrappedI80F48> for u64` is the identity. */
  lemma U64RoundTrip(v: U64)
    ensures ToU64(Unwrap(Wrap(FromU64(v)))) == Ok(v)
  {
    WrapRoundTrip(FromU64(v));
    MulDivCancel(v, ONE);
  }

  /** The derived `Ord`: lexicographic on the little-endian bytes. */
  predicate WrappedLess(a: WrappedI80F48, b: WrappedI80F48)
  {
    LexLess(a.value, b.value)
  }

  /**
   * The derived ordering is not numeric order: the bits 1 and 256 are numerically
   * ordered one way and their encodings the other way.
   */
  lemma DerivedOrderIsNotNumeric()
    ensures 1 < 256 && WrappedLess(Wrap(256), Wrap(1))
  {
    Pow256Values();
    assert Wrap(256).value[0] == 0;
    assert Wrap(1).value[0] == 1;
  }
}
