// Fixed-width unsigned integers and their little-endian byte encoding, shared by the
// fixed-point wrapper, the token account layout and the instruction data builders.

module Bytes {
  type Byte = b: int | 0 <= b < 256

  const U16_LIMIT: nat := 0x1_0000
  const U32_LIMIT: nat := 0x1_0000_0000
  const U64_LIMIT: nat := 0x1_0000_0000_0000_0000
  const U64_MAX: nat := U64_LIMIT - 1

  type U16 = x: int | 0 <= x < U16_LIMIT
  type U32 = x: int | 0 <= x < U32_LIMIT
  type U64 = x: int | 0 <= x < U64_LIMIT

  /** `x.wrapping_add(1)` on a 64-bit unsigned counter. */
  function WrappingIncU64(x: U64): (r: U64)
    ensures x < U64_MAX ==> r == x + 1
    ensures x == U64_MAX ==> r == 0
  {
    (x + 1) % U64_LIMIT
  }

  /** `x.wrapping_sub(1)` on a 64-bit unsigned counter. */
  function WrappingDecU64(x: U64): (r: U64)
    ensures x > 0 ==> r == x - 1
    ensures x == 0 ==> r == U64_MAX
  {
    (x - 1) % U64_LIMIT
  }

  function Pow256(n: nat): (p: nat)
    ensures p >= 1
  {
    if n == 0 then 1 else 256 * Pow256(n - 1)
  }

  lemma Pow256Values()
    ensures Pow256(2) == U16_LIMIT && Pow256(4) == U32_LIMIT && Pow256(8) == U64_LIMIT
    ensures Pow256(16) == 0x1_0000_0000_0000_0000_0000_0000_0000_0000
  {
    assert Pow256(1) == 0x100;
    assert Pow256(2) == 0x1_0000;
    assert Pow256(4) == 0x1_0000_0000 by { assert Pow256(3) == 0x100_0000; }
    assert Pow256(8) == U64_LIMIT by {
      assert Pow256(5) == 0x100_0000_0000;
      assert Pow256(6) == 0x1_0000_0000_0000;
      assert Pow256(7) == 0x100_0000_0000_0000;
    }
    assert Pow256(12) == 0x1_0000_0000_0000_0000_0000_0000 by {
      assert Pow256(9) == 0x100_0000_0000_0000_0000;
      assert Pow256(10) == 0x1_0000_0000_0000_0000_0000;
      assert Pow256(11) == 0x100_0000_0000_0000_0000_0000;
    }
    assert Pow256(13) == 0x100_0000_0000_0000_0000_0000_0000;
    assert Pow256(14) == 0x1_0000_0000_0000_0000_0000_0000_0000;
    assert Pow256(15) == 0x100_0000_0000_0000_0000_0000_0000_0000;
  }

  /** The `n`-byte little-endian encoding of `x` (`to_le_bytes`). */
  function LeEncode(x: nat, n: nat): (r: seq<Byte>)
    requires x < Pow256(n)
    ensures |r| == n
    ensures n > 0 ==> r[0] == x % 256
  {
    if n == 0 then [] else [x % 256] + LeEncode(x / 256, n - 1)
  }

  /** The number a little-endian byte string denotes (`from_le_bytes`). */
  function LeDecode(b: seq<Byte>): (r: nat)
    ensures r < Pow256(|b|)
  {
    if b == [] then 0 else b[0] + 256 * LeDecode(b[1..])
  }

  /** Decoding an encoding gives back the number. */
  lemma {:induction false} DecodeEncode(x: nat, n: nat)
    requires x < Pow256(n)
    ensures LeDecode(LeEncode(x, n)) == x
  {
    if n > 0 {
      DecodeEncode(x / 256, n - 1);
      assert LeEncode(x, n)[1..] == LeEncode(x / 256, n - 1);
    }
  }

  /** Encoding a decoded byte string at its own width gives back the bytes. */
  lemma {:induction false} EncodeDecode(b: seq<Byte>)
    ensures LeEncode(LeDecode(b), |b|) == b
  {
    if b != [] {
      var rest := LeDecode(b[1..]);
      EncodeDecode(b[1..]);
      SplitByte(b[0] as nat, rest);
      assert LeEncode(LeDecode(b), |b|) == [b[0]] + LeEncode(rest, |b| - 1);
      assert b == [b[0]] + b[1..];
    }
  }

  /** A low byte and the rest come back out of `lo + 256 * hi` by `% 256` and `/ 256`. */
  lemma SplitByte(lo: nat, hi: nat)
    requires lo < 256
    ensures (lo + 256 * hi) % 256 == lo && (lo + 256 * hi) / 256 == hi
  {
  }

  /** The little-endian encoding is one-to-one. */
  lemma LeEncodeInjective(x: nat, y: nat, n: nat)
    requires x < Pow256(n) && y < Pow256(n)
    ensures LeEncode(x, n) == LeEncode(y, n) <==> x == y
  {
    DecodeEncode(x, n);
    DecodeEncode(y, n);
  }

  /** `u64::from_le_bytes` over eight bytes, and `to_le_bytes`. */
  function U64FromLe(b: seq<Byte>): (r: U64)
    requires |b| == 8
    ensures U64ToLe(r) == b
  {
    Pow256Values();
    EncodeDecode(b);
    LeDecode(b)
  }

  function U64ToLe(x: U64): (r: seq<Byte>)
    ensures |r| == 8
  {
    Pow256Values();
    LeEncode(x, 8)
  }

  lemma U64RoundTrip(x: U64)
    ensures U64FromLe(U64ToLe(x)) == x
  {
    Pow256Values();
    DecodeEncode(x, 8);
  }

  /** Rust's derived ordering on byte arrays: lexicographic from the first byte. */
  predicate LexLess(a: seq<Byte>, b: seq<Byte>)
  {
    if a == [] then b != []
    else if b == [] then false
    else a[0] < b[0] || (a[0] == b[0] && LexLess(a[1..], b[1..]))
  }

  /** Between byte strings of one length, exactly one of less, equal and greater holds. */
  lemma {:induction false} LexTrichotomy(a: seq<Byte>, b: seq<Byte>)
    requires |a| == |b|
    ensures LexLess(a, b) || a == b || LexLess(b, a)
    ensures !(LexLess(a, b) && LexLess(b, a))
    ensures a == b ==> !LexLess(a, b)
  {
    if a != [] {
      LexTrichotomy(a[1..], b[1..]);
      if a[0] == b[0] && a[1..] == b[1..] {
        assert a == [a[0]] + a[1..] && b == [b[0]] + b[1..];
      }
    }
  }

  /** The lexicographic order is transitive. */
  lemma {:induction false} LexTransitive(a: seq<Byte>, b: seq<Byte>, c: seq<Byte>)
    requires LexLess(a, b) && LexLess(b, c)
    ensures LexLess(a, c)
  {
    if a != [] && a[0] == b[0] && b[0] == c[0] {
      LexTransitive(a[1..], b[1..], c[1..]);
    }
  }

  datatype Ordering = Less | Equal | Greater

  /** A Solana account address: 32 bytes, compared lexicographically. */
  type Pubkey = k: seq<Byte> | |k| == 32 witness DEFAULT_PUBKEY

  /** `Pubkey::default()`: all zero bytes. */
  const DEFAULT_PUBKEY: seq<Byte> :=
    [0, 0, 0, 0, 0, 0, 0, 0, 0, 0, 0, 0, 0, 0, 0, 0, 0, 0, 0, 0, 0, 0, 0, 0, 0, 0, 0, 0, 0, 0, 0, 0]

  /** `Ord for Pubkey`. */
  function KeyCmp(a: Pubkey, b: Pubkey): Ordering
  {
    if LexLess(a, b) then Less else if a == b then Equal else Greater
  }
}
