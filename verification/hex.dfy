// `hex_to_bytes`: two hex digits per byte (marginfi_utils.rs).

module Hex {
  import opened Bytes
  import opened Errors

  /** `char::to_digit(16)` of a byte read as a character: 0-9, a-f and A-F. */
  function HexDigit(c: Byte): (d: Option<nat>)
    ensures d.Some? ==> d.value < 16
    ensures d.Some? <==> ('0' as int <= c <= '9' as int || 'a' as int <= c <= 'f' as int || 'A' as int <= c <= 'F' as int)
  {
    if '0' as int <= c <= '9' as int then Some(c - '0' as int)
    else if 'a' as int <= c <= 'f' as int then Some(c - 'a' as int + 10)
    else if 'A' as int <= c <= 'F' as int then Some(c - 'A' as int + 10)
    else None
  }

  predicate AllHexDigits(s: seq<Byte>)
  {
    forall i :: 0 <= i < |s| ==> HexDigit(s[i]).Some?
  }

  /** The byte a pair of digits denotes: `(high << 4) | low`, which is `16 * high + low` for digits below 16. */
  function PairValue(hi: Byte, lo: Byte): Byte
    requires HexDigit(hi).Some? && HexDigit(lo).Some?
  {
    16 * HexDigit(hi).value + HexDigit(lo).value
  }

  /**
   * `hex_to_bytes` over the string's bytes, two at a time. A lone last byte (index out of
   * bounds on `chunk[1]`) and a non-hex character (`expect`) both panic.
   */
  function HexToBytes(hex: seq<Byte>): (r: Result<seq<Byte>>)
    ensures r.Ok? <==> |hex| % 2 == 0 && AllHexDigits(hex)
    ensures r.Ok? ==> |r.value| == |hex| / 2
    ensures r.Ok? ==> forall k :: 0 <= k < |r.value| ==> r.value[k] == PairValue(hex[2 * k], hex[2 * k + 1])
    ensures r.Err? ==> r.error == Panic
  {
    if hex == [] then Ok([])
    else if |hex| == 1 then Err(Panic)
    else if HexDigit(hex[0]).None? || HexDigit(hex[1]).None? then Err(Panic)
    else
      var rest := HexToBytes(hex[2..]);
      DigitsAfterPair(hex);
      match rest
      case Err(e) => Err(e)
      case Ok(tail) =>
        PairsCons(hex, tail);
        Ok([PairValue(hex[0], hex[1])] + tail)
  }

  /** Past a leading pair of digits, the string is all digits exactly when its tail is. */
  lemma DigitsAfterPair(hex: seq<Byte>)
    requires |hex| >= 2 && HexDigit(hex[0]).Some? && HexDigit(hex[1]).Some?
    ensures AllHexDigits(hex) <==> AllHexDigits(hex[2..])
  {
    if AllHexDigits(hex[2..]) {
      forall i | 2 <= i < |hex| ensures HexDigit(hex[i]).Some? {
        assert hex[i] == hex[2..][i - 2];
      }
    }
  }

  /** The value of a leading pair of digits followed by the values of the tail's pairs. */
  lemma PairsCons(hex: seq<Byte>, tail: seq<Byte>)
    requires |hex| % 2 == 0 && |hex| >= 2 && AllHexDigits(hex)
    requires |tail| == |hex| / 2 - 1
    requires forall k :: 0 <= k < |tail| ==> tail[k] == PairValue(hex[2..][2 * k], hex[2..][2 * k + 1])
    ensures var r := [PairValue(hex[0], hex[1])] + tail;
            forall k :: 0 <= k < |r| ==> r[k] == PairValue(hex[2 * k], hex[2 * k + 1])
  {
    var r := [PairValue(hex[0], hex[1])] + tail;
    forall k | 1 <= k < |r| ensures r[k] == PairValue(hex[2 * k], hex[2 * k + 1]) {
      assert r[k] == tail[k - 1];
      assert hex[2 * k] == hex[2..][2 * (k - 1)] && hex[2 * k + 1] == hex[2..][2 * (k - 1) + 1];
    }
  }

  /** Lower-case hex digits for a value below 16. */
  function DigitChar(d: nat): (c: Byte)
    requires d < 16
    ensures HexDigit(c) == Some(d)
  {
    if d < 10 then '0' as int + d else 'a' as int + d - 10
  }

  /** The lower-case hex text of a byte string, two digits per byte. */
  function ToHex(b: seq<Byte>): (s: seq<Byte>)
    ensures |s| == 2 * |b|
  {
    if b == [] then [] else [DigitChar(b[0] / 16), DigitChar(b[0] % 16)] + ToHex(b[1..])
  }

  /** Decoding the hex text of any byte string gives the bytes back. */
  lemma {:induction false} HexRoundTrip(b: seq<Byte>)
    ensures HexToBytes(ToHex(b)) == Ok(b)
  {
    if b != [] {
      HexRoundTrip(b[1..]);
      var s := ToHex(b);
      assert s[2..] == ToHex(b[1..]);
      assert PairValue(s[0], s[1]) == b[0];
      assert b == [b[0]] + b[1..];
    }
  }
}
