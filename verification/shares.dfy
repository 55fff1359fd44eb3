// Token <-> share conversions and the collateral a loan needs (marginfi_utils.rs).
//
// Fixed-point products and quotients are rounded down, as the fixed crate does for
// the non-negative operands used here (token amounts, share values, prices, weights).

module Shares {
  import opened Bytes
  import opened Errors
  import opened Arith
  import opened Quantities

  /** The parts of a MarginFi bank the conversions read. */
  datatype Bank = Bank(
    assetShareValue: I80F48,
    liabilityShareValue: I80F48,
    assetWeightInit: I80F48,
    liabilityWeightInit: I80F48,
    mintDecimals: nat)

  /** `checked_mul`: the product, rounded down, or None on overflow. */
  function FixMul(a: I80F48, b: I80F48): (r: Option<I80F48>)
    ensures r.Some? <==> InRange((a * b) / ONE)
    ensures r.Some? ==> r.value * ONE <= a * b < (r.value + 1) * ONE
  {
    FloorBounds(a * b, ONE);
    var p := (a * b) / ONE;
    if InRange(p) then Some(p) else None
  }

  /** `checked_div` by a positive divisor: the quotient, rounded down, or None on overflow. */
  function FixDiv(a: I80F48, b: I80F48): (r: Option<I80F48>)
    ensures b <= 0 ==> r.None?
    ensures b > 0 ==> (r.Some? <==> InRange((a * ONE) / b))
    ensures r.Some? ==> r.value * b <= a * ONE < (r.value + 1) * b
  {
    if b <= 0 then None
    else
      FloorBounds(a * ONE, b);
      var q := (a * ONE) / b;
      if InRange(q) then Some(q) else None
  }

  /** `checked_ceil`: the least whole number not below the value, or None on overflow. */
  function FixCeil(a: I80F48): (r: Option<I80F48>)
    ensures r.Some? ==> r.value % ONE == 0 && r.value - ONE < a <= r.value
  {
    var c := CeilDiv(a, ONE) * ONE;
    if InRange(c) then Some(c) else None
  }

  /** `I80F48::from_num(token_amount).checked_div(asset_share_value)`. */
  function TokensToAssetShares(tokens: U64, bank: Bank): (r: Result<I80F48>)
    ensures r.Err? ==> r.error == Nix(NumericalOverflow)
    ensures bank.assetShareValue <= 0 ==> r.Err?
    ensures r.Ok? ==> r.value * bank.assetShareValue <= tokens * ONE * ONE < (r.value + 1) * bank.assetShareValue
  {
    match FixDiv(FromU64(tokens), bank.assetShareValue)
    case Some(q) => Ok(q)
    case None => Err(Nix(NumericalOverflow))
  }

  /** `I80F48::from_num(token_amount).checked_div(liability_share_value)`. */
  function TokensToLiabilityShares(tokens: U64, bank: Bank): (r: Result<I80F48>)
    ensures r.Err? ==> r.error == Nix(NumericalOverflow)
    ensures bank.liabilityShareValue <= 0 ==> r.Err?
    ensures r.Ok? ==> r.value * bank.liabilityShareValue <= tokens * ONE * ONE < (r.value + 1) * bank.liabilityShareValue
  {
    match FixDiv(FromU64(tokens), bank.liabilityShareValue)
    case Some(q) => Ok(q)
    case None => Err(Nix(NumericalOverflow))
  }

  /**
   * `convert_asset_shares_to_tokens`: the whole tokens the shares are worth, rounded
   * down. Overflow of the product fails with `NumericalOverflow`; a result outside u64
   * panics in `to_num`.
   */
  function AssetSharesToTokens(shares: I80F48, bank: Bank): (r: Result<U64>)
    ensures r.Err? ==> r.error == Nix(NumericalOverflow) || r.error == Panic
    ensures r.Ok? ==> r.value * ONE * ONE <= shares * bank.assetShareValue < (r.value + 1) * ONE * ONE
  {
    match FixMul(shares, bank.assetShareValue)
    case None => Err(Nix(NumericalOverflow))
    case Some(p) =>
      NestedDiv(shares * bank.assetShareValue, ONE, ONE);
      FloorBounds(shares * bank.assetShareValue, ONE * ONE);
      ToU64(p)
  }

  /**
   * `get_token_amount_to_repay_liability_shares`: the debt of the shares, rounded up to
   * whole tokens. Overflow fails with `NumericalOverflow`; a result outside u64 panics.
   */
  function TokenAmountToRepay(shares: I80F48, bank: Bank): (r: Result<U64>)
    ensures r.Err? ==> r.error == Nix(NumericalOverflow) || r.error == Panic
    ensures r.Ok? ==> (r.value - 1) * ONE < (shares * bank.liabilityShareValue) / ONE <= r.value * ONE
  {
    match FixMul(shares, bank.liabilityShareValue)
    case None => Err(Nix(NumericalOverflow))
    case Some(p) =>
      match FixCeil(p)
      case None => Err(Nix(NumericalOverflow))
      case Some(c) =>
        MulDivCancel(c / ONE, ONE);
        ToU64(c)
  }

  /** Turning tokens into asset shares and back never yields more tokens than went in. */
  lemma AssetSharesRoundTripNeverGains(tokens: U64, bank: Bank)
    requires TokensToAssetShares(tokens, bank).Ok?
    requires AssetSharesToTokens(TokensToAssetShares(tokens, bank).value, bank).Ok?
    ensures AssetSharesToTokens(TokensToAssetShares(tokens, bank).value, bank).value <= tokens
  {
    var s := TokensToAssetShares(tokens, bank).value;
    var t := AssetSharesToTokens(s, bank).value;
    assert t * ONE * ONE <= s * bank.assetShareValue <= tokens * ONE * ONE;
    if t > tokens {
      MulLeMul(tokens + 1, t, ONE * ONE);
    }
  }

  /** More liability shares never need fewer tokens to repay. */
  lemma RepayMonotone(s1: I80F48, s2: I80F48, bank: Bank)
    requires s1 <= s2 && bank.liabilityShareValue >= 0
    requires TokenAmountToRepay(s1, bank).Ok? && TokenAmountToRepay(s2, bank).Ok?
    ensures TokenAmountToRepay(s1, bank).value <= TokenAmountToRepay(s2, bank).value
  {
    var v := bank.liabilityShareValue;
    var r1 := TokenAmountToRepay(s1, bank).value;
    var r2 := TokenAmountToRepay(s2, bank).value;
    MulLeMul(s1, s2, v);
    DivMonotone(s1 * v, s2 * v, ONE);
  }
  /** `10^d`. */
  function Pow10(d: nat): (p: nat)
    ensures p >= 1
  {
    if d == 0 then 1 else 10 * Pow10(d - 1)
  }

  /**
   * `EXP_10_I80F48[d]`: ten to the power of a mint's decimals as an I80F48. A power the
   * fixed-point type cannot hold lies past the end of the table, and indexing there panics.
   */
  function Exp10(d: nat): (r: Result<I80F48>)
    ensures r.Ok? ==> r.value == Pow10(d) * ONE
    ensures r.Err? ==> r.error == Panic
  {
    var e := Pow10(d) * ONE;
    if InRange(e) then Ok(e) else Err(Panic)
  }

  /** A checked fixed-point step: its value, or `NumericalOverflow`. */
  function OrOverflow(o: Option<I80F48>): (r: Result<I80F48>)
    ensures r.Ok? <==> o.Some?
    ensures r.Ok? ==> r.value == o.value
    ensures r.Err? ==> r.error == Nix(NumericalOverflow)
  {
    match o
    case Some(v) => Ok(v)
    case None => Err(Nix(NumericalOverflow))
  }

  /**
   * The quote tokens, as an I80F48, that back a loan of `numBaseAtoms`: the loan's USD value
   * (`atoms * base price / 10^base decimals`), scaled by the base liability weight over the
   * buffered quote asset weight, converted to quote tokens (`* 10^quote decimals / quote price`).
   * Every step is checked, in the order of marginfi_utils.rs:723-750.
   */
  function CollateralTokens(baseBank: Bank, quoteBank: Bank, basePrice: I80F48, quotePrice: I80F48,
                            bufferF: I80F48, numBaseAtoms: U64): Result<I80F48>
  {
    var effectiveWeight :- OrOverflow(FixMul(quoteBank.assetWeightInit, bufferF));
    var loanValue :- OrOverflow(FixMul(FromU64(numBaseAtoms), basePrice));
    var baseScale :- Exp10(baseBank.mintDecimals);
    var baseValueUsd :- OrOverflow(FixDiv(loanValue, baseScale));
    var weighted :- OrOverflow(FixMul(baseValueUsd, baseBank.liabilityWeightInit));
    var requiredUsd :- OrOverflow(FixDiv(weighted, effectiveWeight));
    var quoteScale :- Exp10(quoteBank.mintDecimals);
    var scaled :- OrOverflow(FixMul(requiredUsd, quoteScale));
    OrOverflow(FixDiv(scaled, quotePrice))
  }

  /**
   * `get_required_quote_collateral_to_back_loan`: `CollateralTokens` rounded up to whole
   * tokens. Every failed step is `NumericalOverflow`; a table index past its end, or a
   * result outside u64, panics.
   */
  function RequiredQuoteCollateral(baseBank: Bank, quoteBank: Bank, basePrice: I80F48, quotePrice: I80F48,
                                   bufferF: I80F48, numBaseAtoms: U64): (r: Result<U64>)
    ensures r.Ok? ==> CollateralTokens(baseBank, quoteBank, basePrice, quotePrice, bufferF, numBaseAtoms).Ok?
    ensures r.Ok? ==>
      var t := CollateralTokens(baseBank, quoteBank, basePrice, quotePrice, bufferF, numBaseAtoms).value;
      (r.value - 1) * ONE < t <= r.value * ONE
    ensures r.Err? ==> r.error == Nix(NumericalOverflow) || r.error == Panic
  {
    var tokens :- CollateralTokens(baseBank, quoteBank, basePrice, quotePrice, bufferF, numBaseAtoms);
    var c :- OrOverflow(FixCeil(tokens));
    MulDivCancel(c / ONE, ONE);
    ToU64(c)
  }

  /** Rounded-down products and quotients are monotone in the left operand, and never overflow sooner. */
  lemma FixMulMonotone(a1: I80F48, a2: I80F48, b: I80F48)
    requires 0 <= a1 <= a2 && b >= 0 && FixMul(a2, b).Some?
    ensures FixMul(a1, b).Some? && 0 <= FixMul(a1, b).value <= FixMul(a2, b).value
  {
    MulLeMul(a1, a2, b);
    DivMonotone(a1 * b, a2 * b, ONE);
    DivMonotone(0, a1 * b, ONE);
  }

  lemma FixDivMonotone(a1: I80F48, a2: I80F48, b: I80F48)
    requires 0 <= a1 <= a2 && FixDiv(a2, b).Some?
    ensures FixDiv(a1, b).Some? && 0 <= FixDiv(a1, b).value <= FixDiv(a2, b).value
  {
    MulLeMul(a1, a2, ONE);
    DivMonotone(a1 * ONE, a2 * ONE, b);
    DivMonotone(0, a1 * ONE, b);
  }

  /**
   * With non-negative prices, weights and buffer, a smaller loan never needs more collateral,
   * and never fails where a larger one succeeds.
   */
  lemma {:induction false} CollateralMonotone(baseBank: Bank, quoteBank: Bank, basePrice: I80F48, quotePrice: I80F48,
                                              bufferF: I80F48, n1: U64, n2: U64)
    requires n1 <= n2
    requires basePrice >= 0 && baseBank.liabilityWeightInit >= 0
    requires RequiredQuoteCollateral(baseBank, quoteBank, basePrice, quotePrice, bufferF, n2).Ok?
    ensures RequiredQuoteCollateral(baseBank, quoteBank, basePrice, quotePrice, bufferF, n1).Ok?
    ensures RequiredQuoteCollateral(baseBank, quoteBank, basePrice, quotePrice, bufferF, n1).value
         <= RequiredQuoteCollateral(baseBank, quoteBank, basePrice, quotePrice, bufferF, n2).value
  {
    var eff := FixMul(quoteBank.assetWeightInit, bufferF).value;
    var baseScale := Exp10(baseBank.mintDecimals).value;
    var quoteScale := Exp10(quoteBank.mintDecimals).value;
    FixMulMonotone(FromU64(n1), FromU64(n2), basePrice);
    var v1, v2 := FixMul(FromU64(n1), basePrice).value, FixMul(FromU64(n2), basePrice).value;
    FixDivMonotone(v1, v2, baseScale);
    var u1, u2 := FixDiv(v1, baseScale).value, FixDiv(v2, baseScale).value;
    FixMulMonotone(u1, u2, baseBank.liabilityWeightInit);
    var w1, w2 := FixMul(u1, baseBank.liabilityWeightInit).value, FixMul(u2, baseBank.liabilityWeightInit).value;
    FixDivMonotone(w1, w2, eff);
    var q1, q2 := FixDiv(w1, eff).value, FixDiv(w2, eff).value;
    FixMulMonotone(q1, q2, quoteScale);
    var s1, s2 := FixMul(q1, quoteScale).value, FixMul(q2, quoteScale).value;
    FixDivMonotone(s1, s2, quotePrice);
    var t1, t2 := FixDiv(s1, quotePrice).value, FixDiv(s2, quotePrice).value;
    CeilMonotone(t1, t2, ONE);
    var c1, c2 := FixCeil(t1), FixCeil(t2);
    assert c2.Some?;
    MulLeMul(CeilDiv(t1, ONE), CeilDiv(t2, ONE), ONE);
    assert c1.Some?;
    DivMonotone(c1.value, c2.value, ONE);
  }

  /** Lending nothing needs no collateral. */
  lemma CollateralOfNothing(baseBank: Bank, quoteBank: Bank, basePrice: I80F48, quotePrice: I80F48, bufferF: I80F48)
    requires RequiredQuoteCollateral(baseBank, quoteBank, basePrice, quotePrice, bufferF, 0).Ok?
    ensures RequiredQuoteCollateral(baseBank, quoteBank, basePrice, quotePrice, bufferF, 0).value == 0
  {
    var t := CollateralTokens(baseBank, quoteBank, basePrice, quotePrice, bufferF, 0);
    assert t.Ok? && t.value == 0 by {
      var eff := FixMul(quoteBank.assetWeightInit, bufferF).value;
      var baseScale := Exp10(baseBank.mintDecimals).value;
      var quoteScale := Exp10(quoteBank.mintDecimals).value;
      ZeroSteps(basePrice, baseScale);
      ZeroSteps(baseBank.liabilityWeightInit, eff);
      ZeroSteps(quoteScale, quotePrice);
    }
    assert FixCeil(0) == Some(0);
  }

  lemma ZeroSteps(b: I80F48, d: I80F48)
    ensures FixMul(0, b) == Some(0)
    ensures d > 0 ==> FixDiv(0, d) == Some(0)
  {
  }
}
