// The value-level pieces of the market's matching and balance logic (state/market.rs): which
// withdrawable balance an order side uses, the checked seat update, the LTV buffer factor
// and the reverse order's rate and bookside.

module Matching {
  import opened Bytes
  import opened Arith
  import opened Errors
  import opened Quantities
  import opened Shares
  import opened Orders
  import opened Seats
  import opened Loans

  /**
   * `should_update_base_a`: on the A tree bids use base B and asks base A; on the B tree the
   * other way round.
   */
  function ShouldUpdateBaseA(useATree: bool, isBid: bool): (r: bool)
    ensures r <==> useATree != isBid
  {
    match (useATree, isBid)
    case (true, true) => false
    case (true, false) => true
    case (false, true) => true
    case (false, false) => false
  }

  // Which balance a resting ask uses.

  /** `rest_remaining` takes a non-global order's collateral from `should_update_base_a(tree, !is_bid)`. */
  function RestDebitSide(useATree: bool, isBid: bool): bool
  {
    ShouldUpdateBaseA(useATree, !isBid)
  }

  /** As written, cancelling or expiring a non-global ask credits `should_update_base_a(tree, false)`. */
  function AskRefundSideAsWritten(useATree: bool): (r: bool)
    ensures r == useATree
  {
    ShouldUpdateBaseA(useATree, false)
  }

  /** Corrected: the refund goes back to the balance the ask was debited from. */
  function AskRefundSide(useATree: bool): (r: bool)
    ensures r == RestDebitSide(useATree, false)
    ensures r != AskRefundSideAsWritten(useATree)
  {
    ShouldUpdateBaseA(useATree, true)
  }

  // The checked seat update.

  /** The signed change an update applies. */
  function Delta(isIncrease: bool, shares: I80F48): int
  {
    if isIncrease then shares else -(shares as int)
  }

  /** A seat's withdrawable asset shares of base A or of base B. */
  function Withdrawable(seat: ClaimedSeat, baseA: bool): I80F48
  {
    if baseA then seat.baseAWithdrawableAssetShare else seat.baseBWithdrawableAssetShare
  }

  /**
   * `update_balance` on one seat: exactly the selected balance moves by `shares`, up or down. A
   * decrease below the balance fails with `InsufficientFunds`; a result outside the I80F48
   * range panics.
   */
  function UpdatedSeat(seat: ClaimedSeat, updateBaseA: bool, isIncrease: bool, shares: I80F48): (r: Result<ClaimedSeat>)
    ensures r.Ok? <==> (isIncrease || Withdrawable(seat, updateBaseA) >= shares)
                       && InRange(Withdrawable(seat, updateBaseA) + Delta(isIncrease, shares))
    ensures !isIncrease && Withdrawable(seat, updateBaseA) < shares ==> r == Err(Program(InsufficientFunds))
    ensures r.Err? ==> r.error == Program(InsufficientFunds) || r.error == Panic
    ensures r.Ok? ==> Withdrawable(r.value, updateBaseA)
                      == Withdrawable(seat, updateBaseA) + Delta(isIncrease, shares)
    ensures r.Ok? ==> Withdrawable(r.value, !updateBaseA) == Withdrawable(seat, !updateBaseA)
    ensures r.Ok? ==> r.value.trader == seat.trader
                      && r.value.baseAVolume == seat.baseAVolume && r.value.baseBVolume == seat.baseBVolume
  {
    var cur := Withdrawable(seat, updateBaseA);
    if !isIncrease && cur < shares then Err(Program(InsufficientFunds))
    else
      var n := cur + Delta(isIncrease, shares);
      if !InRange(n) then Err(Panic)
      else if updateBaseA then Ok(seat.(baseAWithdrawableAssetShare := n))
      else Ok(seat.(baseBWithdrawableAssetShare := n))
  }

  /** Taking shares out of a balance and putting them back restores the seat. */
  lemma DecreaseThenIncrease(seat: ClaimedSeat, updateBaseA: bool, shares: I80F48)
    requires UpdatedSeat(seat, updateBaseA, false, shares).Ok?
    ensures UpdatedSeat(UpdatedSeat(seat, updateBaseA, false, shares).value, updateBaseA, true, shares) == Ok(seat)
  {
    var s1 := UpdatedSeat(seat, updateBaseA, false, shares).value;
    var s2 := UpdatedSeat(s1, updateBaseA, true, shares);
    assert s2.Ok?;
    assert s2.value.baseAWithdrawableAssetShare == seat.baseAWithdrawableAssetShare;
    assert s2.value.baseBWithdrawableAssetShare == seat.baseBWithdrawableAssetShare;
  }

  /**
   * Resting a non-global ask and cancelling it (or dropping it when expired) gives the trader
   * back exactly the seat it had, with the corrected refund side.
   */
  lemma AskRestThenRefund(seat: ClaimedSeat, useATree: bool, shares: I80F48)
    requires UpdatedSeat(seat, RestDebitSide(useATree, false), false, shares).Ok?
    ensures UpdatedSeat(UpdatedSeat(seat, RestDebitSide(useATree, false), false, shares).value,
                        AskRefundSide(useATree), true, shares) == Ok(seat)
  {
    DecreaseThenIncrease(seat, RestDebitSide(useATree, false), shares);
  }

  /**
   * As written, an A-tree ask of one share rests out of the trader's base B balance and comes
   * back into base A: the round trip moves the share from one asset to the other.
   */
  lemma AskRefundAsWrittenMovesShares()
    ensures var seat := ClaimedSeat(DEFAULT_PUBKEY, 0, ONE, 0, 0);
            var rested := UpdatedSeat(seat, RestDebitSide(true, false), false, ONE);
            rested.Ok?
            && UpdatedSeat(rested.value, AskRefundSideAsWritten(true), true, ONE)
               == Ok(ClaimedSeat(DEFAULT_PUBKEY, ONE, 0, 0, 0))
            && ClaimedSeat(DEFAULT_PUBKEY, ONE, 0, 0, 0) != seat
  {
  }

  /**
   * The taker's side of one fill: a bid pays quote collateral and an ask pays base, both out of
   * the balance `should_update_base_a(tree, !is_bid)`; a bid that is not a reverse order then
   * receives the borrowed base into the other balance.
   */
  function SettleTaker(seat: ClaimedSeat, useATree: bool, isBid: bool, orderType: OrderType,
                       baseShares: I80F48, quoteShares: I80F48): (r: Result<ClaimedSeat>)
    ensures var paySide := ShouldUpdateBaseA(useATree, !isBid);
            var paid := if isBid then quoteShares else baseShares;
            (Withdrawable(seat, paySide) < paid ==> r == Err(Program(InsufficientFunds)))
            && (r.Err? ==> r.error == Program(InsufficientFunds) || r.error == Panic)
    ensures var paySide := ShouldUpdateBaseA(useATree, !isBid);
            var paid := if isBid then quoteShares else baseShares;
            var received := if isBid && orderType != Reverse then baseShares else 0;
            r.Ok? ==> Withdrawable(r.value, paySide) == Withdrawable(seat, paySide) - paid
                      && Withdrawable(r.value, !paySide) == Withdrawable(seat, !paySide) + received
                      && r.value.trader == seat.trader
  {
    var paid := UpdatedSeat(seat, ShouldUpdateBaseA(useATree, !isBid), false, if isBid then quoteShares else baseShares);
    if paid.Err? then paid
    else if isBid && orderType != Reverse then UpdatedSeat(paid.value, ShouldUpdateBaseA(useATree, isBid), true, baseShares)
    else paid
  }

  // The LTV buffer factor.

  const I64_MAX: int := I64_LIMIT - 1

  /** `as i64` on a u64: the same 64 bits read as two's complement. */
  function AsI64(v: U64): (r: int)
    ensures I64_MIN <= r < I64_LIMIT
    ensures (r - v) % U64_LIMIT == 0
  {
    if v < I64_LIMIT then v else v - U64_LIMIT
  }

  /**
   * `buffer_f = (10000 - ltv_buffer_bps as i64) / 10000` in I80F48. The i64 subtraction panics
   * when it overflows. For a buffer of at most 10000 bps it is the fraction of 1 left after the
   * buffer, rounded down, between 0 and 1.
   */
  function BufferF(ltvBufferBps: U64): (r: Result<I80F48>)
    ensures ltvBufferBps <= 10000 ==> r.Ok? && 0 <= r.value <= ONE
    ensures ltvBufferBps <= 10000 ==> r.value * 10000 <= (10000 - ltvBufferBps) * ONE < (r.value + 1) * 10000
    ensures r.Err? ==> r.error == Panic || r.error == Nix(NumericalOverflow)
  {
    var d := 10000 - AsI64(ltvBufferBps);
    if !(I64_MIN <= d < I64_LIMIT) then Err(Panic)
    else
      match FixDiv(d * ONE, 10000 * ONE)
      case Some(q) =>
        BufferBounds(ltvBufferBps, d, q);
        Ok(q)
      case None =>
        BufferExists(ltvBufferBps, d);
        Err(Nix(NumericalOverflow))
  }

  lemma BufferBounds(ltvBufferBps: U64, d: int, q: int)
    requires d == 10000 - AsI64(ltvBufferBps)
    requires q * (10000 * ONE) <= d * ONE * ONE < (q + 1) * (10000 * ONE)
    ensures ltvBufferBps <= 10000 ==> 0 <= q <= ONE
    ensures ltvBufferBps <= 10000 ==> q * 10000 <= (10000 - ltvBufferBps) * ONE < (q + 1) * 10000
  {
    if ltvBufferBps <= 10000 {
      assert d == 10000 - ltvBufferBps;
      assert (q * 10000) * ONE <= (d * ONE) * ONE < ((q + 1) * 10000) * ONE;
      if q * 10000 > d * ONE {
        MulLeMul(d * ONE + 1, q * 10000, ONE);
      }
      if d * ONE >= (q + 1) * 10000 {
        MulLeMul((q + 1) * 10000, d * ONE, ONE);
      }
      if q < 0 {
        MulLeMul(q * 10000, -10000, 1);
      }
      if q > ONE {
        MulLeMul((ONE + 1) * 10000, q * 10000, 1);
      }
    }
  }

  lemma BufferExists(ltvBufferBps: U64, d: int)
    requires d == 10000 - AsI64(ltvBufferBps) && I64_MIN <= d < I64_LIMIT
    ensures InRange((d * ONE * ONE) / (10000 * ONE))
  {
    var q := (d * ONE * ONE) / (10000 * ONE);
    MulDivCancel(d * ONE, ONE);
    NestedDiv(d * ONE * ONE, ONE, 10000);
    assert (d * ONE * ONE) / ONE == d * ONE;
    assert q == (d * ONE) / 10000;
    DivMonotone(I64_MIN * ONE, d * ONE, 10000);
    DivMonotone(d * ONE, I64_LIMIT * ONE, 10000);
  }

  // The reverse order.

  /**
   * As written: `rate_bps.checked_mul(10_000 - spread) / 10_000` in u16. The subtraction panics
   * for a spread above 10000, and the product overflows u16 exactly when rate * (10000 - spread)
   * is 65536 or more: for a rate of 7 bps, whenever the spread is at most 637 bps.
   */
  function ReverseRateAsWritten(rateBps: U16, spreadBps: U16): (r: Result<U16>)
    ensures spreadBps > 10000 ==> r == Err(Panic)
    ensures spreadBps <= 10000 ==> (r.Ok? <==> rateBps * (10000 - spreadBps) < U16_LIMIT)
    ensures r.Err? && spreadBps <= 10000 ==> r.error == Nix(NumericalOverflow)
  {
    if spreadBps > 10000 then Err(Panic)
    else if rateBps * (10000 - spreadBps) >= U16_LIMIT then Err(Nix(NumericalOverflow))
    else Ok(rateBps * (10000 - spreadBps) / 10000)
  }

  /** Every reverse order at 10 bps or more with a spread of at most 30% fails as written. */
  lemma ReverseRateAsWrittenOverflows(rateBps: U16, spreadBps: U16)
    requires rateBps >= 10 && spreadBps <= 3000
    ensures ReverseRateAsWritten(rateBps, spreadBps) == Err(Nix(NumericalOverflow))
  {
    MulLeMul(10, rateBps, 10000 - spreadBps);
  }

  /** A 5% order with a 0.5% spread: the reverse rate should be 497 bps. */
  lemma ReverseRateExample()
    ensures ReverseRateAsWritten(500, 50) == Err(Nix(NumericalOverflow))
    ensures ReverseRate(500, 50) == Ok(497)
  {
  }

  /**
   * Corrected: the reverse rate is `rate * (1 - spread)` rounded down, computed wide enough not
   * to overflow; it never exceeds the order's rate. A spread above 10000 still panics.
   */
  function ReverseRate(rateBps: U16, spreadBps: U16): (r: Result<U16>)
    ensures spreadBps > 10000 <==> r.Err?
    ensures r.Err? ==> r.error == Panic
    ensures r.Ok? ==> r.value <= rateBps
    ensures r.Ok? ==> r.value * 10000 <= rateBps * (10000 - spreadBps) < (r.value + 1) * 10000
    ensures spreadBps == 0 ==> r == Ok(rateBps)
  {
    if spreadBps > 10000 then Err(Panic)
    else
      var p := rateBps * (10000 - spreadBps);
      ReverseRateBounds(rateBps, 10000 - spreadBps, p);
      Ok(p / 10000)
  }

  lemma ReverseRateBounds(rateBps: nat, keep: nat, p: int)
    requires keep <= 10000 && p == rateBps * keep
    ensures p / 10000 <= rateBps
    ensures (p / 10000) * 10000 <= p < (p / 10000 + 1) * 10000
    ensures keep == 10000 ==> p / 10000 == rateBps
  {
    FloorBounds(p, 10000);
    MulLeMul(keep, 10000, rateBps);
    if keep == 10000 {
      FloorUnique(p, 10000, rateBps);
    }
  }

  /** As written, the reverse order goes into the taker's own tree and side. */
  function ReverseSideAsWritten(useATree: bool, isBid: bool): (bool, bool)
  {
    (useATree, isBid)
  }

  /**
   * Corrected: the reverse order is built for the other tree and the other side, and goes into
   * that bookside.
   */
  function ReverseSide(useATree: bool, isBid: bool): (r: (bool, bool))
    ensures r.0 != useATree && r.1 != isBid
    ensures r != ReverseSideAsWritten(useATree, isBid)
  {
    (!useATree, !isBid)
  }

  // The arguments and result of `place_order`.

  datatype OrderArgs = OrderArgs(
    traderIndex: U32,
    numBaseAtoms: U64,
    rateBps: U16,
    reverseSpreadBps: U16,
    isBid: bool,
    useATree: bool,
    lastValidSlot: U32,
    orderType: OrderType)

  /** The MarginFi banks, oracle prices and clock the instruction reads. */
  datatype Env = Env(
    baseBank: Bank,
    quoteBank: Bank,
    basePrice: I80F48,
    quotePrice: I80F48,
    nowSlot: U32,
    nowTimestamp: I64)

  /**
   * The outcomes of what the model does not see: the base mint's Token-2022 transfer fee and
   * hook, the global account token transfer, the MarginFi calls made before resting, and the
   * global registry's `try_to_add_to_global`.
   */
  datatype Host = Host(
    baseMintHasTransferFee: bool,
    baseMintHasTransferHook: bool,
    globalTransfer: Outcome,
    marginfiCpi: Outcome,
    globalAdd: Outcome)

  datatype PlaceResult = PlaceResult(
    orderSequenceNumber: U64,
    orderIndex: nat,
    baseAtomsTraded: U64,
    quoteAtomsTraded: U64,
    matchedLoans: seq<ActiveLoan>)

  /** One fill: the smaller of what the taker still wants and what the maker holds. */
  function FillSize(remaining: U64, makerBaseAtoms: U64): (r: (U64, bool))
    ensures r.1 <==> remaining >= makerBaseAtoms
    ensures r.0 <= remaining && r.0 <= makerBaseAtoms
    ensures r.0 == remaining || r.0 == makerBaseAtoms
  {
    if remaining >= makerBaseAtoms then (makerBaseAtoms, true) else (remaining, false)
  }
}
