// Orders resting in the book: order types, expiry, size in base atoms, in-place reduction
// after a partial fill, and the book's comparator (state/resting_order.rs).

module Orders {
  import opened Bytes
  import opened Errors
  import opened Arith
  import opened Quantities
  import opened Shares
  import opened Constants

  datatype OrderType = Limit | ImmediateOrCancel | PostOnly | Global | Reverse | P2P2Pool

  /** The `#[repr(u8)]` value of each order type. */
  function OrderTypeCode(t: OrderType): (b: Byte)
    ensures b < 6 && OrderTypeFromCode(b) == Some(t)
  {
    match t
    case Limit => 0
    case ImmediateOrCancel => 1
    case PostOnly => 2
    case Global => 3
    case Reverse => 4
    case P2P2Pool => 5
  }

  /** `OrderType::try_from(u8)`: defined for 0 through 5 only. */
  function OrderTypeFromCode(b: Byte): Option<OrderType>
  {
    if b == 0 then Some(Limit)
    else if b == 1 then Some(ImmediateOrCancel)
    else if b == 2 then Some(PostOnly)
    else if b == 3 then Some(Global)
    else if b == 4 then Some(Reverse)
    else if b == 5 then Some(P2P2Pool)
    else None
  }

  /** Every order type but immediate-or-cancel may rest in the book. */
  predicate OrderTypeCanRest(t: OrderType)
  {
    t != ImmediateOrCancel
  }

  /** Post-only and global orders may not take liquidity. */
  predicate OrderTypeCanTake(t: OrderType)
  {
    t != PostOnly && t != Global
  }

  /**
   * What each order type may do: only immediate-or-cancel cannot rest, only post-only and
   * global cannot take, so every type does at least one of the two.
   */
  lemma OrderTypeCapabilities(t: OrderType)
    ensures !OrderTypeCanRest(t) <==> t == ImmediateOrCancel
    ensures !OrderTypeCanTake(t) <==> t == PostOnly || t == Global
    ensures OrderTypeCanRest(t) || OrderTypeCanTake(t)
  {
  }

  /** An order as stored in its 96-byte block; share amounts hold the unwrapped I80F48 value. */
  datatype RestingOrder = RestingOrder(
    collateralShares: I80F48,   // collateral for a bid, lent liquidity for an ask
    liabilityShares: I80F48,
    rateBps: U16,
    sequenceNumber: U64,
    traderIndex: U32,
    lastValidSlot: U32,
    orderType: OrderType,
    isBid: bool,
    isATree: bool,
    reverseSpread: U16)
  {
    predicate IsGlobal() { orderType == Global }
    predicate IsReverse() { orderType == Reverse }
  }

  /**
   * `RestingOrder::new`: an order holding exactly the given fields. A reverse order must not
   * expire; one with a last valid slot fails the `assert!` and panics.
   */
  function NewOrder(rateBps: U16, sequenceNumber: U64, collateralShares: I80F48, liabilityShares: I80F48,
                    isATree: bool, traderIndex: U32, lastValidSlot: U32, orderType: OrderType,
                    isBid: bool, reverseSpread: U16): (r: Result<RestingOrder>)
    ensures r.Err? <==> orderType == Reverse && lastValidSlot != NO_EXPIRATION_LAST_VALID_SLOT
    ensures r.Err? ==> r.error == Panic
    ensures r.Ok? ==> r.value == RestingOrder(collateralShares, liabilityShares, rateBps, sequenceNumber,
                                               traderIndex, lastValidSlot, orderType, isBid, isATree, reverseSpread)
  {
    if orderType == Reverse && lastValidSlot != NO_EXPIRATION_LAST_VALID_SLOT then Err(Panic)
    else Ok(RestingOrder(collateralShares, liabilityShares, rateBps, sequenceNumber,
                         traderIndex, lastValidSlot, orderType, isBid, isATree, reverseSpread))
  }

  /** An order with a last valid slot is expired in every later slot; slot 0 never expires. */
  predicate IsExpired(o: RestingOrder, currentSlot: nat)
  {
    o.lastValidSlot != NO_EXPIRATION_LAST_VALID_SLOT && o.lastValidSlot < currentSlot
  }

  /** Once expired, an order stays expired; an order without a last valid slot never expires. */
  lemma ExpiryIsPermanent(o: RestingOrder, s1: nat, s2: nat)
    requires s1 <= s2
    ensures IsExpired(o, s1) ==> IsExpired(o, s2)
    ensures o.lastValidSlot == NO_EXPIRATION_LAST_VALID_SLOT ==> !IsExpired(o, s2)
  {
  }

  /**
   * `get_num_base_atoms`: a bid's size is the base debt of its liability shares, rounded up;
   * an ask's size is the base its collateral shares are worth, rounded down.
   */
  function NumBaseAtoms(o: RestingOrder, baseBank: Bank): (r: Result<U64>)
    ensures o.isBid && r.Ok? ==>
      (r.value - 1) * ONE < (o.liabilityShares * baseBank.liabilityShareValue) / ONE <= r.value * ONE
    ensures !o.isBid && r.Ok? ==>
      r.value * ONE * ONE <= o.collateralShares * baseBank.assetShareValue < (r.value + 1) * ONE * ONE
    ensures r.Err? ==> r.error == Nix(NumericalOverflow) || r.error == Panic
  {
    if o.isBid then TokenAmountToRepay(o.liabilityShares, baseBank)
    else AssetSharesToTokens(o.collateralShares, baseBank)
  }

  /** I80F48 `-`: the exact difference; leaving the range panics. */
  function FixSub(a: I80F48, b: I80F48): (r: Result<I80F48>)
    ensures r.Ok? <==> InRange(a - b)
    ensures r.Ok? ==> r.value == a - b
    ensures r.Err? ==> r.error == Panic
  {
    if InRange(a - b) then Ok(a - b) else Err(Panic)
  }

  /** The fields that fix an order's place in the book and its identity. */
  predicate SamePlace(a: RestingOrder, b: RestingOrder)
  {
    a.rateBps == b.rateBps && a.sequenceNumber == b.sequenceNumber && a.traderIndex == b.traderIndex
    && a.lastValidSlot == b.lastValidSlot && a.orderType == b.orderType && a.isBid == b.isBid
    && a.isATree == b.isATree && a.reverseSpread == b.reverseSpread
  }

  /**
   * `reduce_bid`: after a partial fill of a bid, its collateral shares drop by the quote traded
   * and its liability shares by the base traded, each converted to shares. Called on an ask it
   * fails with `InvalidArgument`; a failed conversion fails with `NumericalOverflow`.
   */
  function ReduceBid(o: RestingOrder, baseBank: Bank, quoteBank: Bank, quoteAtomsTraded: U64, baseAtomsTraded: U64)
    : (r: Result<RestingOrder>)
    ensures !o.isBid ==> r == Err(Program(InvalidArgument))
    ensures r.Ok? ==> SamePlace(r.value, o)
    ensures r.Ok? ==>
      TokensToAssetShares(quoteAtomsTraded, quoteBank).Ok? && TokensToLiabilityShares(baseAtomsTraded, baseBank).Ok?
      && r.value.collateralShares == o.collateralShares - TokensToAssetShares(quoteAtomsTraded, quoteBank).value
      && r.value.liabilityShares == o.liabilityShares - TokensToLiabilityShares(baseAtomsTraded, baseBank).value
  {
    if !o.isBid then Err(Program(InvalidArgument))
    else
      var collateralDelta :- TokensToAssetShares(quoteAtomsTraded, quoteBank);
      var liabilityDelta :- TokensToLiabilityShares(baseAtomsTraded, baseBank);
      var collateral :- FixSub(o.collateralShares, collateralDelta);
      var liability :- FixSub(o.liabilityShares, liabilityDelta);
      Ok(o.(collateralShares := collateral, liabilityShares := liability))
  }

  /**
   * `reduce_ask`: after a partial fill of an ask, its collateral shares drop by the base traded,
   * converted to shares, and its liability shares become zero. Called on a bid it fails with
   * `InvalidArgument`.
   */
  function ReduceAsk(o: RestingOrder, baseBank: Bank, baseAtomsTraded: U64): (r: Result<RestingOrder>)
    ensures o.isBid ==> r == Err(Program(InvalidArgument))
    ensures r.Ok? ==> SamePlace(r.value, o) && r.value.liabilityShares == 0
    ensures r.Ok? ==>
      TokensToAssetShares(baseAtomsTraded, baseBank).Ok?
      && r.value.collateralShares == o.collateralShares - TokensToAssetShares(baseAtomsTraded, baseBank).value
  {
    if o.isBid then Err(Program(InvalidArgument))
    else
      var collateralDelta :- TokensToAssetShares(baseAtomsTraded, baseBank);
      var collateral :- FixSub(o.collateralShares, collateralDelta);
      Ok(o.(collateralShares := collateral, liabilityShares := 0))
  }

  /** `set_order_type`: only the type changes. */
  function SetOrderType(o: RestingOrder, t: OrderType): (r: RestingOrder)
    ensures r.orderType == t
    ensures r.collateralShares == o.collateralShares && r.liabilityShares == o.liabilityShares
    ensures r.rateBps == o.rateBps && r.sequenceNumber == o.sequenceNumber && r.traderIndex == o.traderIndex
    ensures r.lastValidSlot == o.lastValidSlot && r.isBid == o.isBid && r.isATree == o.isATree
    ensures r.reverseSpread == o.reverseSpread
  {
    o.(orderType := t)
  }

  /**
   * `Ord for RestingOrder`: bids compare by rate, asks by rate reversed, so the greatest order
   * of a side is its best one. Nothing else is compared.
   */
  function Cmp(a: RestingOrder, b: RestingOrder): Ordering
  {
    if a.isBid then
      (if a.rateBps < b.rateBps then Less else if a.rateBps == b.rateBps then Equal else Greater)
    else
      (if b.rateBps < a.rateBps then Less else if b.rateBps == a.rateBps then Equal else Greater)
  }

  /** How good an order is for the side it rests on: a bid's rate, or an ask's rate negated. */
  function Rank(o: RestingOrder): (k: int)
    ensures o.isBid ==> k == o.rateBps
    ensures !o.isBid ==> k == -(o.rateBps as int)
  {
    if o.isBid then o.rateBps as int else -(o.rateBps as int)
  }

  /**
   * Within one side the comparator is the order of ranks: a higher-rate bid, or a lower-rate ask,
   * is greater. The comparison is antisymmetric and ignores sequence numbers, so equal-rate
   * orders tie whatever their age.
   */
  lemma CmpIsRankOrder(a: RestingOrder, b: RestingOrder)
    requires a.isBid == b.isBid
    ensures Cmp(a, b) == Greater <==> Rank(a) > Rank(b)
    ensures Cmp(a, b) == Equal <==> Rank(a) == Rank(b)
    ensures Cmp(a, b) == Less <==> Rank(a) < Rank(b)
    ensures Cmp(a, b) == Greater <==> Cmp(b, a) == Less
    ensures Cmp(a, b) == Cmp(a.(sequenceNumber := b.sequenceNumber), b)
  {
  }

  /**
   * `PartialEq for RestingOrder`: same trader and type, and the same rate; reverse orders also
   * accept a rate one above or below (wrapping at 16 bits).
   */
  predicate OrderEq(a: RestingOrder, b: RestingOrder)
  {
    a.traderIndex == b.traderIndex && a.orderType == b.orderType
    && if a.orderType == Reverse then
         a.rateBps == b.rateBps || (a.rateBps + 1) % U16_LIMIT == b.rateBps || (a.rateBps - 1) % U16_LIMIT == b.rateBps
       else a.rateBps == b.rateBps
  }

  /** Equality never holds across traders or types; outside reverse orders it needs the exact rate. */
  lemma OrderEqMeans(a: RestingOrder, b: RestingOrder)
    ensures OrderEq(a, b) ==> a.traderIndex == b.traderIndex && a.orderType == b.orderType
    ensures OrderEq(a, b) && a.orderType != Reverse ==> a.rateBps == b.rateBps
    ensures a.orderType == Reverse && a.traderIndex == b.traderIndex && a.orderType == b.orderType ==>
      (OrderEq(a, b) <==> (b.rateBps - a.rateBps) % U16_LIMIT in {0, 1, U16_LIMIT - 1})
    ensures OrderEq(a, b) <==> OrderEq(b, a)
  {
  }

  /**
   * The tolerance makes equality of reverse orders intransitive: rates 1 and 2 are equal,
   * 2 and 3 are equal, but 1 and 3 are not.
   */
  lemma ReverseEqIsNotTransitive(o: RestingOrder)
    requires o.orderType == Reverse
    ensures OrderEq(o.(rateBps := 1), o.(rateBps := 2)) && OrderEq(o.(rateBps := 2), o.(rateBps := 3))
    ensures !OrderEq(o.(rateBps := 1), o.(rateBps := 3))
  {
  }
}
