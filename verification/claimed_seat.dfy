// A trader's seat on a market: its withdrawable shares of both assets (state/claimed_seat.rs).

module Seats {
  import opened Bytes
  import opened Quantities

  datatype ClaimedSeat = ClaimedSeat(
    trader: Pubkey,
    baseAWithdrawableAssetShare: I80F48,
    baseBWithdrawableAssetShare: I80F48,
    baseAVolume: I80F48,    // informational only
    baseBVolume: I80F48)

  /** `ClaimedSeat::new_empty`: the trader's key and nothing else. */
  function NewEmptySeat(trader: Pubkey): (s: ClaimedSeat)
    ensures s.trader == trader
    ensures s.baseAWithdrawableAssetShare == 0 && s.baseBWithdrawableAssetShare == 0
    ensures s.baseAVolume == 0 && s.baseBVolume == 0
  {
    ClaimedSeat(trader, 0, 0, 0, 0)
  }

  /** Seats are ordered by their trader's key alone. */
  function SeatCmp(a: ClaimedSeat, b: ClaimedSeat): Ordering
  {
    KeyCmp(a.trader, b.trader)
  }

  /** Seats are equal when their traders are, whatever their balances. */
  predicate SeatEq(a: ClaimedSeat, b: ClaimedSeat)
  {
    a.trader == b.trader
  }

  /**
   * The seat order is a total order on traders: comparing equal is seat equality, and
   * swapping the operands swaps less and greater.
   */
  lemma SeatOrderIsTotal(a: ClaimedSeat, b: ClaimedSeat)
    ensures SeatCmp(a, b) == Equal <==> SeatEq(a, b)
    ensures SeatCmp(a, b) == Less <==> SeatCmp(b, a) == Greater
    ensures SeatEq(a, b) <==> SeatEq(NewEmptySeat(a.trader), b)
  {
    LexTrichotomy(a.trader, b.trader);
  }

  /** The seat order is transitive, strictly and with equality allowed. */
  lemma SeatOrderIsTransitive(a: ClaimedSeat, b: ClaimedSeat, c: ClaimedSeat)
    ensures SeatCmp(a, b) == Less && SeatCmp(b, c) == Less ==> SeatCmp(a, c) == Less
    ensures SeatCmp(a, b) != Greater && SeatCmp(b, c) != Greater ==> SeatCmp(a, c) != Greater
  {
    LexTrichotomy(a.trader, c.trader);
    if LexLess(a.trader, b.trader) && LexLess(b.trader, c.trader) {
      LexTransitive(a.trader, b.trader, c.trader);
    }
  }
}
