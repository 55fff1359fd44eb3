// The cancel-order instruction handler (program/processor/cancel_order.rs): finds the caller's
// seat, then cancels either by sequence-number scan or through a hinted block, which it
// checks before trusting.

module CancelOrderProcessor {
  import opened Bytes
  import opened Arith
  import opened Errors
  import opened Constants
  import opened Orders
  import opened Seats
  import opened Loans
  import opened Guards
  import opened MarketLayout
  import opened Markets
  import opened Shared

  /** `CancelOrderParams`: optional seat and order hints, the order's sequence number, its tree. */
  datatype CancelOrderParams = CancelOrderParams(
    traderIndexHint: Option<U32>,
    orderSequenceNumber: U64,
    orderIndexHint: Option<U32>,
    useATree: bool)

  /** `CancelOrderLog`: the market, the trader and the cancelled order's sequence number. */
  datatype CancelOrderLog = CancelOrderLog(market: Pubkey, trader: Pubkey, orderSequenceNumber: U64)

  /**
   * The checks on an order index hint as the handler makes them: a block boundary, a block
   * holding an order, an order of the caller's seat, an order with the requested sequence
   * number, each failing with `WrongIndexHintParams`. Reading an aligned block past the end of
   * the data panics. Nothing checks that the order is in the tree being cancelled from.
   */
  function CheckCancelHintAsWritten(l: Layout, hint: U32, traderIndex: nat, sequenceNumber: U64): (r: Outcome)
    requires l.ArenaOk()
    ensures r.Pass? <==> hint % MARKET_BLOCK_SIZE == 0 && IsOrderAt(l.arena, hint)
                         && OrderAt(l.arena, hint).traderIndex == traderIndex
                         && OrderAt(l.arena, hint).sequenceNumber == sequenceNumber
    ensures r == Fail(Panic) <==> hint % MARKET_BLOCK_SIZE == 0 && hint >= l.numBytesAllocated
    ensures r.Fail? && r.error != Panic ==> r.error == Nix(WrongIndexHintParams)
  {
    if hint % MARKET_BLOCK_SIZE != 0 then Fail(Nix(WrongIndexHintParams))
    else if hint >= l.numBytesAllocated then Fail(Panic)
    else if !IsOrderAt(l.arena, hint) then Fail(Nix(WrongIndexHintParams))
    else if OrderAt(l.arena, hint).traderIndex != traderIndex then Fail(Nix(WrongIndexHintParams))
    else if OrderAt(l.arena, hint).sequenceNumber != sequenceNumber then Fail(Nix(WrongIndexHintParams))
    else Pass
  }

  /** A well-formed market whose one order (block 112, sequence number 7) rests on the B tree. */
  const MISPLACED_HINT_EXAMPLE: Layout :=
    Layout(2 * MARKET_BLOCK_SIZE, [],
           map[0 := SeatBlock(NewEmptySeat(DEFAULT_PUBKEY)),
               MARKET_BLOCK_SIZE := OrderBlock(RestingOrder(0, 0, 100, 7, 0, 0, Limit, false, false, 0))],
           [0], NO_BOOKS.(bAsks := [MARKET_BLOCK_SIZE]))

  /**
   * The hint checks let through an order of the other tree: cancelling from the A tree with a
   * hint at block 112 passes them, though that order is on neither A bookside, so the handler
   * goes on to remove it from a tree that does not hold it.
   */
  lemma CancelHintAsWrittenAcceptsOtherTree()
    ensures MISPLACED_HINT_EXAMPLE.Valid()
    ensures CheckCancelHintAsWritten(MISPLACED_HINT_EXAMPLE, 112, 0, 7).Pass?
    ensures 112 !in MISPLACED_HINT_EXAMPLE.books.Get(true, true) && 112 !in MISPLACED_HINT_EXAMPLE.books.Get(true, false)
  {
    var l := MISPLACED_HINT_EXAMPLE;
    forall i: nat | IsMarketBlock(i, l.numBytesAllocated)
      ensures i == 0 || i == MARKET_BLOCK_SIZE
    {
      if i < MARKET_BLOCK_SIZE {
        AlignedIsBase(i, 0);
      } else {
        AlignedIsBase(i, MARKET_BLOCK_SIZE);
      }
    }
    assert l.ArenaOk();
    assert l.SeatsOk();
    forall t: bool, b: bool
      ensures BookOk(l.arena, l.books.Get(t, b), t, b)
    {
      assert forall i :: OnSide(l.arena, i, t, b) ==> i == MARKET_BLOCK_SIZE;
    }
  }

  /**
   * The hint checks with the missing one added: the order must also be on the tree named by
   * the instruction, or the hint fails with `WrongIndexHintParams` like the other checks.
   */
  function CheckCancelHint(l: Layout, hint: U32, traderIndex: nat, sequenceNumber: U64, useATree: bool): (r: Outcome)
    requires l.ArenaOk()
    ensures r.Pass? <==> CheckCancelHintAsWritten(l, hint, traderIndex, sequenceNumber).Pass?
                         && OrderAt(l.arena, hint).isATree == useATree
    ensures r == Fail(Panic) <==> hint % MARKET_BLOCK_SIZE == 0 && hint >= l.numBytesAllocated
    ensures r.Fail? && r.error != Panic ==> r.error == Nix(WrongIndexHintParams)
  {
    var checked := CheckCancelHintAsWritten(l, hint, traderIndex, sequenceNumber);
    if checked.Fail? then checked
    else if OrderAt(l.arena, hint).isATree != useATree then Fail(Nix(WrongIndexHintParams))
    else Pass
  }

  /** A hint that passes the corrected checks is on a bookside of the named tree. */
  lemma CheckedHintIsOnBook(l: Layout, hint: U32, traderIndex: nat, sequenceNumber: U64, useATree: bool)
    requires l.Valid() && CheckCancelHint(l, hint, traderIndex, sequenceNumber, useATree).Pass?
    ensures hint in l.books.Get(useATree, OrderAt(l.arena, hint).isBid)
  {
    var b := OrderAt(l.arena, hint).isBid;
    assert BookOk(l.arena, l.books.Get(useATree, b), useATree, b);
    assert OnSide(l.arena, hint, useATree, b);
  }

  /**
   * The hinted branch of `process_cancel_order_core`: the hinted block is checked, then its
   * order is cancelled by index with the payer and the system program at hand.
   */
  method CancelByHint(m: Market, useATree: bool, h: U32, traderIndex: nat, sequenceNumber: U64,
                      payer: Wallet, baseGlobal: GlobalAccount, loans: MarketLoans, expandCpi: Outcome,
                      nowTimestamp: I64, nowSlot: U32)
    returns (r: Outcome)
    requires m.Valid() && loans.Valid()
    modifies m, baseGlobal, payer, loans
    ensures m.Valid() && loans.Valid()
    ensures r.Fail? ==> m.Data() == old(m.Data()) && loans.State() == old(loans.State())
                        && unchanged(baseGlobal) && unchanged(payer)
    ensures m.baseASequenceNumber == old(m.baseASequenceNumber) && m.baseBSequenceNumber == old(m.baseBSequenceNumber)
    ensures var checked := CheckCancelHint(old(m.Data()), h, traderIndex, sequenceNumber, useATree);
            (checked.Fail? ==> r == checked)
            && (r.Pass? ==>
                  checked.Pass? && DropOrder(old(m.Data()), useATree, h).Ok?
                  && m.Data() == DropOrder(old(m.Data()), useATree, h).value)
  {
    r := CheckCancelHint(m.Data(), h, traderIndex, sequenceNumber, useATree);
    if r.Fail? {
      return;
    }
    CheckedHintIsOnBook(m.Data(), h, traderIndex, sequenceNumber, useATree);
    r := m.CancelOrderByIndex(useATree, h, baseGlobal, Some(payer), true, loans, expandCpi, nowTimestamp, nowSlot);
  }

  /**
   * `process_cancel_order_core`: the caller's seat comes from `get_trader_index_with_hint`.
   * Without an order hint the order is found by `cancel_order`'s scan over the tree; with one,
   * the hinted block is checked and cancelled by index. The payer receives any gas refund and
   * pays for any growth of the loan ledger. Only a cancellation that succeeds is logged; a
   * failure leaves the market, the ledger, the global account and the payer as they were.
   */
  method ProcessCancelOrderCore(m: Market, params: CancelOrderParams, marketKey: Pubkey, payerKey: Pubkey,
                                payer: Wallet, baseGlobal: GlobalAccount, loans: MarketLoans, expandCpi: Outcome,
                                nowTimestamp: I64, nowSlot: U32)
    returns (r: Outcome, log: Option<CancelOrderLog>)
    requires m.Valid() && loans.Valid()
    modifies m, baseGlobal, payer, loans
    ensures m.Valid() && loans.Valid()
    ensures log.Some? <==> r.Pass?
    ensures r.Pass? ==> log.value == CancelOrderLog(marketKey, payerKey, params.orderSequenceNumber)
    ensures r.Fail? ==> m.Data() == old(m.Data()) && loans.State() == old(loans.State())
                        && unchanged(baseGlobal) && unchanged(payer)
    ensures m.baseASequenceNumber == old(m.baseASequenceNumber) && m.baseBSequenceNumber == old(m.baseBSequenceNumber)
    ensures var t := old(GetTraderIndexWithHint(m, params.traderIndexHint, payerKey));
            t.Err? ==> r == Fail(t.error)
    ensures var t := old(GetTraderIndexWithHint(m, params.traderIndexHint, payerKey));
            var found := Matches(old(m.arena), old(m.books.Get(params.useATree, false)), params.orderSequenceNumber)
                         + Matches(old(m.arena), old(m.books.Get(params.useATree, true)), params.orderSequenceNumber);
            t.Ok? && params.orderIndexHint.None? ==>
              (!(|found| == 1 && Owned(old(m.arena), found, t.value)) ==> r == Fail(Nix(InvalidCancel)))
              && (r.Pass? ==> |found| == 1 && Owned(old(m.arena), found, t.value)
                              && DropOrder(old(m.Data()), params.useATree, found[0]).Ok?
                              && m.Data() == DropOrder(old(m.Data()), params.useATree, found[0]).value)
    ensures var t := old(GetTraderIndexWithHint(m, params.traderIndexHint, payerKey));
            t.Ok? && params.orderIndexHint.Some? ==>
              var h := params.orderIndexHint.value;
              var checked := CheckCancelHint(old(m.Data()), h, t.value, params.orderSequenceNumber, params.useATree);
              (checked.Fail? ==> r == checked)
              && (r.Pass? ==>
                    checked.Pass? && DropOrder(old(m.Data()), params.useATree, h).Ok?
                    && m.Data() == DropOrder(old(m.Data()), params.useATree, h).value)
  {
    log := None;
    var trader := GetTraderIndexWithHint(m, params.traderIndexHint, payerKey);
    if trader.Err? {
      return Fail(trader.error), None;
    }
    var traderIndex := trader.value;
    match params.orderIndexHint {
      case None =>
        r := m.CancelOrder(params.useATree, traderIndex, params.orderSequenceNumber, baseGlobal, payer, loans,
                           expandCpi, nowTimestamp, nowSlot);
      case Some(h) =>
        r := CancelByHint(m, params.useATree, h, traderIndex, params.orderSequenceNumber, payer, baseGlobal,
                          loans, expandCpi, nowTimestamp, nowSlot);
    }
    if r.Pass? {
      log := Some(CancelOrderLog(marketKey, payerKey, params.orderSequenceNumber));
    }
  }
}
