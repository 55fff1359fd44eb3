// Helpers shared by the instruction handlers (program/processor/shared.rs): the trader index
// hint, growing an account when its free list is empty, and the size and rent arithmetic of
// growing one.

module Shared {
  import opened Bytes
  import opened Errors
  import opened Constants
  import opened Seats
  import opened MarketLayout
  import opened Markets

  /**
   * `verify_trader_index_hint`: the hint must be a block boundary, its block must hold a seat,
   * and that seat must be the payer's, each checked in turn and failing with
   * `WrongIndexHintParams`. Reading an aligned block past the end of the data panics.
   */
  function VerifyTraderIndexHint(l: Layout, hint: U32, payer: Pubkey): (r: Outcome)
    requires l.ArenaOk()
    ensures r.Pass? <==> hint % MARKET_BLOCK_SIZE == 0 && IsSeatAt(l.arena, hint) && SeatAt(l.arena, hint).trader == payer
    ensures r == Fail(Panic) <==> hint % MARKET_BLOCK_SIZE == 0 && hint >= l.numBytesAllocated
    ensures r.Fail? && r.error != Panic ==> r.error == Nix(WrongIndexHintParams)
  {
    if hint % MARKET_BLOCK_SIZE != 0 then Fail(Nix(WrongIndexHintParams))
    else if hint >= l.numBytesAllocated then Fail(Panic)
    else if !IsSeatAt(l.arena, hint) then Fail(Nix(WrongIndexHintParams))
    else if SeatAt(l.arena, hint).trader != payer then Fail(Nix(WrongIndexHintParams))
    else Pass
  }

  /**
   * `get_trader_index_with_hint`: without a hint, the payer's seat as `get_trader_index` finds
   * it (NIL when the payer has none); with one, the hint itself once it is verified.
   */
  function GetTraderIndexWithHint(m: Market, hint: Option<U32>, payer: Pubkey): (r: Result<nat>)
    reads m
    requires m.Valid()
    ensures hint.None? ==> r.Ok? && (r.value == NIL <==> forall i :: IsSeatAt(m.arena, i) ==> SeatAt(m.arena, i).trader != payer)
    ensures hint.Some? ==> (r.Ok? <==> VerifyTraderIndexHint(m.Data(), hint.value, payer).Pass?)
    ensures hint.Some? && r.Ok? ==> r.value == hint.value
    ensures hint.Some? && r.Err? ==> r.error == VerifyTraderIndexHint(m.Data(), hint.value, payer).error
    ensures r.Ok? && r.value != NIL ==> IsSeatAt(m.arena, r.value) && SeatAt(m.arena, r.value).trader == payer
  {
    match hint
    case None => Ok(m.GetTraderIndex(payer))
    case Some(h) =>
      match VerifyTraderIndexHint(m.Data(), h, payer)
      case Pass => Ok(h)
      case Fail(e) => Err(e)
  }

  /**
   * A hint that passes verification names the block the lookup would have found: no trader
   * has two seats, so a hint only saves the search.
   */
  lemma HintAgreesWithLookup(m: Market, h: U32, payer: Pubkey)
    requires m.Valid()
    requires GetTraderIndexWithHint(m, Some(h), payer).Ok?
    ensures GetTraderIndexWithHint(m, Some(h), payer) == GetTraderIndexWithHint(m, None, payer)
  {
    var found := m.GetTraderIndex(payer);
    assert found != NIL by {
      assert IsSeatAt(m.arena, h) && SeatAt(m.arena, h).trader == payer;
    }
    assert m.Data().SeatsOk();
  }

  /**
   * What growing an account by one block costs (`expand_dynamic`): the new size, and the
   * lamports the payer transfers, the saturating difference between the rent-exempt minimum
   * balances of the new and the old size.
   */
  datatype Growth = Growth(newSize: nat, topUp: U64)

  /**
   * `expand_dynamic`'s arithmetic, with the rent-exempt minimum balance of a data length given
   * as a function. An account holding the old minimum holds at least the new one once topped
   * up, and exactly the new one when the minimum does not shrink.
   */
  function ExpandDynamic(dataLen: nat, blockSize: nat, minimumBalance: nat -> U64): (g: Growth)
    ensures g.newSize == dataLen + blockSize
    ensures minimumBalance(dataLen) + g.topUp >= minimumBalance(g.newSize)
    ensures minimumBalance(dataLen) <= minimumBalance(g.newSize) ==> minimumBalance(dataLen) + g.topUp == minimumBalance(g.newSize)
    ensures g.topUp == 0 <==> minimumBalance(g.newSize) <= minimumBalance(dataLen)
  {
    var newSize := dataLen + blockSize;
    var newMinimum := minimumBalance(newSize);
    var oldMinimum := minimumBalance(dataLen);
    Growth(newSize, if newMinimum >= oldMinimum then newMinimum - oldMinimum else 0)
  }

  /** A rent schedule whose minimum balance never falls as the account grows. */
  ghost predicate Monotone(minimumBalance: nat -> U64)
  {
    forall a: nat, b: nat {:trigger minimumBalance(a), minimumBalance(b)} :: a <= b ==> minimumBalance(a) <= minimumBalance(b)
  }

  /**
   * `expand_global`: a global account always grows by two global blocks (one per tree), paid
   * as two successive top-ups. The result is the new size and the total paid.
   */
  function ExpandGlobal(dataLen: nat, minimumBalance: nat -> U64): (r: (nat, nat))
    ensures r.0 == dataLen + 2 * GLOBAL_BLOCK_SIZE
    ensures minimumBalance(dataLen) + r.1 >= minimumBalance(r.0)
  {
    var first := ExpandDynamic(dataLen, GLOBAL_BLOCK_SIZE, minimumBalance);
    var second := ExpandDynamic(first.newSize, GLOBAL_BLOCK_SIZE, minimumBalance);
    (second.newSize, first.topUp + second.topUp)
  }

  /**
   * Under a rent schedule that never falls, the two top-ups of `expand_global` add up to
   * exactly one top-up from the old size to the final one.
   */
  lemma ExpandGlobalTopUpIsOneStep(dataLen: nat, minimumBalance: nat -> U64)
    requires Monotone(minimumBalance)
    ensures ExpandGlobal(dataLen, minimumBalance).1 == ExpandDynamic(dataLen, 2 * GLOBAL_BLOCK_SIZE, minimumBalance).topUp
  {
    var mid := dataLen + GLOBAL_BLOCK_SIZE;
    var end := dataLen + 2 * GLOBAL_BLOCK_SIZE;
    assert minimumBalance(dataLen) <= minimumBalance(mid) <= minimumBalance(end);
  }

  /** The length of a market account: the header, then every block of the data region. */
  function MarketAccountLen(m: Market): nat
    reads m
  {
    MARKET_FIXED_SIZE + m.numBytesAllocated
  }

  /**
   * `expand_market_if_needed`: nothing happens while the free list has a block. Otherwise the
   * payer tops the account up to the new rent-exempt minimum and it grows by one block
   * (`transfer` stands for the lamport transfer and the reallocation, which can fail), and
   * `market_expand` frees that block. Either way, a block is free afterwards unless it fails.
   * The second result is the lamports the payer is asked for.
   */
  method ExpandMarketIfNeeded(m: Market, minimumBalance: nat -> U64, transfer: Outcome) returns (r: Outcome, topUp: U64)
    requires m.Valid()
    modifies m
    ensures m.Valid()
    ensures r.Pass? ==> m.HasFreeBlock()
    ensures old(m.freeList) != [] ==> r == Pass && topUp == 0 && unchanged(m)
    ensures old(m.freeList) == [] ==>
              topUp == ExpandDynamic(old(MarketAccountLen(m)), MARKET_BLOCK_SIZE, minimumBalance).topUp
              && (transfer.Fail? ==> r == transfer && unchanged(m))
              && (transfer.Pass? ==> (r.Pass? <==> old(m.numBytesAllocated) + MARKET_BLOCK_SIZE < U32_LIMIT))
    ensures old(m.freeList) == [] && r.Pass? ==>
              m.Data() == old(m.Data()).Expand()
              && MarketAccountLen(m) == ExpandDynamic(old(MarketAccountLen(m)), MARKET_BLOCK_SIZE, minimumBalance).newSize
    ensures r.Fail? ==> m.Data() == old(m.Data())
    ensures m.baseASequenceNumber == old(m.baseASequenceNumber) && m.baseBSequenceNumber == old(m.baseBSequenceNumber)
  {
    if m.HasFreeBlock() {
      return Pass, 0;
    }
    var growth := ExpandDynamic(MarketAccountLen(m), MARKET_BLOCK_SIZE, minimumBalance);
    topUp := growth.topUp;
    if transfer.Fail? {
      return transfer, topUp;
    }
    r := m.MarketExpand();
  }

  /**
   * `get_mut_dynamic_account`: an account's data splits into the header of the given size and
   * the data region after it. Data shorter than the header panics.
   */
  function SplitDynamic(data: seq<Byte>, fixedSize: nat): (r: Result<(seq<Byte>, seq<Byte>)>)
    ensures r.Ok? <==> fixedSize <= |data|
    ensures r.Err? ==> r.error == Panic
    ensures r.Ok? ==> |r.value.0| == fixedSize && r.value.0 + r.value.1 == data
  {
    if fixedSize > |data| then Err(Panic) else Ok((data[..fixedSize], data[fixedSize..]))
  }
}
