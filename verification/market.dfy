// The market account (state/market.rs, state/market_helpers.rs): the header's two order
// sequence numbers, its size and free-list head, and the data region of seats and booksides,
// changed in place by the instruction handlers.

module Markets {
  import opened Bytes
  import opened Arith
  import opened Errors
  import opened Constants
  import opened Quantities
  import opened Shares
  import opened Orders
  import opened Seats
  import opened Loans
  import opened Guards
  import opened MarketLayout
  import opened Matching

  /**
   * What dropping an order without a trade (expired, empty, unbacked or cancelled) does to the
   * data region: a non-global ask's collateral goes back to its owner's seat, a bid's does not
   * (it turns into a loan on the lending pool), and the order's block is freed. A global bid
   * cannot be dropped (`InvalidGlobalBidOrder`); a refund leaving the I80F48 range panics.
   */
  function DropOrder(l: Layout, useATree: bool, i: nat): (r: Result<Layout>)
    ensures var o := OrderAt(l.arena, i);
            r.Err? <==> (o.IsGlobal() && o.isBid)
                        || (!o.IsGlobal() && !o.isBid
                            && UpdatedSeat(SeatAt(l.arena, o.traderIndex), AskRefundSide(useATree), true, o.collateralShares).Err?)
    ensures r.Err? ==> r.error == Nix(InvalidGlobalBidOrder) || r.error == Panic
    ensures r.Ok? ==> r.value.freeList == [i] + l.freeList
  {
    var o := OrderAt(l.arena, i);
    if o.IsGlobal() then
      if o.isBid then Err(Nix(InvalidGlobalBidOrder)) else Ok(l.RemoveOrder(i, useATree, false))
    else if o.isBid then Ok(l.RemoveOrder(i, useATree, true))
    else
      match UpdatedSeat(SeatAt(l.arena, o.traderIndex), AskRefundSide(useATree), true, o.collateralShares)
      case Ok(seat) => Ok(l.WithSeat(o.traderIndex, seat).RemoveOrder(i, useATree, false))
      case Err(e) => Err(e)
  }

  /** A bookside never lists NIL, so its best index is NIL exactly when it is empty. */
  lemma NilNotInBooks(l: Layout, useATree: bool, isBid: bool)
    requires l.Valid()
    ensures NIL !in l.books.Get(useATree, isBid)
    ensures BestIndex(l.books.Get(useATree, isBid)) == NIL <==> l.books.Get(useATree, isBid) == []
  {
    assert BookOk(l.arena, l.books.Get(useATree, isBid), useATree, isBid);
    NilIsNoBlock(l.numBytesAllocated);
  }

  /** The free-list head, when there is one, is a block of the data region, so it is not NIL. */
  lemma FreeHeadIsBlock(l: Layout)
    requires l.Valid()
    ensures l.freeList != [] ==> l.freeList[0] != NIL
  {
    if l.freeList != [] {
      assert l.freeList[0] in l.arena;
      NilIsNoBlock(l.numBytesAllocated);
    }
  }

  /** No seat lives at NIL. */
  lemma SeatsAreBlocks(l: Layout)
    requires l.Valid()
    ensures !IsSeatAt(l.arena, NIL)
  {
    NilIsNoBlock(l.numBytesAllocated);
  }

  /**
   * Removing or reducing a maker leaves every seat a seat: the maker's block holds an order.
   */
  lemma SeatsSurvive(before: Layout, after: Layout, head: nat, useATree: bool, isBid: bool, seat: nat)
    requires before.Valid() && head in before.books.Get(useATree, isBid) && IsSeatAt(before.arena, seat)
    requires after == before.RemoveOrder(head, useATree, isBid)
             || (exists o :: after == before.WithOrder(head, o))
    ensures IsSeatAt(after.arena, seat)
  {
    assert BookOk(before.arena, before.books.Get(useATree, isBid), useATree, isBid);
  }

  /** Every block listed in a bookside is an offset below the u32 size, so it fits a `DataIndex`. */
  lemma BookEntryIsIndex(l: Layout, useATree: bool, isBid: bool, i: nat)
    requires l.Valid() && i in l.books.Get(useATree, isBid)
    ensures OnSide(l.arena, i, useATree, isBid) && i < U32_LIMIT
    ensures IsSeatAt(l.arena, OrderAt(l.arena, i).traderIndex)
  {
    assert BookOk(l.arena, l.books.Get(useATree, isBid), useATree, isBid);
    assert i in l.arena;
  }

  /**
   * Dropping an order keeps the data region well formed, takes the order out of its bookside
   * (the rest in the same order) and frees its block; every seat stays a seat, and a
   * non-global ask's owner gets exactly its collateral back on the refund side.
   */
  lemma DropOrderValid(l: Layout, useATree: bool, i: nat)
    requires l.Valid() && i in l.books.Get(useATree, OrderAt(l.arena, i).isBid)
    requires DropOrder(l, useATree, i).Ok?
    ensures var l' := DropOrder(l, useATree, i).value;
            var o := OrderAt(l.arena, i);
            l'.Valid()
            && l'.books == l.books.With(useATree, o.isBid, Without(l.books.Get(useATree, o.isBid), i))
            && i !in l'.books.Get(useATree, o.isBid)
            && (i == l.books.Get(useATree, o.isBid)[0] ==> l'.books.Get(useATree, o.isBid) == l.books.Get(useATree, o.isBid)[1..])
            && (forall j :: IsSeatAt(l.arena, j) ==> IsSeatAt(l'.arena, j))
            && (!o.IsGlobal() && !o.isBid ==>
                  Withdrawable(SeatAt(l'.arena, o.traderIndex), AskRefundSide(useATree))
                  == Withdrawable(SeatAt(l.arena, o.traderIndex), AskRefundSide(useATree)) + o.collateralShares)
  {
    var o := OrderAt(l.arena, i);
    var s := l.books.Get(useATree, o.isBid);
    BookEntryIsIndex(l, useATree, o.isBid, i);
    assert BookOk(l.arena, s, useATree, o.isBid);
    if i == s[0] {
      WithoutHead(s);
    }
    if !o.IsGlobal() && !o.isBid {
      var seat := UpdatedSeat(SeatAt(l.arena, o.traderIndex), AskRefundSide(useATree), true, o.collateralShares).value;
      WithSeatValid(l, o.traderIndex, seat);
      var m := l.WithSeat(o.traderIndex, seat);
      assert m.books == l.books;
      RemoveOrderValid(m, i, useATree, o.isBid);
    } else {
      RemoveOrderValid(l, i, useATree, o.isBid);
    }
  }

  lemma DropOrderKeepsValid(l: Layout, useATree: bool, i: nat)
    requires l.Valid() && i in l.books.Get(useATree, OrderAt(l.arena, i).isBid)
    requires DropOrder(l, useATree, i).Ok?
    ensures DropOrder(l, useATree, i).value.Valid()
  {
    DropOrderValid(l, useATree, i);
  }

  /** Dropping an order leaves every other order where it was: its owner's seat is not an order block. */
  lemma DropOrderKeepsOrders(l: Layout, useATree: bool, i: nat)
    requires l.Valid() && IsOrderAt(l.arena, i) && DropOrder(l, useATree, i).Ok?
    ensures var l' := DropOrder(l, useATree, i).value;
            forall j :: j != i && IsOrderAt(l.arena, j) ==> IsOrderAt(l'.arena, j) && OrderAt(l'.arena, j) == OrderAt(l.arena, j)
  {
    assert IsSeatAt(l.arena, OrderAt(l.arena, i).traderIndex);
  }

  /**
   * While a maker-only taker matches, the opposite bookside is what is left of the original one
   * (`book0` over `arena0`), every order on it unchanged, and everything gone from it was lapsed.
   */
  ghost predicate OnlyLapsedGone(l: Layout, t: bool, b: bool, book0: seq<nat>, arena0: Arena, nowSlot: nat)
  {
    (forall i :: i in l.books.Get(t, b) ==> i in book0 && OrderAt(l.arena, i) == OrderAt(arena0, i))
    && (forall i :: i in book0 && i !in l.books.Get(t, b) ==> Lapsed(OrderAt(arena0, i), nowSlot))
  }

  /** Dropping a lapsed head keeps `OnlyLapsedGone`. */
  lemma LapsedDropKeepsBook(d: Layout, d': Layout, t: bool, b: bool, book0: seq<nat>, arena0: Arena, nowSlot: nat)
    requires d.Valid() && d.books.Get(t, b) != [] && Lapsed(OrderAt(d.arena, d.books.Get(t, b)[0]), nowSlot)
    requires DropOrder(d, t, d.books.Get(t, b)[0]) == Ok(d')
    requires d'.books.Get(t, b) == d.books.Get(t, b)[1..]
    requires OnlyLapsedGone(d, t, b, book0, arena0, nowSlot)
    ensures OnlyLapsedGone(d', t, b, book0, arena0, nowSlot)
  {
    var s := d.books.Get(t, b);
    assert BookOk(d.arena, s, t, b);
    assert s[0] !in s[1..];
    BookEntryIsIndex(d, t, b, s[0]);
    DropOrderKeepsOrders(d, t, s[0]);
    forall i | i in s[1..] ensures IsOrderAt(d.arena, i) {
      assert i in s && OnSide(d.arena, i, t, b);
    }
  }

  /**
   * When only lapsed orders have left the opposite bookside and none of those still on it
   * crosses the limit, no live order of the original bookside crossed it.
   */
  lemma NoLiveCrossFromRemaining(l0: Layout, l: Layout, t: bool, isBid: bool, limit: int, nowSlot: nat)
    requires OnlyLapsedGone(l, t, !isBid, l0.books.Get(t, !isBid), l0.arena, nowSlot)
    requires NoneCross(l, t, isBid, limit)
    ensures NoLiveCross(l0, t, isBid, limit, nowSlot)
  {
    forall i | i in l0.books.Get(t, !isBid) && !Lapsed(OrderAt(l0.arena, i), nowSlot)
      ensures !Crosses(isBid, limit, OrderAt(l0.arena, i).rateBps)
    {
      assert i in l.books.Get(t, !isBid);
    }
  }

  /** Dropping the head of a bookside leaves the rest of it, and every seat, in place. */
  lemma DropHeadKeepsSeat(l: Layout, useATree: bool, isBid: bool, seat: nat)
    requires l.Valid() && l.books.Get(useATree, isBid) != [] && IsSeatAt(l.arena, seat)
    requires DropOrder(l, useATree, l.books.Get(useATree, isBid)[0]).Ok?
    ensures var l' := DropOrder(l, useATree, l.books.Get(useATree, isBid)[0]).value;
            l'.books.Get(useATree, isBid) == l.books.Get(useATree, isBid)[1..] && IsSeatAt(l'.arena, seat)
  {
    var head := l.books.Get(useATree, isBid)[0];
    BookEntryIsIndex(l, useATree, isBid, head);
    DropOrderValid(l, useATree, head);
  }

  /** The market account: its header fields and its data region. */
  class Market {
    var baseASequenceNumber: U64
    var baseBSequenceNumber: U64
    var numBytesAllocated: nat
    var freeList: seq<nat>            // head first
    var arena: Arena
    var seats: seq<nat>               // the claimed-seat tree's blocks
    var books: Books                  // the four booksides, best first
    const ltvBufferBps: U64           // set at creation, never changed

    /** The data region and its bookkeeping as one value. */
    function Data(): Layout
      reads this
    {
      Layout(numBytesAllocated, freeList, arena, seats, books)
    }

    ghost predicate Valid()
      reads this
    {
      Data().Valid()
    }

    /** The order sequence number of one tree. */
    function SequenceNumber(useATree: bool): U64
      reads this
    {
      if useATree then baseASequenceNumber else baseBSequenceNumber
    }

    /**
     * `MarketFixed::new_empty`: no blocks, an empty free list (head NIL), no seats, four empty
     * booksides (every best index NIL) and both sequence numbers 0.
     */
    constructor NewEmpty(ltvBufferBps: U64)
      ensures Valid() && Data() == EMPTY_LAYOUT
      ensures baseASequenceNumber == 0 && baseBSequenceNumber == 0
      ensures this.ltvBufferBps == ltvBufferBps
      ensures FreeListHead() == NIL
      ensures forall t: bool, b: bool :: BestIndex(books.Get(t, b)) == NIL
    {
      baseASequenceNumber := 0;
      baseBSequenceNumber := 0;
      numBytesAllocated := 0;
      freeList := [];
      arena := map[];
      seats := [];
      books := NO_BOOKS;
      this.ltvBufferBps := ltvBufferBps;
      EmptyLayoutValid();
    }

    /** `free_list_head_index`. */
    function FreeListHead(): nat
      reads this
    {
      if freeList == [] then NIL else freeList[0]
    }

    /** `has_free_block`: the free-list head is not NIL, which is the free list being non-empty. */
    function HasFreeBlock(): (b: bool)
      reads this
      requires Valid()
      ensures b <==> freeList != []
    {
      FreeHeadIsBlock(Data());
      FreeListHead() != NIL
    }

    /**
     * `get_trader_index`: the block of the trader's seat, or NIL when the trader has none.
     */
    function GetTraderIndex(trader: Pubkey): (r: nat)
      reads this
      requires Valid()
      ensures r != NIL ==> IsSeatAt(arena, r) && SeatAt(arena, r).trader == trader
      ensures r == NIL <==> forall i :: IsSeatAt(arena, i) ==> SeatAt(arena, i).trader != trader
    {
      NilIsNoBlock(numBytesAllocated);
      SeatsAreBlocks(Data());
      match FindSeat(arena, seats, trader)
      case None => NIL
      case Some(i) => i
    }

    /**
     * `get_tree_indexes` (the best indexes): the best bid and best ask of a tree, NIL for an
     * empty side. The best bid has the highest rate on its side, the best ask the lowest.
     */
    function GetTreeIndexes(useATree: bool): (r: (nat, nat))
      reads this
      requires Valid()
      ensures r.0 == NIL <==> (forall i :: !OnSide(arena, i, useATree, true))
      ensures r.1 == NIL <==> (forall i :: !OnSide(arena, i, useATree, false))
      ensures r.0 != NIL ==> OnSide(arena, r.0, useATree, true)
      ensures r.0 != NIL ==> forall i :: OnSide(arena, i, useATree, true) ==> OrderAt(arena, i).rateBps <= OrderAt(arena, r.0).rateBps
      ensures r.1 != NIL ==> OnSide(arena, r.1, useATree, false)
      ensures r.1 != NIL ==> forall i :: OnSide(arena, i, useATree, false) ==> OrderAt(arena, i).rateBps >= OrderAt(arena, r.1).rateBps
    {
      HeadIsBest(Data(), useATree, true);
      HeadIsBest(Data(), useATree, false);
      (BestIndex(books.Get(useATree, true)), BestIndex(books.Get(useATree, false)))
    }

    /**
     * Replaces the data region, leaving the sequence numbers alone. The methods use it to write
     * the region a pure function computed, and `PlaceOrder` uses it to put back the region saved
     * on entry, which stands for the runtime reverting the accounts of a failed instruction.
     */
    method SetData(l: Layout)
      modifies this
      ensures Data() == l
      ensures baseASequenceNumber == old(baseASequenceNumber) && baseBSequenceNumber == old(baseBSequenceNumber)
    {
      numBytesAllocated, freeList, arena, seats, books := l.numBytesAllocated, l.freeList, l.arena, l.seats, l.books;
    }

    /**
     * `market_expand`: the block at the old size goes on the free-list head and the size grows by
     * one block. The u32 size overflowing panics.
     */
    method MarketExpand() returns (r: Outcome)
      requires Valid()
      modifies this
      ensures Valid()
      ensures r.Pass? <==> old(numBytesAllocated) + MARKET_BLOCK_SIZE < U32_LIMIT
      ensures r.Pass? ==> Data() == old(Data()).Expand() && FreeListHead() == old(numBytesAllocated)
      ensures r.Fail? ==> r.error == Panic && unchanged(this)
      ensures baseASequenceNumber == old(baseASequenceNumber) && baseBSequenceNumber == old(baseBSequenceNumber)
    {
      if numBytesAllocated + MARKET_BLOCK_SIZE >= U32_LIMIT {
        return Fail(Panic);
      }
      ExpandValid(Data());
      Release(numBytesAllocated);
      numBytesAllocated := numBytesAllocated + MARKET_BLOCK_SIZE;
      r := Pass;
    }

    /**
     * `get_free_address_on_market_fixed` (and its seat, bid and ask variants): pops the free-list
     * head. Popping an empty free list panics.
     */
    method Allocate() returns (r: Result<nat>)
      modifies this
      ensures old(freeList) == [] ==> r == Err(Panic) && unchanged(this)
      ensures old(freeList) != [] ==> r == Ok(old(freeList)[0]) && freeList == old(freeList)[1..]
      ensures arena == old(arena) && seats == old(seats) && books == old(books)
      ensures numBytesAllocated == old(numBytesAllocated)
      ensures baseASequenceNumber == old(baseASequenceNumber) && baseBSequenceNumber == old(baseBSequenceNumber)
    {
      if freeList == [] {
        return Err(Panic);
      }
      r := Ok(freeList[0]);
      freeList := freeList[1..];
    }

    /**
     * `release_address_on_market_fixed` (and its variants): the block becomes a free-list node
     * and the new head.
     */
    method Release(i: nat)
      modifies this
      ensures freeList == [i] + old(freeList) && FreeListHead() == i
      ensures arena == old(arena)[i := FreeBlock]
      ensures seats == old(seats) && books == old(books) && numBytesAllocated == old(numBytesAllocated)
      ensures baseASequenceNumber == old(baseASequenceNumber) && baseBSequenceNumber == old(baseBSequenceNumber)
    {
      freeList := [i] + freeList;
      arena := arena[i := FreeBlock];
    }

    /**
     * `claim_seat`: the free-list head becomes an empty seat for the trader, who can then be
     * found by `get_trader_index`. A trader with a seat fails with `AlreadyClaimedSeat`; an
     * empty free list panics (the block popped before the lookup is reverted with the failure).
     */
    method ClaimSeat(trader: Pubkey) returns (r: Outcome)
      requires Valid()
      modifies this
      ensures Valid()
      ensures old(freeList) == [] ==> r == Fail(Panic)
      ensures old(freeList) != [] && old(GetTraderIndex(trader)) != NIL ==> r == Fail(Nix(AlreadyClaimedSeat))
      ensures r.Pass? <==> old(freeList) != [] && old(GetTraderIndex(trader)) == NIL
      ensures r.Fail? ==> unchanged(this)
      ensures r.Pass? ==> Data() == old(Data()).Claim(trader) && GetTraderIndex(trader) == old(freeList)[0]
      ensures r.Pass? ==> SeatAt(arena, GetTraderIndex(trader)) == NewEmptySeat(trader)
      ensures baseASequenceNumber == old(baseASequenceNumber) && baseBSequenceNumber == old(baseBSequenceNumber)
    {
      if freeList == [] {
        return Fail(Panic);
      }
      if GetTraderIndex(trader) != NIL {
        return Fail(Nix(AlreadyClaimedSeat));
      }
      ghost var before := Data();
      ClaimValid(before, trader);
      var slot := Allocate();
      arena := arena[slot.value := SeatBlock(NewEmptySeat(trader))];
      seats := seats + [slot.value];
      assert Data() == before.Claim(trader);
      r := Pass;
    }

    /**
     * `update_balance`: exactly one of the seat's two withdrawable balances moves, as
     * `UpdatedSeat` says; a decrease below the balance fails with `InsufficientFunds` and changes
     * nothing.
     */
    method UpdateBalance(traderIndex: nat, updateBaseA: bool, isIncrease: bool, shares: I80F48) returns (r: Outcome)
      requires Valid() && IsSeatAt(arena, traderIndex)
      modifies this
      ensures Valid() && IsSeatAt(arena, traderIndex)
      ensures var u := UpdatedSeat(old(SeatAt(arena, traderIndex)), updateBaseA, isIncrease, shares);
              (r.Pass? <==> u.Ok?)
              && (r.Fail? ==> r.error == u.error && unchanged(this))
              && (r.Pass? ==> Data() == old(Data()).WithSeat(traderIndex, u.value))
      ensures baseASequenceNumber == old(baseASequenceNumber) && baseBSequenceNumber == old(baseBSequenceNumber)
    {
      var u := UpdatedSeat(SeatAt(arena, traderIndex), updateBaseA, isIncrease, shares);
      if u.Err? {
        return Fail(u.error);
      }
      WithSeatValid(Data(), traderIndex, u.value);
      arena := arena[traderIndex := SeatBlock(u.value)];
      r := Pass;
    }

    /**
     * `deposit`: credits the trader's seat on the chosen base. A trader without a seat (NIL)
     * fails with `InvalidDepositAccounts`; a balance leaving the I80F48 range panics.
     */
    method Deposit(traderIndex: nat, assetShares: I80F48, updateBaseA: bool) returns (r: Outcome)
      requires Valid() && (traderIndex == NIL || IsSeatAt(arena, traderIndex))
      modifies this
      ensures Valid()
      ensures traderIndex == NIL ==> r == Fail(Nix(InvalidDepositAccounts))
      ensures traderIndex != NIL ==>
        var u := UpdatedSeat(old(SeatAt(arena, traderIndex)), updateBaseA, true, assetShares);
        (r.Pass? <==> u.Ok?) && (r.Pass? ==> Data() == old(Data()).WithSeat(traderIndex, u.value))
      ensures r.Fail? ==> unchanged(this)
      ensures baseASequenceNumber == old(baseASequenceNumber) && baseBSequenceNumber == old(baseBSequenceNumber)
    {
      if traderIndex == NIL {
        return Fail(Nix(InvalidDepositAccounts));
      }
      r := UpdateBalance(traderIndex, updateBaseA, true, assetShares);
    }

    /**
     * `remove_order_from_tree_and_free`: the order leaves its bookside, which keeps the others
     * in order, and its block goes on the free-list head.
     */
    method RemoveOrderFromTreeAndFree(useATree: bool, i: nat, isBid: bool)
      requires Valid() && i in books.Get(useATree, isBid)
      modifies this
      ensures Valid()
      ensures Data() == old(Data()).RemoveOrder(i, useATree, isBid)
      ensures i !in books.Get(useATree, isBid) && FreeListHead() == i
      ensures baseASequenceNumber == old(baseASequenceNumber) && baseBSequenceNumber == old(baseBSequenceNumber)
    {
      RemoveOrderValid(Data(), i, useATree, isBid);
      RemoveOrderFromTree(useATree, i, isBid);
      Release(i);
    }

    /** `remove_order_from_tree`: only the one bookside changes. */
    method RemoveOrderFromTree(useATree: bool, i: nat, isBid: bool)
      modifies this
      ensures books == old(books).With(useATree, isBid, Without(old(books).Get(useATree, isBid), i))
      ensures arena == old(arena) && freeList == old(freeList) && seats == old(seats)
      ensures numBytesAllocated == old(numBytesAllocated)
      ensures baseASequenceNumber == old(baseASequenceNumber) && baseBSequenceNumber == old(baseBSequenceNumber)
    {
      books := books.With(useATree, isBid, Without(books.Get(useATree, isBid), i));
    }

    /**
     * `insert_order_into_tree` with `set_payload_order`: an allocated block receives the order,
     * which joins the named bookside behind every order ranked at least as high.
     */
    method InsertOrderIntoTree(useATree: bool, isBid: bool, slot: nat, o: RestingOrder)
      modifies this
      ensures arena == old(arena)[slot := OrderBlock(o)]
      ensures books == old(books).With(useATree, isBid, InsertByRank(arena, old(books).Get(useATree, isBid), slot))
      ensures freeList == old(freeList) && seats == old(seats) && numBytesAllocated == old(numBytesAllocated)
      ensures baseASequenceNumber == old(baseASequenceNumber) && baseBSequenceNumber == old(baseBSequenceNumber)
    {
      arena := arena[slot := OrderBlock(o)];
      books := books.With(useATree, isBid, InsertByRank(arena, books.Get(useATree, isBid), slot));
    }

    /**
     * Rests an order on the bookside of its own tree and side: the free-list head is allocated
     * and receives it. An empty free list panics.
     */
    method RestOrder(o: RestingOrder) returns (r: Result<nat>)
      requires Valid() && IsSeatAt(arena, o.traderIndex)
      modifies this
      ensures Valid()
      ensures old(freeList) == [] ==> r == Err(Panic) && unchanged(this)
      ensures old(freeList) != [] ==> r == Ok(old(freeList)[0]) && Data() == old(Data()).Rest(o)
      ensures r.Ok? ==> OrderAt(arena, r.value) == o && r.value in books.Get(o.isATree, o.isBid)
      ensures baseASequenceNumber == old(baseASequenceNumber) && baseBSequenceNumber == old(baseBSequenceNumber)
    {
      ghost var before := Data();
      if freeList == [] {
        return Err(Panic);
      }
      RestValid(before, o);
      r := Allocate();
      InsertOrderIntoTree(o.isATree, o.isBid, r.value, o);
      assert Data() == before.Rest(o);
    }

    /**
     * `remove_and_update_balances`: drops an order as `DropOrder` says. For a global ask the gas
     * prepayment goes back through `remove_from_global` on the base global accounts first. A
     * failure changes nothing in the market.
     */
    method RemoveAndUpdateBalances(useATree: bool, i: nat, baseGlobal: Option<GlobalTradeAccounts>)
      returns (r: Outcome)
      requires Valid() && i in books.Get(useATree, OrderAt(arena, i).isBid)
      modifies this
      modifies if baseGlobal.Some? then {baseGlobal.value.global} else {}
      modifies if baseGlobal.Some? && baseGlobal.value.gasReceiver.Some? then {baseGlobal.value.gasReceiver.value} else {}
      ensures Valid()
      ensures var d := DropOrder(old(Data()), useATree, i);
              (r.Pass? ==> d.Ok? && Data() == d.value)
              && (d.Err? ==> r == Fail(d.error))
              && (r.Fail? ==> unchanged(this))
      ensures var o := old(OrderAt(arena, i));
              !(o.IsGlobal() && !o.isBid) ==> (r.Pass? <==> DropOrder(old(Data()), useATree, i).Ok?)
      ensures var o := old(OrderAt(arena, i));
              r.Fail? || !(o.IsGlobal() && !o.isBid) ==>
                (baseGlobal.Some? ==> unchanged(baseGlobal.value.global))
                && (baseGlobal.Some? && baseGlobal.value.gasReceiver.Some? ==> unchanged(baseGlobal.value.gasReceiver.value))
      ensures var o := old(OrderAt(arena, i));
              o.IsGlobal() && !o.isBid && baseGlobal.Some? && baseGlobal.value.hasSystemProgram && r.Pass? ==>
                baseGlobal.value.global.lamports == old(baseGlobal.value.global.lamports) - GAS_DEPOSIT_LAMPORTS
      ensures baseASequenceNumber == old(baseASequenceNumber) && baseBSequenceNumber == old(baseBSequenceNumber)
    {
      var o := OrderAt(arena, i);
      var d := DropOrder(Data(), useATree, i);
      if d.Err? {
        return Fail(d.error);
      }
      DropOrderKeepsValid(Data(), useATree, i);
      if o.IsGlobal() {
        r := RemoveFromGlobal(baseGlobal);
        if r.Fail? {
          return;
        }
      }
      SetData(d.value);
      r := Pass;
    }

    /**
     * `cancel_order_by_index`: a global bid cannot be cancelled (`InvalidGlobalBidOrder`); a
     * global ask returns its gas prepayment to the payer through `remove_from_global_core`; a
     * bid's collateral becomes a new loan of the bidder on the lending pool, in a block the
     * loan ledger grows by first (at the payer's expense, so a missing payer panics); an ask's
     * collateral goes back to its owner's seat. The order then leaves its bookside and its
     * block is freed, so the data region ends as `DropOrder` says. A failure leaves the market,
     * the ledger, the global account and the payer unchanged: a ledger grown before the cap
     * check fails is put back, as the runtime reverts the failed instruction.
     */
    method CancelOrderByIndex(useATree: bool, i: nat, baseGlobal: GlobalAccount, payer: Option<Wallet>,
                              hasSystemProgram: bool, loans: MarketLoans, expandCpi: Outcome,
                              nowTimestamp: I64, nowSlot: U32)
      returns (r: Outcome)
      requires Valid() && loans.Valid() && i in books.Get(useATree, OrderAt(arena, i).isBid)
      modifies this, baseGlobal, (if payer.Some? then {payer.value} else {}), loans
      ensures Valid() && loans.Valid()
      ensures r.Pass? ==> DropOrder(old(Data()), useATree, i).Ok? && Data() == DropOrder(old(Data()), useATree, i).value
      ensures r.Fail? ==> unchanged(this) && loans.State() == old(loans.State()) && unchanged(baseGlobal)
                          && (payer.Some? ==> unchanged(payer.value))
      ensures baseASequenceNumber == old(baseASequenceNumber) && baseBSequenceNumber == old(baseBSequenceNumber)
      ensures var o := old(OrderAt(arena, i));
              o.IsGlobal() && o.isBid ==> r == Fail(Nix(InvalidGlobalBidOrder))
      ensures var o := old(OrderAt(arena, i));
              !(o.IsGlobal() && !o.isBid) ==> unchanged(baseGlobal) && (payer.Some? ==> unchanged(payer.value))
      ensures var o := old(OrderAt(arena, i));
              o.IsGlobal() && !o.isBid && r.Pass? && hasSystemProgram ==>
                payer.Some? && baseGlobal.lamports == old(baseGlobal.lamports) - GAS_DEPOSIT_LAMPORTS
                && payer.value.lamports == old(payer.value.lamports) + GAS_DEPOSIT_LAMPORTS
      ensures var o := old(OrderAt(arena, i));
              !(!o.IsGlobal() && o.isBid) ==> unchanged(loans)
      ensures var o := old(OrderAt(arena, i));
              !o.IsGlobal() && o.isBid ==>
                (payer.None? ==> r == Fail(Panic))
                && (payer.Some? && expandCpi.Fail? ==> r == Fail(expandCpi.error))
                && (payer.Some? && expandCpi.Pass? ==>
                      (r.Pass? <==> old(loans.numActiveLoans) < MAX_ACTIVE_LOANS)
                      && (r.Fail? ==> r == Fail(Nix(MaxActiveLoansExceeded))))
      ensures var o := old(OrderAt(arena, i));
              !o.IsGlobal() && o.isBid && r.Pass? ==>
                loans.loans == old(loans.loans)[old(loans.numBytesAllocated) :=
                  NewEmptyLoan(useATree, 0, o.traderIndex, false, o.collateralShares, o.liabilityShares, 0, nowTimestamp, nowSlot)]
                && loans.numActiveLoans == old(loans.numActiveLoans) + 1
    {
      var o := OrderAt(arena, i);
      var d := DropOrder(Data(), useATree, i);
      if d.Err? && o.IsGlobal() {
        return Fail(d.error);
      }
      if o.IsGlobal() {
        r := RemoveFromGlobalCore(baseGlobal, payer, hasSystemProgram);
        if r.Fail? {
          return;
        }
      } else if o.isBid {
        if payer.None? {
          return Fail(Panic);
        }
        var loan := NewEmptyLoan(useATree, 0, o.traderIndex, false, o.collateralShares, o.liabilityShares, 0, nowTimestamp, nowSlot);
        r := AddLoanOrRevert(loans, loan, expandCpi);
        if r.Fail? {
          return;
        }
      } else {
        r := UpdateBalance(o.traderIndex, AskRefundSide(useATree), true, o.collateralShares);
        if r.Fail? {
          return;
        }
      }
      DropOrderKeepsValid(old(Data()), useATree, i);
      SetData(d.value);
      r := Pass;
    }

    /**
     * One pass of `cancel_order` over a bookside: every order carrying the sequence number must
     * belong to the trader, and at most one may be found over both passes, or the cancel fails
     * with `InvalidCancel`. The result is the one found so far.
     */
    method ScanSide(s: seq<nat>, traderIndex: nat, sequenceNumber: U64, found: nat) returns (r: Result<nat>)
      requires NIL !in s
      ensures var m := Matches(arena, s, sequenceNumber);
              (r.Ok? <==> Owned(arena, m, traderIndex) && |m| + (if found == NIL then 0 else 1) <= 1)
              && (r.Err? ==> r.error == Nix(InvalidCancel))
              && (r.Ok? ==> r.value == if m == [] then found else m[0])
    {
      var index := found;
      var k := 0;
      ghost var m: seq<nat> := [];
      while k < |s|
        invariant k <= |s|
        invariant m == Matches(arena, s[..k], sequenceNumber)
        invariant Owned(arena, m, traderIndex)
        invariant |m| + (if found == NIL then 0 else 1) <= 1
        invariant index == if m == [] then found else m[0]
      {
        if m != [] {
          assert m[0] in s[..k];
        }
        MatchesStep(arena, s, k, sequenceNumber);
        var o := OrderAt(arena, s[k]);
        if o.sequenceNumber == sequenceNumber {
          if o.traderIndex != traderIndex || index != NIL {
            ScanFails(arena, s, k, sequenceNumber, traderIndex, found);
            return Err(Nix(InvalidCancel));
          }
          index := s[k];
          m := m + [s[k]];
        }
        k := k + 1;
      }
      assert s[..k] == s;
      r := Ok(index);
    }

    /**
     * `cancel_order`: scans the tree's asks, then its bids, for the order with the sequence
     * number. Exactly one such order, belonging to the trader, is cancelled by index (the
     * payer receives any gas refund and funds any loan-ledger growth); anything else (none,
     * several, or one of another trader) fails with `InvalidCancel` and changes nothing.
     */
    method CancelOrder(useATree: bool, traderIndex: nat, sequenceNumber: U64, baseGlobal: GlobalAccount,
                       payer: Wallet, loans: MarketLoans, expandCpi: Outcome, nowTimestamp: I64, nowSlot: U32)
      returns (r: Outcome)
      requires Valid() && loans.Valid()
      modifies this, baseGlobal, payer, loans
      ensures Valid() && loans.Valid()
      ensures var m := Matches(old(arena), old(books.Get(useATree, false)), sequenceNumber)
                       + Matches(old(arena), old(books.Get(useATree, true)), sequenceNumber);
              (!(|m| == 1 && Owned(old(arena), m, traderIndex)) ==> r == Fail(Nix(InvalidCancel)))
              && (r.Pass? ==> |m| == 1 && Owned(old(arena), m, traderIndex)
                              && DropOrder(old(Data()), useATree, m[0]).Ok?
                              && Data() == DropOrder(old(Data()), useATree, m[0]).value)
      ensures r.Fail? ==> unchanged(this) && loans.State() == old(loans.State()) && unchanged(baseGlobal)
                          && unchanged(payer)
      ensures baseASequenceNumber == old(baseASequenceNumber) && baseBSequenceNumber == old(baseBSequenceNumber)
    {
      var asks := books.Get(useATree, false);
      var bids := books.Get(useATree, true);
      ghost var ma := Matches(arena, asks, sequenceNumber);
      ghost var mb := Matches(arena, bids, sequenceNumber);
      NilNotInBooks(Data(), useATree, false);
      NilNotInBooks(Data(), useATree, true);
      var fromAsks := ScanSide(asks, traderIndex, sequenceNumber, NIL);
      if fromAsks.Err? {
        OwnedConcat(arena, ma, mb, traderIndex);
        return Fail(Nix(InvalidCancel));
      }
      if ma != [] {
        assert ma[0] in asks;
      }
      var found := ScanSide(bids, traderIndex, sequenceNumber, fromAsks.value);
      OwnedConcat(arena, ma, mb, traderIndex);
      if found.Err? {
        return Fail(Nix(InvalidCancel));
      }
      var index := found.value;
      if index == NIL {
        return Fail(Nix(InvalidCancel));
      }
      if mb != [] {
        assert index == mb[0] && index in bids;
        BookEntryIsIndex(Data(), useATree, true, index);
      } else {
        assert index == ma[0] && index in asks;
        BookEntryIsIndex(Data(), useATree, false, index);
      }
      r := CancelOrderByIndex(useATree, index, baseGlobal, Some(payer), true, loans, expandCpi, nowTimestamp, nowSlot);
    }

    /**
     * The trade with the best opposite order once its base is backed: the totals grow by the
     * fill (`AddFill`), the data region changes as `TradeLayout` says, a fully filled global
     * maker first returns its gas prepayment (through the base global accounts when the taker
     * bids, the quote ones when it asks), and a fully filled maker becomes a loan at its own
     * rate (`FillLoan`), while a partly filled one leaves nothing more to take.
     */
    method TradeHead(args: OrderArgs, env: Env, full: bool, traded: U64, quote: U64, makerIsGlobal: bool,
                     baseGlobal: Option<GlobalTradeAccounts>, quoteGlobal: Option<GlobalTradeAccounts>, tally: Tally)
      returns (r: Result<Tally>)
      requires Valid() && IsSeatAt(arena, args.traderIndex) && TallyOk(args, tally)
      requires books.Get(args.useATree, !args.isBid) != []
      requires Crosses(args.isBid, args.rateBps, OrderAt(arena, books.Get(args.useATree, !args.isBid)[0]).rateBps)
      requires OrderTypeCanTake(args.orderType)
      requires traded <= tally.remaining && (!full ==> traded == tally.remaining)
      modifies this
      modifies if baseGlobal.Some? then {baseGlobal.value.global} else {}
      modifies if baseGlobal.Some? && baseGlobal.value.gasReceiver.Some? then {baseGlobal.value.gasReceiver.value} else {}
      modifies if quoteGlobal.Some? then {quoteGlobal.value.global} else {}
      modifies if quoteGlobal.Some? && quoteGlobal.value.gasReceiver.Some? then {quoteGlobal.value.gasReceiver.value} else {}
      ensures baseASequenceNumber == old(baseASequenceNumber) && baseBSequenceNumber == old(baseBSequenceNumber)
      ensures r.Ok? ==> Valid() && IsSeatAt(arena, args.traderIndex) && TallyOk(args, r.value)
      ensures r.Ok? && full ==>
                books.Get(args.useATree, !args.isBid) == old(books.Get(args.useATree, !args.isBid))[1..]
      ensures r.Ok? ==> Trade(old(Data()), args, env, tally, full, traded, quote, makerIsGlobal) == Ok((Data(), r.value))
    {
      var d := Data();
      var next :- Trade(d, args, env, tally, full, traded, quote, makerIsGlobal);
      TradeValid(d, args, env, tally, full, traded, quote, makerIsGlobal);
      if full && makerIsGlobal {
        var refund := RemoveFromGlobal(if args.isBid then baseGlobal else quoteGlobal);
        if refund.Fail? {
          return Err(refund.error);
        }
      }
      SetData(next.0);
      r := Ok(next.1);
    }

    /**
     * One step of `place_order`'s matching loop against the best opposite order, which is live
     * and crosses the taker's limit. The fill is the smaller of what the taker still wants and
     * what the maker holds, priced in quote collateral by the oracle formula. A global maker's
     * base must first come out of its global account; when it cannot, the maker is dropped as
     * `remove_and_update_balances` does (`Unbacked`). Otherwise the two trade (`TradeHead`).
     */
    method FillHead(args: OrderArgs, env: Env, host: Host, bufferF: I80F48,
                    baseGlobal: Option<GlobalTradeAccounts>, quoteGlobal: Option<GlobalTradeAccounts>, tally: Tally)
      returns (r: Result<(Tally, Fill)>)
      requires Valid() && IsSeatAt(arena, args.traderIndex) && TallyOk(args, tally) && tally.remaining > 0
      requires books.Get(args.useATree, !args.isBid) != []
      requires Crosses(args.isBid, args.rateBps, OrderAt(arena, books.Get(args.useATree, !args.isBid)[0]).rateBps)
      requires OrderTypeCanTake(args.orderType)
      modifies this
      modifies if baseGlobal.Some? then {baseGlobal.value.global} else {}
      modifies if baseGlobal.Some? && baseGlobal.value.gasReceiver.Some? then {baseGlobal.value.gasReceiver.value} else {}
      modifies if quoteGlobal.Some? then {quoteGlobal.value.global} else {}
      modifies if quoteGlobal.Some? && quoteGlobal.value.gasReceiver.Some? then {quoteGlobal.value.gasReceiver.value} else {}
      ensures baseASequenceNumber == old(baseASequenceNumber) && baseBSequenceNumber == old(baseBSequenceNumber)
      ensures r.Ok? ==> Valid() && IsSeatAt(arena, args.traderIndex) && TallyOk(args, r.value.0)
      ensures r.Ok? && (r.value.1.Unbacked? || r.value.1.full) ==>
                books.Get(args.useATree, !args.isBid) == old(books.Get(args.useATree, !args.isBid))[1..]
      ensures var head := old(books.Get(args.useATree, !args.isBid)[0]);
              r.Ok? && r.value.1.Unbacked? ==>
                r.value.0 == tally && old(OrderAt(arena, head)).IsGlobal()
                && DropOrder(old(Data()), args.useATree, head) == Ok(Data())
      ensures var head := old(books.Get(args.useATree, !args.isBid)[0]);
              var maker := old(OrderAt(arena, head));
              r.Ok? && r.value.1.Fill? ==>
                var f := r.value.1;
                NumBaseAtoms(maker, env.baseBank).Ok?
                && (f.traded, f.full) == FillSize(tally.remaining, NumBaseAtoms(maker, env.baseBank).value)
                && RequiredQuoteCollateral(env.baseBank, env.quoteBank, env.basePrice, env.quotePrice, bufferF, f.traded) == Ok(f.quote)
                && Trade(old(Data()), args, env, tally, f.full, f.traded, f.quote, maker.IsGlobal()) == Ok((Data(), r.value.0))
    {
      var d := Data();
      var head := d.books.Get(args.useATree, !args.isBid)[0];
      var maker := OrderAt(d.arena, head);
      BookEntryIsIndex(d, args.useATree, !args.isBid, head);
      var makerBaseAtoms :- NumBaseAtoms(maker, env.baseBank);
      var (traded, full) := FillSize(tally.remaining, makerBaseAtoms);
      var quote :- RequiredQuoteCollateral(env.baseBank, env.quoteBank, env.basePrice, env.quotePrice, bufferF, traded);
      if maker.IsGlobal() {
        var backed :- BackGlobalMaker(args.useATree, !args.isBid, args.traderIndex, traded, host, baseGlobal);
        if !backed {
          return Ok((tally, Unbacked));
        }
      }
      var next :- TradeHead(args, env, full, traded, quote, maker.IsGlobal(), baseGlobal, quoteGlobal, tally);
      r := Ok((next, Fill(traded, quote, full)));
    }

    /**
     * A global maker's base must come out of its owner's global deposit before it trades. When
     * the deposit cannot back the fill, the maker is dropped (`remove_and_update_balances`) and
     * the result is `false`; when it can, the market is untouched and the result is `true`.
     */
    method BackGlobalMaker(useATree: bool, isBid: bool, seat: nat, traded: U64, host: Host,
                           baseGlobal: Option<GlobalTradeAccounts>)
      returns (r: Result<bool>)
      requires Valid() && books.Get(useATree, isBid) != [] && IsSeatAt(arena, seat)
      modifies this
      modifies if baseGlobal.Some? then {baseGlobal.value.global} else {}
      modifies if baseGlobal.Some? && baseGlobal.value.gasReceiver.Some? then {baseGlobal.value.gasReceiver.value} else {}
      ensures baseASequenceNumber == old(baseASequenceNumber) && baseBSequenceNumber == old(baseBSequenceNumber)
      ensures r == Ok(true) ==> unchanged(this)
      ensures var head := old(books.Get(useATree, isBid)[0]);
              r == Ok(false) ==>
                Valid() && IsSeatAt(arena, seat)
                && DropOrder(old(Data()), useATree, head) == Ok(Data())
                && books.Get(useATree, isBid) == old(books.Get(useATree, isBid))[1..]
    {
      var head := books.Get(useATree, isBid)[0];
      BookEntryIsIndex(Data(), useATree, isBid, head);
      var maker := OrderAt(arena, head);
      var backed :- TryToMoveGlobalTokens(baseGlobal, SeatAt(arena, maker.traderIndex).trader, traded,
                                          host.baseMintHasTransferFee, host.baseMintHasTransferHook, host.globalTransfer);
      if !backed {
        var dropped := DropHead(useATree, isBid, seat, baseGlobal);
        if dropped.Fail? {
          return Err(dropped.error);
        }
      }
      r := Ok(backed);
    }

    /**
     * `remove_and_update_balances` on the best order of a bookside: the order is dropped as
     * `DropOrder` says, the bookside loses its head, and the seats stay where they were.
     */
    method DropHead(useATree: bool, isBid: bool, seat: nat, baseGlobal: Option<GlobalTradeAccounts>)
      returns (r: Outcome)
      requires Valid() && books.Get(useATree, isBid) != [] && IsSeatAt(arena, seat)
      modifies this
      modifies if baseGlobal.Some? then {baseGlobal.value.global} else {}
      modifies if baseGlobal.Some? && baseGlobal.value.gasReceiver.Some? then {baseGlobal.value.gasReceiver.value} else {}
      ensures Valid()
      ensures baseASequenceNumber == old(baseASequenceNumber) && baseBSequenceNumber == old(baseBSequenceNumber)
      ensures var head := old(books.Get(useATree, isBid)[0]);
              r.Pass? ==>
                DropOrder(old(Data()), useATree, head) == Ok(Data())
                && books.Get(useATree, isBid) == old(books.Get(useATree, isBid))[1..] && IsSeatAt(arena, seat)
    {
      var d := Data();
      var head := d.books.Get(useATree, isBid)[0];
      BookEntryIsIndex(d, useATree, isBid, head);
      r := RemoveAndUpdateBalances(useATree, head, baseGlobal);
      if r.Pass? {
        DropHeadKeepsSeat(d, useATree, isBid, seat);
      }
    }

    /**
     * A lapsed best opposite order (expired, or with no collateral left) is dropped as
     * `remove_and_update_balances` does; a bid one first becomes a loan of its owner on the
     * lending pool, at rate 0 and with the order's shares.
     */
    method DropLapsed(args: OrderArgs, env: Env, baseGlobal: Option<GlobalTradeAccounts>, tally: Tally)
      returns (r: Result<Tally>)
      requires Valid() && IsSeatAt(arena, args.traderIndex) && TallyOk(args, tally)
      requires books.Get(args.useATree, !args.isBid) != []
      modifies this
      modifies if baseGlobal.Some? then {baseGlobal.value.global} else {}
      modifies if baseGlobal.Some? && baseGlobal.value.gasReceiver.Some? then {baseGlobal.value.gasReceiver.value} else {}
      ensures baseASequenceNumber == old(baseASequenceNumber) && baseBSequenceNumber == old(baseBSequenceNumber)
      ensures r.Ok? ==> Valid() && IsSeatAt(arena, args.traderIndex) && TallyOk(args, r.value)
      ensures r.Ok? ==> books.Get(args.useATree, !args.isBid) == old(books.Get(args.useATree, !args.isBid))[1..]
      ensures var head := old(books.Get(args.useATree, !args.isBid)[0]);
              var maker := old(OrderAt(arena, head));
              r.Ok? ==>
                DropOrder(old(Data()), args.useATree, head) == Ok(Data())
                && head < U32_LIMIT
                && r.value == tally.(loans := tally.loans +
                     if maker.isBid then [NewEmptyLoan(args.useATree, 0, head, maker.IsGlobal(), maker.collateralShares,
                                                       maker.liabilityShares, 0, env.nowTimestamp, env.nowSlot)]
                     else [])
    {
      var d := Data();
      var head := d.books.Get(args.useATree, !args.isBid)[0];
      var maker := OrderAt(d.arena, head);
      BookEntryIsIndex(d, args.useATree, !args.isBid, head);
      var loans := tally.loans;
      if maker.isBid {
        loans := loans + [NewEmptyLoan(args.useATree, 0, head, maker.IsGlobal(), maker.collateralShares,
                                       maker.liabilityShares, 0, env.nowTimestamp, env.nowSlot)];
      }
      var dropped := DropHead(args.useATree, !args.isBid, args.traderIndex, baseGlobal);
      if dropped.Fail? {
        return Err(dropped.error);
      }
      r := Ok(tally.(loans := loans));
    }

    /**
     * The matching loop meeting a live maker at the head of the opposite bookside: a maker that
     * does not cross the taker's limit ends matching, and then no opposite order crosses; a
     * crossing one stops a taker that may not take with `PostOnlyCrosses`, and otherwise the two
     * trade (`FillHead`). The flag says whether matching goes on, which it does only once the
     * head has left its bookside; a partial fill ends it with the taker filled.
     */
    method MeetHead(args: OrderArgs, env: Env, host: Host, bufferF: I80F48,
                    baseGlobal: Option<GlobalTradeAccounts>, quoteGlobal: Option<GlobalTradeAccounts>, tally: Tally)
      returns (r: Result<(Tally, bool)>)
      requires Valid() && IsSeatAt(arena, args.traderIndex) && TallyOk(args, tally) && tally.remaining > 0
      requires books.Get(args.useATree, !args.isBid) != []
      modifies this
      modifies if baseGlobal.Some? then {baseGlobal.value.global} else {}
      modifies if baseGlobal.Some? && baseGlobal.value.gasReceiver.Some? then {baseGlobal.value.gasReceiver.value} else {}
      modifies if quoteGlobal.Some? then {quoteGlobal.value.global} else {}
      modifies if quoteGlobal.Some? && quoteGlobal.value.gasReceiver.Some? then {quoteGlobal.value.gasReceiver.value} else {}
      ensures baseASequenceNumber == old(baseASequenceNumber) && baseBSequenceNumber == old(baseBSequenceNumber)
      ensures r.Ok? ==> Valid() && IsSeatAt(arena, args.traderIndex) && TallyOk(args, r.value.0)
      ensures r.Ok? && r.value.1 ==>
                books.Get(args.useATree, !args.isBid) == old(books.Get(args.useATree, !args.isBid))[1..]
      ensures r.Ok? && !r.value.1 ==>
                r.value.0.remaining == 0 || NoneCross(Data(), args.useATree, args.isBid, args.rateBps)
      ensures var maker := old(OrderAt(arena, books.Get(args.useATree, !args.isBid)[0]));
              !OrderTypeCanTake(args.orderType) ==>
                (Crosses(args.isBid, args.rateBps, maker.rateBps) <==> r == Err(Nix(PostOnlyCrosses)))
                && (r.Ok? ==> !r.value.1 && r.value.0 == tally && unchanged(this))
    {
      var maker := OrderAt(arena, books.Get(args.useATree, !args.isBid)[0]);
      if !Crosses(args.isBid, args.rateBps, maker.rateBps) {
        NoCrossBeyondHead(Data(), args.useATree, args.isBid, args.rateBps);
        return Ok((tally, false));
      }
      var canTake := AssertCanTake(args.orderType);
      if canTake.Fail? {
        return Err(canTake.error);
      }
      var step :- FillHead(args, env, host, bufferF, baseGlobal, quoteGlobal, tally);
      r := Ok((step.0, step.1.Unbacked? || step.1.full));
    }

    /**
     * One turn of the matching loop: a lapsed head is dropped (`DropLapsed`), a live one is met
     * (`MeetHead`). The flag says whether matching goes on, which it does only once the head has
     * left its bookside. For a taker that may not take, only lapsed orders ever leave the
     * bookside (`OnlyLapsedGone` over the bookside `book0` and arena `arena0` it started from),
     * and a live crossing head stops it with `PostOnlyCrosses`.
     */
    method MatchStep(args: OrderArgs, env: Env, host: Host, bufferF: I80F48,
                     baseGlobal: Option<GlobalTradeAccounts>, quoteGlobal: Option<GlobalTradeAccounts>, tally: Tally,
                     ghost book0: seq<nat>, ghost arena0: Arena)
      returns (r: Result<(Tally, bool)>)
      requires Valid() && IsSeatAt(arena, args.traderIndex) && TallyOk(args, tally) && tally.remaining > 0
      requires books.Get(args.useATree, !args.isBid) != []
      modifies this
      modifies if baseGlobal.Some? then {baseGlobal.value.global} else {}
      modifies if baseGlobal.Some? && baseGlobal.value.gasReceiver.Some? then {baseGlobal.value.gasReceiver.value} else {}
      modifies if quoteGlobal.Some? then {quoteGlobal.value.global} else {}
      modifies if quoteGlobal.Some? && quoteGlobal.value.gasReceiver.Some? then {quoteGlobal.value.gasReceiver.value} else {}
      ensures baseASequenceNumber == old(baseASequenceNumber) && baseBSequenceNumber == old(baseBSequenceNumber)
      ensures r.Ok? ==> Valid() && IsSeatAt(arena, args.traderIndex) && TallyOk(args, r.value.0)
      ensures r.Ok? && r.value.1 ==>
                books.Get(args.useATree, !args.isBid) == old(books.Get(args.useATree, !args.isBid))[1..]
      ensures r.Ok? && !r.value.1 ==>
                r.value.0.remaining == 0 || NoneCross(Data(), args.useATree, args.isBid, args.rateBps)
      ensures !OrderTypeCanTake(args.orderType) && r.Ok?
              && OnlyLapsedGone(old(Data()), args.useATree, !args.isBid, book0, arena0, env.nowSlot) ==>
                OnlyLapsedGone(Data(), args.useATree, !args.isBid, book0, arena0, env.nowSlot)
      ensures !OrderTypeCanTake(args.orderType)
              && HeadLiveCrosses(old(Data()), args.useATree, args.isBid, args.rateBps, env.nowSlot) ==>
                r == Err(Nix(PostOnlyCrosses))
    {
      var t, b := args.useATree, !args.isBid;
      if Lapsed(OrderAt(arena, books.Get(t, b)[0]), env.nowSlot) {
        ghost var d := Data();
        var next :- DropLapsed(args, env, baseGlobal, tally);
        if !OrderTypeCanTake(args.orderType) && OnlyLapsedGone(d, t, b, book0, arena0, env.nowSlot) {
          LapsedDropKeepsBook(d, Data(), t, b, book0, arena0, env.nowSlot);
        }
        r := Ok((next, true));
      } else {
        r := MeetHead(args, env, host, bufferF, baseGlobal, quoteGlobal, tally);
      }
    }

    /**
     * `place_order`'s matching loop: while base is still wanted and the opposite bookside is
     * not empty, its best order is looked at. A lapsed maker (expired, or with no collateral)
     * is dropped, a bid one turning into a loan on the lending pool at rate 0; a maker that
     * does not cross the taker's limit ends the loop; a taker that may not take fails with
     * `PostOnlyCrosses`; otherwise the two trade (`FillHead`), and a partial fill ends the loop.
     * On success the taker has either got everything or no opposite order crosses its limit.
     */
    method MatchLoop(args: OrderArgs, env: Env, host: Host, bufferF: I80F48,
                     baseGlobal: Option<GlobalTradeAccounts>, quoteGlobal: Option<GlobalTradeAccounts>)
      returns (r: Result<Tally>)
      requires Valid() && IsSeatAt(arena, args.traderIndex)
      modifies this
      modifies if baseGlobal.Some? then {baseGlobal.value.global} else {}
      modifies if baseGlobal.Some? && baseGlobal.value.gasReceiver.Some? then {baseGlobal.value.gasReceiver.value} else {}
      modifies if quoteGlobal.Some? then {quoteGlobal.value.global} else {}
      modifies if quoteGlobal.Some? && quoteGlobal.value.gasReceiver.Some? then {quoteGlobal.value.gasReceiver.value} else {}
      ensures baseASequenceNumber == old(baseASequenceNumber) && baseBSequenceNumber == old(baseBSequenceNumber)
      ensures r.Ok? ==> Valid() && IsSeatAt(arena, args.traderIndex) && TallyOk(args, r.value)
      ensures r.Ok? ==> r.value.remaining == 0 || NoneCross(Data(), args.useATree, args.isBid, args.rateBps)
      ensures r.Ok? && !OrderTypeCanTake(args.orderType) && args.numBaseAtoms > 0 ==>
                NoLiveCross(old(Data()), args.useATree, args.isBid, args.rateBps, env.nowSlot)
      ensures !OrderTypeCanTake(args.orderType) && args.numBaseAtoms > 0
              && HeadLiveCrosses(old(Data()), args.useATree, args.isBid, args.rateBps, env.nowSlot) ==>
                r == Err(Nix(PostOnlyCrosses))
    {
      var t, b := args.useATree, !args.isBid;
      ghost var d0 := Data();
      ghost var book0, arena0 := books.Get(t, b), arena;
      ghost var makerOnly := !OrderTypeCanTake(args.orderType) && args.numBaseAtoms > 0;
      ghost var blocked := makerOnly && HeadLiveCrosses(Data(), t, args.isBid, args.rateBps, env.nowSlot);
      var tally := Tally(args.numBaseAtoms, 0, 0, 0, 0, []);
      while tally.remaining > 0 && books.Get(t, b) != []
        invariant Valid() && IsSeatAt(arena, args.traderIndex) && TallyOk(args, tally)
        invariant baseASequenceNumber == old(baseASequenceNumber) && baseBSequenceNumber == old(baseBSequenceNumber)
        invariant makerOnly ==> OnlyLapsedGone(Data(), t, b, book0, arena0, env.nowSlot)
        invariant blocked ==> books.Get(t, b) == book0 && arena == arena0
        decreases |books.Get(t, b)|
      {
        var step :- MatchStep(args, env, host, bufferF, baseGlobal, quoteGlobal, tally, book0, arena0);
        tally := step.0;
        if !step.1 {
          break;
        }
      }
      if makerOnly {
        NoLiveCrossFromRemaining(d0, Data(), t, args.isBid, args.rateBps, env.nowSlot);
      }
      r := Ok(tally);
    }

    /** Bumps one tree's order sequence number (`wrapping_add(1)`) and returns the new value. */
    method BumpSequenceNumber(useATree: bool) returns (n: U64)
      modifies this
      ensures n == NextSequenceNumber(old(SequenceNumber(useATree))) && SequenceNumber(useATree) == n
      ensures SequenceNumber(!useATree) == old(SequenceNumber(!useATree))
      ensures Data() == old(Data())
    {
      if useATree {
        baseASequenceNumber := NextSequenceNumber(baseASequenceNumber);
        n := baseASequenceNumber;
      } else {
        baseBSequenceNumber := NextSequenceNumber(baseBSequenceNumber);
        n := baseBSequenceNumber;
      }
    }

    /**
     * `rest_remaining`: the rest of an order becomes a resting order of the trader with the
     * order's own rate, type, tree and side and the given shares and sequence number, in the
     * free-list head's block (none panics). A global ask needs the global accounts
     * (`MissingGlobal`) and is registered with the global account, which may fail; any other
     * order first pays its collateral shares out of the seat balance `should_update_base_a(tree,
     * !is_bid)`. A failure changes nothing.
     */
    method RestRemaining(args: OrderArgs, collateralShares: I80F48, liabilityShares: I80F48, sequenceNumber: U64,
                         baseGlobal: Option<GlobalTradeAccounts>, globalAdd: Outcome)
      returns (r: Result<nat>)
      requires Valid() && IsSeatAt(arena, args.traderIndex)
      modifies this
      ensures Valid() && IsSeatAt(arena, args.traderIndex)
      ensures baseASequenceNumber == old(baseASequenceNumber) && baseBSequenceNumber == old(baseBSequenceNumber)
      ensures r.Err? ==> unchanged(this)
      ensures AssertValidOrderType(args.orderType, args.isBid).Fail? ==> r == Err(AssertValidOrderType(args.orderType, args.isBid).error)
      ensures AssertValidOrderType(args.orderType, args.isBid).Pass? && old(freeList) == [] ==> r == Err(Panic)
      ensures NoneCross(old(Data()), args.useATree, args.isBid, args.rateBps) ==> NoneCross(Data(), args.useATree, args.isBid, args.rateBps)
      ensures args.orderType == Global && baseGlobal.None? && old(freeList) != [] ==> r.Err?
      ensures var o := RestingOrder(collateralShares, liabilityShares, args.rateBps, sequenceNumber, args.traderIndex,
                                    args.lastValidSlot, args.orderType, args.isBid, args.useATree, 0);
              r.Ok? ==>
                r.value == old(freeList)[0] && OrderAt(arena, r.value) == o
                && r.value in books.Get(args.useATree, args.isBid)
                && (o.IsGlobal() ==> baseGlobal.Some? && globalAdd.Pass? && Data() == old(Data()).Rest(o))
                && (!o.IsGlobal() ==>
                      var paid := UpdatedSeat(old(SeatAt(arena, args.traderIndex)), RestDebitSide(args.useATree, args.isBid),
                                              false, collateralShares);
                      paid.Ok? && Data() == old(Data()).WithSeat(args.traderIndex, paid.value).Rest(o))
    {
      var valid := AssertValidOrderType(args.orderType, args.isBid);
      if valid.Fail? {
        return Err(valid.error);
      }
      if freeList == [] {
        return Err(Panic);
      }
      var made := NewOrder(args.rateBps, sequenceNumber, collateralShares, liabilityShares, args.useATree,
                           args.traderIndex, args.lastValidSlot, args.orderType, args.isBid, 0);
      if made.Err? {
        return Err(made.error);
      }
      var o := made.value;
      ghost var before := Data();
      if o.IsGlobal() {
        if baseGlobal.None? {
          return Err(Nix(MissingGlobal));
        }
        if globalAdd.Fail? {
          return Err(globalAdd.error);
        }
      } else {
        var paid := UpdateBalance(args.traderIndex, RestDebitSide(args.useATree, args.isBid), false, collateralShares);
        if paid.Fail? {
          return Err(paid.error);
        }
        if NoneCross(before, args.useATree, args.isBid, args.rateBps) {
          WithSeatKeepsNoneCross(before, args.traderIndex, SeatAt(arena, args.traderIndex), args.useATree, args.isBid, args.rateBps);
        }
      }
      if NoneCross(Data(), args.useATree, args.isBid, args.rateBps) {
        RestKeepsNoneCross(Data(), o, args.useATree, args.isBid, args.rateBps);
      }
      var rested := RestOrder(o);
      r := Ok(rested.value);
    }

    /**
     * The reverse branch of `place_order` for a reverse bid: the base it received (traded, global
     * and still wanted, in a checked sum) is offered back as a limit ask at the reverse rate, on
     * the other tree, with that tree's next sequence number. Nothing rests when the base is worth
     * no shares. A failure changes nothing.
     */
    method RestReverse(args: OrderArgs, env: Env, tally: Tally) returns (r: Result<Option<nat>>)
      requires Valid() && IsSeatAt(arena, args.traderIndex) && TallyOk(args, tally)
      modifies this
      ensures Valid() && IsSeatAt(arena, args.traderIndex)
      ensures SequenceNumber(args.useATree) == old(SequenceNumber(args.useATree))
      ensures r.Err? || r == Ok(None) ==> unchanged(this)
      ensures ReverseRate(args.rateBps, args.reverseSpreadBps).Err? ==> r == Err(Panic)
      ensures NoneCross(old(Data()), args.useATree, args.isBid, args.rateBps) ==> NoneCross(Data(), args.useATree, args.isBid, args.rateBps)
      ensures var base := tally.totalBase + (tally.globalBase + tally.remaining);
              ReverseRate(args.rateBps, args.reverseSpreadBps).Ok? && base >= U64_LIMIT ==> r == Err(Nix(NumericalOverflow))
      ensures var base := tally.totalBase + (tally.globalBase + tally.remaining);
              r.Ok? ==>
                ReverseRate(args.rateBps, args.reverseSpreadBps).Ok? && base < U64_LIMIT
                && TokensToAssetShares(base, env.baseBank).Ok?
                && (r.value.None? <==> TokensToAssetShares(base, env.baseBank).value <= 0)
      ensures var base := tally.totalBase + (tally.globalBase + tally.remaining);
              r.Ok? && r.value.Some? ==>
                var number := NextSequenceNumber(old(SequenceNumber(!args.useATree)));
                var o := RestingOrder(TokensToAssetShares(base, env.baseBank).value, 0,
                                      ReverseRate(args.rateBps, args.reverseSpreadBps).value, number, args.traderIndex,
                                      args.lastValidSlot, Limit, !args.isBid, !args.useATree, 0);
                SequenceNumber(!args.useATree) == number && old(freeList) != []
                && r.value.value == old(freeList)[0] && OrderAt(arena, r.value.value) == o
                && (o.isATree, o.isBid) == ReverseSide(args.useATree, args.isBid)
                && r.value.value in books.Get(o.isATree, o.isBid)
                && Data() == old(Data()).Rest(o)
    {
      var rate := ReverseRate(args.rateBps, args.reverseSpreadBps);
      if rate.Err? {
        return Err(rate.error);
      }
      var base := tally.totalBase + (tally.globalBase + tally.remaining);
      if base >= U64_LIMIT {
        return Err(Nix(NumericalOverflow));
      }
      var shares := TokensToAssetShares(base, env.baseBank);
      if shares.Err? {
        return Err(shares.error);
      }
      if shares.value <= 0 {
        return Ok(None);
      }
      if freeList == [] {
        return Err(Panic);
      }
      var number := BumpSequenceNumber(!args.useATree);
      var o := NewOrder(rate.value, number, shares.value, 0, !args.useATree, args.traderIndex, args.lastValidSlot,
                        Limit, !args.isBid, 0).value;
      if NoneCross(Data(), args.useATree, args.isBid, args.rateBps) {
        RestKeepsNoneCross(Data(), o, args.useATree, args.isBid, args.rateBps);
      }
      var rested := RestOrder(o);
      r := Ok(Some(rested.value));
    }

    /**
     * `place_order`: the trader must have a seat (`AlreadyClaimedSeat`), the order must not have
     * expired and its type must suit its side. The order then takes from the opposite bookside
     * (`MatchLoop`), the tree's sequence number is bumped whether or not anything rests, and
     * what is left rests only when `Rests` allows, after the lending-pool calls: a reverse bid
     * as the reverse ask of what it received, any other order as itself (`RestRemaining`).
     */
    method PlaceOrderCore(args: OrderArgs, env: Env, host: Host,
                          baseGlobal: Option<GlobalTradeAccounts>, quoteGlobal: Option<GlobalTradeAccounts>)
      returns (r: Result<PlaceResult>)
      requires Valid() && (args.traderIndex == NIL || IsSeatAt(arena, args.traderIndex))
      modifies this
      modifies if baseGlobal.Some? then {baseGlobal.value.global} else {}
      modifies if baseGlobal.Some? && baseGlobal.value.gasReceiver.Some? then {baseGlobal.value.gasReceiver.value} else {}
      modifies if quoteGlobal.Some? then {quoteGlobal.value.global} else {}
      modifies if quoteGlobal.Some? && quoteGlobal.value.gasReceiver.Some? then {quoteGlobal.value.gasReceiver.value} else {}
      ensures args.traderIndex == NIL ==> r == Err(Nix(AlreadyClaimedSeat))
      ensures args.traderIndex != NIL && AssertNotAlreadyExpired(args.lastValidSlot, env.nowSlot).Fail? ==>
                r == Err(Nix(AlreadyExpired))
      ensures args.traderIndex != NIL && AssertNotAlreadyExpired(args.lastValidSlot, env.nowSlot).Pass?
              && AssertValidOrderType(args.orderType, args.isBid).Fail? ==>
                r == Err(AssertValidOrderType(args.orderType, args.isBid).error)
      ensures r.Ok? ==> Valid()
      ensures r.Ok? ==> r.value.orderSequenceNumber == NextSequenceNumber(old(SequenceNumber(args.useATree)))
                        && SequenceNumber(args.useATree) == r.value.orderSequenceNumber
      ensures r.Ok? ==> r.value.baseAtomsTraded <= args.numBaseAtoms
                        && (!OrderTypeCanTake(args.orderType) ==> r.value.baseAtomsTraded == 0)
                        && forall loan :: loan in r.value.matchedLoans ==> LoanOk(args, loan)
      ensures r.Ok? ==> r.value.baseAtomsTraded == args.numBaseAtoms
                        || NoneCross(Data(), args.useATree, args.isBid, args.rateBps)
      ensures r.Ok? && !OrderTypeCanTake(args.orderType) && args.numBaseAtoms > 0 ==>
                NoLiveCross(old(Data()), args.useATree, args.isBid, args.rateBps, env.nowSlot)
      ensures args.traderIndex != NIL && AssertNotAlreadyExpired(args.lastValidSlot, env.nowSlot).Pass?
              && AssertValidOrderType(args.orderType, args.isBid).Pass? && BufferF(ltvBufferBps).Ok?
              && !OrderTypeCanTake(args.orderType) && args.numBaseAtoms > 0
              && HeadLiveCrosses(old(Data()), args.useATree, args.isBid, args.rateBps, env.nowSlot) ==>
                r == Err(Nix(PostOnlyCrosses))
      ensures r.Ok? && !Rests(args, args.numBaseAtoms - r.value.baseAtomsTraded) ==> r.value.orderIndex == NIL
      ensures r.Ok? && r.value.orderIndex != NIL ==>
                var o := OrderAt(arena, r.value.orderIndex);
                r.value.orderIndex in books.Get(o.isATree, o.isBid) && o.traderIndex == args.traderIndex
                && (!(args.isBid && args.orderType == Reverse) ==>
                      o.rateBps == args.rateBps && o.sequenceNumber == r.value.orderSequenceNumber
                      && o.orderType == args.orderType && o.isBid == args.isBid && o.isATree == args.useATree)
    {
      var seat := AssertAlreadyHasSeat(args.traderIndex);
      if seat.Fail? {
        return Err(seat.error);
      }
      var live := AssertNotAlreadyExpired(args.lastValidSlot, env.nowSlot);
      if live.Fail? {
        return Err(live.error);
      }
      var valid := AssertValidOrderType(args.orderType, args.isBid);
      if valid.Fail? {
        return Err(valid.error);
      }
      var bufferF :- BufferF(ltvBufferBps);
      var tally :- MatchLoop(args, env, host, bufferF, baseGlobal, quoteGlobal);
      var number := BumpSequenceNumber(args.useATree);
      var result := PlaceResult(number, NIL, tally.totalBase, tally.totalQuote, tally.loans);
      if !Rests(args, tally.remaining) {
        return Ok(result);
      }
      var index :- RestAfterMatch(args, env, host, bufferF, tally, number, baseGlobal);
      r := Ok(result.(orderIndex := index));
    }

    /**
     * `place_order` once something is left to rest: the lending-pool calls must succeed, then a
     * reverse bid rests as the reverse ask of what it received, and any other order (or a
     * reverse bid whose reverse ask would hold no shares) rests as itself with the shares its
     * remainder needs. The taker's tree keeps its sequence number and the rested order is the
     * trader's, listed on its side.
     */
    method RestAfterMatch(args: OrderArgs, env: Env, host: Host, bufferF: I80F48, tally: Tally, number: U64,
                          baseGlobal: Option<GlobalTradeAccounts>)
      returns (r: Result<nat>)
      requires Valid() && IsSeatAt(arena, args.traderIndex) && TallyOk(args, tally)
      modifies this
      ensures r.Ok? ==> Valid()
      ensures SequenceNumber(args.useATree) == old(SequenceNumber(args.useATree))
      ensures NoneCross(old(Data()), args.useATree, args.isBid, args.rateBps) ==> NoneCross(Data(), args.useATree, args.isBid, args.rateBps)
      ensures host.marginfiCpi.Fail? ==> r == Err(host.marginfiCpi.error)
      ensures r.Ok? ==>
                var o := OrderAt(arena, r.value);
                r.value in books.Get(o.isATree, o.isBid) && o.traderIndex == args.traderIndex
                && (!(args.isBid && args.orderType == Reverse) ==>
                      o.rateBps == args.rateBps && o.sequenceNumber == number
                      && o.orderType == args.orderType && o.isBid == args.isBid && o.isATree == args.useATree)
    {
      if host.marginfiCpi.Fail? {
        return Err(host.marginfiCpi.error);
      }
      if args.isBid && args.orderType == Reverse {
        var reversed :- RestReverse(args, env, tally);
        if reversed.Some? {
          return Ok(reversed.value);
        }
      }
      var shares :- RestShares(args, env, bufferF, tally.remaining);
      r := RestRemaining(args, shares.0, shares.1, number, baseGlobal, host.globalAdd);
    }

    /**
     * `place_order` as one instruction: `PlaceOrderCore`, except that a failure leaves the
     * market and the global accounts exactly as they were, since the runtime discards every
     * change of a failed instruction.
     */
    method PlaceOrder(args: OrderArgs, env: Env, host: Host,
                      baseGlobal: Option<GlobalTradeAccounts>, quoteGlobal: Option<GlobalTradeAccounts>)
      returns (r: Result<PlaceResult>)
      requires Valid() && (args.traderIndex == NIL || IsSeatAt(arena, args.traderIndex))
      modifies this
      modifies if baseGlobal.Some? then {baseGlobal.value.global} else {}
      modifies if baseGlobal.Some? && baseGlobal.value.gasReceiver.Some? then {baseGlobal.value.gasReceiver.value} else {}
      modifies if quoteGlobal.Some? then {quoteGlobal.value.global} else {}
      modifies if quoteGlobal.Some? && quoteGlobal.value.gasReceiver.Some? then {quoteGlobal.value.gasReceiver.value} else {}
      ensures Valid()
      ensures r.Err? ==> Data() == old(Data())
                         && baseASequenceNumber == old(baseASequenceNumber) && baseBSequenceNumber == old(baseBSequenceNumber)
      ensures r.Err? && baseGlobal.Some? ==> GlobalStateOf(baseGlobal.value) == old(GlobalStateOf(baseGlobal.value))
      ensures r.Err? && quoteGlobal.Some? ==> GlobalStateOf(quoteGlobal.value) == old(GlobalStateOf(quoteGlobal.value))
      ensures args.traderIndex == NIL ==> r == Err(Nix(AlreadyClaimedSeat))
      ensures r.Ok? ==> r.value.orderSequenceNumber == NextSequenceNumber(old(SequenceNumber(args.useATree)))
                        && SequenceNumber(args.useATree) == r.value.orderSequenceNumber
      ensures r.Ok? ==> r.value.baseAtomsTraded <= args.numBaseAtoms
                        && (!OrderTypeCanTake(args.orderType) ==> r.value.baseAtomsTraded == 0)
      ensures r.Ok? ==> r.value.baseAtomsTraded == args.numBaseAtoms
                        || NoneCross(Data(), args.useATree, args.isBid, args.rateBps)
      ensures r.Ok? && !Rests(args, args.numBaseAtoms - r.value.baseAtomsTraded) ==> r.value.orderIndex == NIL
      ensures r.Ok? && !OrderTypeCanTake(args.orderType) && args.numBaseAtoms > 0 ==>
                NoLiveCross(old(Data()), args.useATree, args.isBid, args.rateBps, env.nowSlot)
      ensures args.traderIndex != NIL && AssertNotAlreadyExpired(args.lastValidSlot, env.nowSlot).Pass?
              && AssertValidOrderType(args.orderType, args.isBid).Pass? && BufferF(ltvBufferBps).Ok?
              && !OrderTypeCanTake(args.orderType) && args.numBaseAtoms > 0
              && HeadLiveCrosses(old(Data()), args.useATree, args.isBid, args.rateBps, env.nowSlot) ==>
                r == Err(Nix(PostOnlyCrosses))
    {
      var saved := Data();
      var savedA, savedB := baseASequenceNumber, baseBSequenceNumber;
      var baseSaved := if baseGlobal.Some? then GlobalStateOf(baseGlobal.value) else GlobalState(map[], 0, 0);
      var quoteSaved := if quoteGlobal.Some? then GlobalStateOf(quoteGlobal.value) else GlobalState(map[], 0, 0);
      r := PlaceOrderCore(args, env, host, baseGlobal, quoteGlobal);
      if r.Err? {
        SetData(saved);
        baseASequenceNumber, baseBSequenceNumber := savedA, savedB;
        if baseGlobal.Some? {
          RestoreGlobal(baseGlobal.value, baseSaved);
        }
        if quoteGlobal.Some? {
          RestoreGlobal(quoteGlobal.value, quoteSaved);
        }
      }
    }
  }

  /** A maker the matching loop drops instead of trading with: expired, or holding no collateral. */
  predicate Lapsed(o: RestingOrder, nowSlot: nat)
  {
    IsExpired(o, nowSlot) || o.collateralShares == 0
  }

  /** No live order on the bookside opposite a taker crosses the taker's limit. */
  ghost predicate NoLiveCross(l: Layout, useATree: bool, takerIsBid: bool, limit: int, nowSlot: nat)
  {
    forall i :: i in l.books.Get(useATree, !takerIsBid) && !Lapsed(OrderAt(l.arena, i), nowSlot)
                ==> !Crosses(takerIsBid, limit, OrderAt(l.arena, i).rateBps)
  }

  /** The best order opposite a taker is live and crosses the taker's limit. */
  predicate HeadLiveCrosses(l: Layout, useATree: bool, takerIsBid: bool, limit: int, nowSlot: nat)
  {
    var s := l.books.Get(useATree, !takerIsBid);
    s != [] && !Lapsed(OrderAt(l.arena, s[0]), nowSlot) && Crosses(takerIsBid, limit, OrderAt(l.arena, s[0]).rateBps)
  }

  /** The running totals of `place_order`'s matching loop, and the loans it has made. */
  datatype Tally = Tally(
    remaining: U64,
    totalBase: U64,
    totalQuote: U64,
    globalBase: U64,
    globalQuote: U64,
    loans: seq<ActiveLoan>)

  /** What one step against the best maker did: dropped an unbacked global maker, or traded. */
  datatype Fill = Unbacked | Fill(traded: U64, quote: U64, full: bool)

  /**
   * What the matching loop keeps true: the base traded and the base still wanted add up to the
   * order's size, the global share of each total never exceeds the total, an order that may
   * not take has traded nothing, and every loan made is on the order's tree, active, unsequenced,
   * and either a lapsed maker's (rate 0) or at a rate that crossed the taker's limit.
   */
  ghost predicate TallyOk(args: OrderArgs, t: Tally)
  {
    t.totalBase + t.remaining == args.numBaseAtoms
    && t.globalBase <= t.totalBase && t.globalQuote <= t.totalQuote
    && (!OrderTypeCanTake(args.orderType) ==> t.totalBase == 0)
    && forall loan :: loan in t.loans ==> LoanOk(args, loan)
  }

  predicate LoanOk(args: OrderArgs, loan: ActiveLoan)
  {
    loan.isLiabilityBaseA == args.useATree && loan.status == Active && loan.sequenceNumber == 0
    && (loan.rateBps == 0 || Crosses(args.isBid, args.rateBps, loan.rateBps))
  }

  /** The blocks of a bookside whose orders carry the sequence number, in bookside order. */
  function Matches(arena: Arena, s: seq<nat>, sequenceNumber: U64): (m: seq<nat>)
    ensures forall j :: j in m ==> j in s && OrderAt(arena, j).sequenceNumber == sequenceNumber
    ensures forall j :: j in s && OrderAt(arena, j).sequenceNumber == sequenceNumber ==> j in m
  {
    if s == [] then []
    else
      var init := Matches(arena, s[..|s| - 1], sequenceNumber);
      if OrderAt(arena, s[|s| - 1]).sequenceNumber == sequenceNumber then init + [s[|s| - 1]] else init
  }

  /** Scanning a prefix of a bookside finds a prefix of what scanning all of it finds. */
  lemma {:induction false} MatchesPrefix(arena: Arena, s: seq<nat>, k: nat, sequenceNumber: U64)
    requires k <= |s|
    ensures Matches(arena, s[..k], sequenceNumber) <= Matches(arena, s, sequenceNumber)
    decreases |s| - k
  {
    if k < |s| {
      MatchesPrefix(arena, s, k + 1, sequenceNumber);
      assert s[..k + 1][..k] == s[..k];
    } else {
      assert s[..k] == s;
    }
  }

  /** Scanning one more block finds it too when it carries the sequence number. */
  lemma MatchesStep(arena: Arena, s: seq<nat>, k: nat, sequenceNumber: U64)
    requires k < |s|
    ensures Matches(arena, s[..k + 1], sequenceNumber)
            == Matches(arena, s[..k], sequenceNumber)
               + (if OrderAt(arena, s[k]).sequenceNumber == sequenceNumber then [s[k]] else [])
  {
    assert s[..k + 1][..k] == s[..k];
  }

  /**
   * A scan that meets an order with the sequence number, when that order is another trader's
   * or one was already found, sees a bookside with no single owned match.
   */
  lemma ScanFails(arena: Arena, s: seq<nat>, k: nat, sequenceNumber: U64, traderIndex: nat, found: nat)
    requires k < |s| && OrderAt(arena, s[k]).sequenceNumber == sequenceNumber
    requires OrderAt(arena, s[k]).traderIndex != traderIndex || Matches(arena, s[..k], sequenceNumber) != [] || found != NIL
    ensures var m := Matches(arena, s, sequenceNumber);
            !(Owned(arena, m, traderIndex) && |m| + (if found == NIL then 0 else 1) <= 1)
  {
    MatchesStep(arena, s, k, sequenceNumber);
    MatchesPrefix(arena, s, k + 1, sequenceNumber);
    var p, m := Matches(arena, s[..k + 1], sequenceNumber), Matches(arena, s, sequenceNumber);
    assert m[|p| - 1] == p[|p| - 1] == s[k];
  }

  /** Every listed order belongs to the trader. */
  predicate Owned(arena: Arena, m: seq<nat>, traderIndex: nat)
  {
    forall j :: j in m ==> OrderAt(arena, j).traderIndex == traderIndex
  }

  lemma OwnedConcat(arena: Arena, a: seq<nat>, b: seq<nat>, traderIndex: nat)
    ensures Owned(arena, a + b, traderIndex) <==> Owned(arena, a, traderIndex) && Owned(arena, b, traderIndex)
  {
    assert forall j :: j in a + b <==> j in a || j in b;
  }

  /**
   * A bookside's head is its best order: the highest rate among bids, the lowest among asks.
   */
  lemma HeadIsBest(l: Layout, useATree: bool, isBid: bool)
    requires l.Valid()
    ensures var s := l.books.Get(useATree, isBid);
            (s == [] <==> forall i :: !OnSide(l.arena, i, useATree, isBid))
            && (BestIndex(s) == NIL <==> s == [])
            && (s != [] ==> OnSide(l.arena, s[0], useATree, isBid))
            && (s != [] ==> forall i :: OnSide(l.arena, i, useATree, isBid) ==>
                  if isBid then OrderAt(l.arena, i).rateBps <= OrderAt(l.arena, s[0]).rateBps
                  else OrderAt(l.arena, i).rateBps >= OrderAt(l.arena, s[0]).rateBps)
  {
    var s := l.books.Get(useATree, isBid);
    assert BookOk(l.arena, s, useATree, isBid);
    NilNotInBooks(l, useATree, isBid);
    if s != [] {
      assert s[0] in s;
      forall i | OnSide(l.arena, i, useATree, isBid)
        ensures if isBid then OrderAt(l.arena, i).rateBps <= OrderAt(l.arena, s[0]).rateBps
                else OrderAt(l.arena, i).rateBps >= OrderAt(l.arena, s[0]).rateBps
      {
        var k :| 0 <= k < |s| && s[k] == i;
        if k > 0 {
          assert RankAt(l.arena, s[0]) >= RankAt(l.arena, s[k]);
        }
      }
    }
  }

  /**
   * The matching loop's totals after a fill of `traded` base atoms for `quote` quote atoms, each
   * sum checked (`NumericalOverflow`); the global totals grow only for a global maker, by base
   * when the taker bids and by quote when it asks. Within the order's size the base sums cannot
   * overflow, so the fill fails exactly when the quote total would; and with the base taken off
   * `remaining`, the totals still add up to the order.
   */
  function AddFill(args: OrderArgs, t: Tally, traded: U64, quote: U64, makerIsGlobal: bool): (r: Result<Tally>)
    ensures r.Err? ==> r.error == Nix(NumericalOverflow)
    ensures r.Ok? ==> r.value.totalBase == t.totalBase + traded && r.value.totalQuote == t.totalQuote + quote
    ensures TallyOk(args, t) && traded <= t.remaining && OrderTypeCanTake(args.orderType) ==>
              (r.Err? <==> t.totalQuote + quote >= U64_LIMIT)
              && (r.Ok? ==> TallyOk(args, r.value.(remaining := t.remaining - traded)))
  {
    var globalBase := if makerIsGlobal && args.isBid then t.globalBase + traded else t.globalBase;
    var globalQuote := if makerIsGlobal && !args.isBid then t.globalQuote + quote else t.globalQuote;
    if globalBase >= U64_LIMIT || globalQuote >= U64_LIMIT
       || t.totalBase + traded >= U64_LIMIT || t.totalQuote + quote >= U64_LIMIT
    then Err(Nix(NumericalOverflow))
    else Ok(t.(totalBase := t.totalBase + traded, totalQuote := t.totalQuote + quote,
               globalBase := globalBase, globalQuote := globalQuote))
  }

  /**
   * The loan a fully filled maker becomes (`ActiveLoan::new_empty`): the bidder borrows the
   * base from the asker at the maker's rate, backed by the quote; the lender is global when the
   * lending side is a global order.
   */
  function FillLoan(args: OrderArgs, env: Env, head: U32, maker: RestingOrder,
                    baseShares: I80F48, quoteShares: I80F48): (loan: ActiveLoan)
    ensures loan.collateralShares == quoteShares && loan.liabilityShares == baseShares
    ensures loan.rateBps == maker.rateBps
    ensures Crosses(args.isBid, args.rateBps, maker.rateBps) ==> LoanOk(args, loan)
  {
    NewEmptyLoan(args.useATree, if args.isBid then head else args.traderIndex,
                 if args.isBid then args.traderIndex else head,
                 if args.isBid then maker.IsGlobal() else args.orderType == Global,
                 quoteShares, baseShares, maker.rateBps, env.nowTimestamp, env.nowSlot)
  }

  /**
   * What one fill against the order in block `head` does to the data region: the taker's seat
   * settles as `SettleTaker` says; then a fully filled maker leaves its bookside and its block
   * is freed, while a partly filled one is reduced where it stands (`reduce_bid`/`reduce_ask`).
   */
  function TradeLayout(l: Layout, args: OrderArgs, env: Env, head: nat, full: bool, traded: U64, quote: U64,
                       baseShares: I80F48, quoteShares: I80F48): (r: Result<Layout>)
    ensures r.Ok? ==> r.value.seats == l.seats && r.value.numBytesAllocated == l.numBytesAllocated
    ensures r.Ok? ==> r.value.freeList == if full then [head] + l.freeList else l.freeList
  {
    var seat :- SettleTaker(SeatAt(l.arena, args.traderIndex), args.useATree, args.isBid, args.orderType,
                            baseShares, quoteShares);
    var settled := l.WithSeat(args.traderIndex, seat);
    if full then Ok(settled.RemoveOrder(head, args.useATree, !args.isBid))
    else
      var maker := OrderAt(l.arena, head);
      var reduced :- if maker.isBid then ReduceBid(maker, env.baseBank, env.quoteBank, quote, traded)
                     else ReduceAsk(maker, env.baseBank, traded);
      Ok(settled.WithOrder(head, reduced))
  }

  /**
   * A fill against the best opposite order keeps the data region well formed and the taker
   * seated, with the seat `SettleTaker` gives. A fully filled maker has left the head of its
   * bookside and nothing else in the books moved; a partly filled one is still in place with
   * the same rate, owner and sequence number, and no bookside changed.
   */
  lemma TradeLayoutValid(l: Layout, args: OrderArgs, env: Env, full: bool, traded: U64, quote: U64,
                         baseShares: I80F48, quoteShares: I80F48)
    requires l.Valid() && IsSeatAt(l.arena, args.traderIndex) && l.books.Get(args.useATree, !args.isBid) != []
    requires TradeLayout(l, args, env, l.books.Get(args.useATree, !args.isBid)[0], full, traded, quote,
                         baseShares, quoteShares).Ok?
    ensures var s := l.books.Get(args.useATree, !args.isBid);
            var l' := TradeLayout(l, args, env, s[0], full, traded, quote, baseShares, quoteShares).value;
            l'.Valid() && IsSeatAt(l'.arena, args.traderIndex)
            && SeatAt(l'.arena, args.traderIndex)
               == SettleTaker(SeatAt(l.arena, args.traderIndex), args.useATree, args.isBid, args.orderType,
                              baseShares, quoteShares).value
            && (full ==> l'.books == l.books.With(args.useATree, !args.isBid, s[1..]))
            && (!full ==> l'.books == l.books && SamePlace(OrderAt(l'.arena, s[0]), OrderAt(l.arena, s[0])))
  {
    var t, b := args.useATree, !args.isBid;
    var s := l.books.Get(t, b);
    var head := s[0];
    BookEntryIsIndex(l, t, b, head);
    var seat := SettleTaker(SeatAt(l.arena, args.traderIndex), t, args.isBid, args.orderType, baseShares, quoteShares).value;
    WithSeatValid(l, args.traderIndex, seat);
    WithSeatLeavesBooks(l, args.traderIndex, seat);
    var m := l.WithSeat(args.traderIndex, seat);
    if full {
      assert BookOk(m.arena, s, t, b);
      WithoutHead(s);
      RemoveOrderValid(m, head, t, b);
    } else {
      var maker := OrderAt(l.arena, head);
      var reduced := if maker.isBid then ReduceBid(maker, env.baseBank, env.quoteBank, quote, traded)
                     else ReduceAsk(maker, env.baseBank, traded);
      WithOrderValid(m, head, reduced.value);
    }
  }

  /**
   * The whole effect of one fill against the best opposite order, apart from the tokens of a
   * global maker: the taker's running totals grow (`AddFill`), both amounts become deposit
   * shares, the data region changes as `TradeLayout` says, and a fully filled maker turns into
   * a loan (`FillLoan`) while a partly filled one leaves nothing more to take.
   */
  function Trade(l: Layout, args: OrderArgs, env: Env, tally: Tally, full: bool, traded: U64, quote: U64,
                 makerIsGlobal: bool): (r: Result<(Layout, Tally)>)
    requires l.Valid() && l.books.Get(args.useATree, !args.isBid) != [] && traded <= tally.remaining
    ensures r.Ok? ==> r.value.1.totalBase == tally.totalBase + traded && r.value.1.totalQuote == tally.totalQuote + quote
    ensures r.Ok? ==> r.value.1.remaining == (if full then tally.remaining - traded else 0)
    ensures r.Ok? ==> |r.value.1.loans| == |tally.loans| + (if full then 1 else 0)
  {
    var head := l.books.Get(args.useATree, !args.isBid)[0];
    BookEntryIsIndex(l, args.useATree, !args.isBid, head);
    var added :- AddFill(args, tally, traded, quote, makerIsGlobal);
    var baseShares :- TokensToAssetShares(traded, env.baseBank);
    var quoteShares :- TokensToAssetShares(quote, env.quoteBank);
    var data :- TradeLayout(l, args, env, head, full, traded, quote, baseShares, quoteShares);
    var loans := tally.loans + if full then [FillLoan(args, env, head, OrderAt(l.arena, head), baseShares, quoteShares)] else [];
    Ok((data, added.(remaining := if full then tally.remaining - traded else 0, loans := loans)))
  }

  /**
   * A fill that goes through keeps the data region well formed, the taker seated and the
   * taker's totals consistent: what was taken plus what remains is still the order size, and
   * every loan is one the taker's limit allows. A full fill removes exactly the head of the
   * opposite bookside; a partial one leaves the books alone and nothing more to take.
   */
  lemma TradeValid(l: Layout, args: OrderArgs, env: Env, tally: Tally, full: bool, traded: U64, quote: U64,
                   makerIsGlobal: bool)
    requires l.Valid() && IsSeatAt(l.arena, args.traderIndex) && TallyOk(args, tally)
    requires l.books.Get(args.useATree, !args.isBid) != []
    requires Crosses(args.isBid, args.rateBps, OrderAt(l.arena, l.books.Get(args.useATree, !args.isBid)[0]).rateBps)
    requires OrderTypeCanTake(args.orderType)
    requires traded <= tally.remaining && (!full ==> traded == tally.remaining)
    requires Trade(l, args, env, tally, full, traded, quote, makerIsGlobal).Ok?
    ensures var (l', t') := Trade(l, args, env, tally, full, traded, quote, makerIsGlobal).value;
            var s := l.books.Get(args.useATree, !args.isBid);
            l'.Valid() && IsSeatAt(l'.arena, args.traderIndex) && TallyOk(args, t')
            && (full ==> l'.books == l.books.With(args.useATree, !args.isBid, s[1..]))
            && (!full ==> l'.books == l.books)
  {
    var head := l.books.Get(args.useATree, !args.isBid)[0];
    BookEntryIsIndex(l, args.useATree, !args.isBid, head);
    var added := AddFill(args, tally, traded, quote, makerIsGlobal).value;
    var baseShares := TokensToAssetShares(traded, env.baseBank).value;
    var quoteShares := TokensToAssetShares(quote, env.quoteBank).value;
    TradeLayoutValid(l, args, env, full, traded, quote, baseShares, quoteShares);
    var loans := tally.loans + if full then [FillLoan(args, env, head, OrderAt(l.arena, head), baseShares, quoteShares)] else [];
    assert forall k :: 0 <= k < |loans| ==> LoanOk(args, loans[k]) by {
      assert TallyOk(args, added.(remaining := tally.remaining - traded));
    }
  }

  /** `wrapping_add(1)` on a u64 order sequence number: one more, and 0 after the largest. */
  function NextSequenceNumber(n: U64): (r: U64)
    ensures n < U64_LIMIT - 1 ==> r == n + 1
    ensures n == U64_LIMIT - 1 ==> r == 0
    ensures r != n
  {
    if n == U64_LIMIT - 1 then 0 else n + 1
  }

  /**
   * What is left of an order rests only when its type may rest, something is left and its rate
   * is not 0.
   */
  predicate Rests(args: OrderArgs, remaining: U64)
  {
    OrderTypeCanRest(args.orderType) && remaining > 0 && args.rateBps != 0
  }

  /**
   * The shares the rest of an order holds. A bid owes the base left as liability shares, backed
   * by the quote collateral the oracle formula asks for, as asset shares; an ask holds the base
   * left as asset shares and owes nothing, except that a global ask keeps its base in token
   * form, as a plain I80F48 amount.
   */
  function RestShares(args: OrderArgs, env: Env, bufferF: I80F48, remaining: U64): (r: Result<(I80F48, I80F48)>)
    ensures r.Err? ==> r.error == Nix(NumericalOverflow) || r.error == Panic
    ensures r.Ok? && !args.isBid ==> r.value.1 == 0
    ensures r.Ok? && !args.isBid && args.orderType == Global ==> r.value.0 == remaining * ONE
    ensures r.Ok? && !args.isBid && args.orderType != Global ==>
              r.value.0 * env.baseBank.assetShareValue <= remaining * ONE * ONE
              < (r.value.0 + 1) * env.baseBank.assetShareValue
    ensures r.Ok? && args.isBid ==>
              r.value.1 * env.baseBank.liabilityShareValue <= remaining * ONE * ONE
              < (r.value.1 + 1) * env.baseBank.liabilityShareValue
    ensures r.Ok? && args.isBid ==>
              var q := RequiredQuoteCollateral(env.baseBank, env.quoteBank, env.basePrice, env.quotePrice, bufferF, remaining);
              q.Ok? && TokensToAssetShares(q.value, env.quoteBank) == Ok(r.value.0)
  {
    if args.isBid then
      var quote :- RequiredQuoteCollateral(env.baseBank, env.quoteBank, env.basePrice, env.quotePrice, bufferF, remaining);
      var collateral :- TokensToAssetShares(quote, env.quoteBank);
      var liability :- TokensToLiabilityShares(remaining, env.baseBank);
      Ok((collateral, liability))
    else if args.orderType == Global then Ok((FromU64(remaining), 0))
    else
      var collateral :- TokensToAssetShares(remaining, env.baseBank);
      Ok((collateral, 0))
  }

  /**
   * Resting an order anywhere but on the bookside opposite a taker leaves that bookside, and
   * so the stop rule's conclusion, as it was.
   */
  lemma RestKeepsNoneCross(l: Layout, o: RestingOrder, useATree: bool, takerIsBid: bool, limit: int)
    requires l.Valid() && l.freeList != [] && (o.isATree != useATree || o.isBid == takerIsBid)
    requires NoneCross(l, useATree, takerIsBid, limit)
    ensures NoneCross(l.Rest(o), useATree, takerIsBid, limit)
  {
    RestLeavesOtherBooks(l, o, useATree, !takerIsBid);
  }

  /** Changing a seat leaves the stop rule's conclusion as it was. */
  lemma WithSeatKeepsNoneCross(l: Layout, i: nat, seat: ClaimedSeat, useATree: bool, takerIsBid: bool, limit: int)
    requires l.Valid() && IsSeatAt(l.arena, i)
    requires NoneCross(l, useATree, takerIsBid, limit)
    ensures NoneCross(l.WithSeat(i, seat), useATree, takerIsBid, limit)
  {
    WithSeatLeavesBooks(l, i, seat);
  }
}
