// The market's data region as values: 112-byte blocks that are free, hold a seat or hold an
// order; the LIFO free list; the seat tree; and four booksides (bids and asks of the A and B
// trees), each kept best-first. The transitions here are the ones the market's methods make
// (state/market.rs, state/market_helpers.rs).

module MarketLayout {
  import opened Bytes
  import opened Arith
  import opened Errors
  import opened Constants
  import opened Orders
  import opened Seats
  import opened Loans

  datatype Block = FreeBlock | SeatBlock(seat: ClaimedSeat) | OrderBlock(order: RestingOrder)

  type Arena = map<nat, Block>

  /** A block offset of the data region below `numBytesAllocated`. */
  predicate IsMarketBlock(i: nat, numBytesAllocated: nat)
  {
    i % MARKET_BLOCK_SIZE == 0 && i < numBytesAllocated
  }

  /** NIL is never a block offset: it is not a multiple of the block size. */
  lemma NilIsNoBlock(numBytesAllocated: nat)
    ensures !IsMarketBlock(NIL, numBytesAllocated)
  {
  }

  predicate IsSeatAt(arena: Arena, i: nat)
  {
    i in arena && arena[i].SeatBlock?
  }

  predicate IsOrderAt(arena: Arena, i: nat)
  {
    i in arena && arena[i].OrderBlock?
  }

  /** The seat in block `i`, or an empty seat where there is none. */
  function SeatAt(arena: Arena, i: nat): ClaimedSeat
  {
    if IsSeatAt(arena, i) then arena[i].seat else NewEmptySeat(DEFAULT_PUBKEY)
  }

  /** The order in block `i`, or a blank order where there is none. */
  function OrderAt(arena: Arena, i: nat): RestingOrder
  {
    if IsOrderAt(arena, i) then arena[i].order
    else RestingOrder(0, 0, 0, 0, 0, 0, Limit, false, false, 0)
  }

  /** Block `i` holds an order of the given tree and side. */
  predicate OnSide(arena: Arena, i: nat, useATree: bool, isBid: bool)
  {
    IsOrderAt(arena, i) && arena[i].order.isATree == useATree && arena[i].order.isBid == isBid
  }

  function RankAt(arena: Arena, i: nat): int
  {
    Rank(OrderAt(arena, i))
  }

  /** Best first: no order is better than one before it (equal ranks in any order). */
  predicate SortedBest(arena: Arena, s: seq<nat>)
  {
    forall j, k {:trigger RankAt(arena, s[j]), RankAt(arena, s[k])} :: 0 <= j < k < |s| ==> RankAt(arena, s[j]) >= RankAt(arena, s[k])
  }

  /** The four booksides, each a sequence of block offsets, best order first. */
  datatype Books = Books(aBids: seq<nat>, aAsks: seq<nat>, bBids: seq<nat>, bAsks: seq<nat>)
  {
    function Get(useATree: bool, isBid: bool): seq<nat>
    {
      if useATree then (if isBid then aBids else aAsks) else (if isBid then bBids else bAsks)
    }

    function With(useATree: bool, isBid: bool, s: seq<nat>): (r: Books)
      ensures r.Get(useATree, isBid) == s
      ensures forall t: bool, b: bool :: (t != useATree || b != isBid) ==> r.Get(t, b) == Get(t, b)
    {
      if useATree then (if isBid then this.(aBids := s) else this.(aAsks := s))
      else (if isBid then this.(bBids := s) else this.(bAsks := s))
    }
  }

  const NO_BOOKS: Books := Books([], [], [], [])

  /** The best order's block of a bookside (`*_best_index`), NIL when it is empty. */
  function BestIndex(s: seq<nat>): nat
  {
    if s == [] then NIL else s[0]
  }

  /** One bookside is well formed: no block twice, exactly its own orders, best first. */
  ghost predicate BookOk(arena: Arena, s: seq<nat>, useATree: bool, isBid: bool)
  {
    NoDup(s) && (forall i :: i in s <==> OnSide(arena, i, useATree, isBid)) && SortedBest(arena, s)
  }

  /** The seat tree's lookup by trader: the first listed seat block of that trader. */
  function FindSeat(arena: Arena, seats: seq<nat>, trader: Pubkey): (r: Option<nat>)
    ensures r.Some? ==> r.value in seats && IsSeatAt(arena, r.value) && SeatAt(arena, r.value).trader == trader
    ensures r.None? <==> forall i :: i in seats && IsSeatAt(arena, i) ==> SeatAt(arena, i).trader != trader
  {
    if seats == [] then None
    else if IsSeatAt(arena, seats[0]) && SeatAt(arena, seats[0]).trader == trader then Some(seats[0])
    else
      TailMembership(seats);
      FindSeat(arena, seats[1..], trader)
  }

  lemma TailMembership(s: seq<nat>)
    requires s != []
    ensures forall i :: i in s <==> i == s[0] || i in s[1..]
  {
  }

  /**
   * The market's data region and its bookkeeping: the size, the free list (head first), the
   * blocks, the seat tree (as the list of seat blocks) and the four booksides.
   */
  datatype Layout = Layout(numBytesAllocated: nat, freeList: seq<nat>, arena: Arena, seats: seq<nat>, books: Books)
  {
    /** Every block below the size exists, and nothing else; the size fits its u32 field. */
    ghost predicate ArenaOk()
    {
      numBytesAllocated % MARKET_BLOCK_SIZE == 0 && numBytesAllocated < U32_LIMIT
      && forall i :: i in arena <==> IsMarketBlock(i, numBytesAllocated)
    }

    /** The free list holds each free block exactly once. */
    ghost predicate FreeListOk()
    {
      NoDup(freeList) && forall i :: i in freeList <==> i in arena && arena[i].FreeBlock?
    }

    /** The seat tree holds each seat block once, and no trader has two seats. */
    ghost predicate SeatsOk()
    {
      NoDup(seats) && (forall i :: i in seats <==> IsSeatAt(arena, i))
      && forall i, j :: IsSeatAt(arena, i) && IsSeatAt(arena, j) && SeatAt(arena, i).trader == SeatAt(arena, j).trader
                        ==> i == j
    }

    ghost predicate BooksOk()
    {
      forall t: bool, b: bool :: BookOk(arena, books.Get(t, b), t, b)
    }

    /** Every order belongs to a trader with a seat. */
    ghost predicate OwnersOk()
    {
      forall i :: IsOrderAt(arena, i) ==> IsSeatAt(arena, OrderAt(arena, i).traderIndex)
    }

    ghost predicate Valid()
    {
      ArenaOk() && FreeListOk() && SeatsOk() && BooksOk() && OwnersOk()
    }

    /** `market_expand`: the block at the old size becomes free and goes on the free-list head. */
    function Expand(): (l: Layout)
      ensures l.numBytesAllocated == numBytesAllocated + MARKET_BLOCK_SIZE
      ensures l.freeList == [numBytesAllocated] + freeList
    {
      Layout(numBytesAllocated + MARKET_BLOCK_SIZE, [numBytesAllocated] + freeList,
             arena[numBytesAllocated := FreeBlock], seats, books)
    }

    /** `claim_seat` once checked: the free-list head now holds an empty seat for the trader. */
    function Claim(trader: Pubkey): (l: Layout)
      requires freeList != []
      ensures l.freeList == freeList[1..]
    {
      Layout(numBytesAllocated, freeList[1..], arena[freeList[0] := SeatBlock(NewEmptySeat(trader))],
             seats + [freeList[0]], books)
    }

    /** A seat's balances replaced in place. */
    function WithSeat(i: nat, seat: ClaimedSeat): Layout
    {
      this.(arena := arena[i := SeatBlock(seat)])
    }

    /** An order replaced in place, keeping its place in its bookside. */
    function WithOrder(i: nat, o: RestingOrder): Layout
    {
      this.(arena := arena[i := OrderBlock(o)])
    }

    /**
     * `remove_order_from_tree_and_free`: the order leaves its bookside, its block becomes free
     * and goes on the free-list head.
     */
    function RemoveOrder(i: nat, useATree: bool, isBid: bool): (l: Layout)
      ensures l.freeList == [i] + freeList
    {
      Layout(numBytesAllocated, [i] + freeList, arena[i := FreeBlock], seats,
             books.With(useATree, isBid, Without(books.Get(useATree, isBid), i)))
    }

    /**
     * Allocate and `insert_order_into_tree(use_a_tree, is_bid, ..)`: the free-list head now holds
     * the order, which joins the named bookside behind every order ranked at least as high.
     */
    function RestAt(useATree: bool, isBid: bool, o: RestingOrder): (l: Layout)
      requires freeList != []
      ensures l.freeList == freeList[1..]
    {
      var slot := freeList[0];
      var arena' := arena[slot := OrderBlock(o)];
      Layout(numBytesAllocated, freeList[1..], arena', seats,
             books.With(useATree, isBid, InsertByRank(arena', books.Get(useATree, isBid), slot)))
    }

    /** An order rested on the bookside of its own tree and side. */
    function Rest(o: RestingOrder): (l: Layout)
      requires freeList != []
      ensures l.freeList == freeList[1..]
    {
      RestAt(o.isATree, o.isBid, o)
    }
  }

  /** An empty market: no blocks, nothing free, no seats and four empty booksides. */
  const EMPTY_LAYOUT: Layout := Layout(0, [], map[], [], NO_BOOKS)

  lemma EmptyLayoutValid()
    ensures EMPTY_LAYOUT.Valid()
  {
  }

  // Bookside sequences.

  /** `remove_by_index`: the bookside without the given block, in the same order. */
  function Without(s: seq<nat>, x: nat): (r: seq<nat>)
    ensures forall y :: y in r <==> y in s && y != x
    ensures |r| <= |s|
  {
    if s == [] then []
    else if s[0] == x then Without(s[1..], x)
    else [s[0]] + Without(s[1..], x)
  }

  /** `insert`: the block goes after every entry ranked at least as high, before the rest. */
  function InsertByRank(arena: Arena, s: seq<nat>, slot: nat): (r: seq<nat>)
    ensures forall y :: y in r <==> y in s || y == slot
    ensures |r| == |s| + 1
  {
    if s == [] then [slot]
    else if RankAt(arena, s[0]) >= RankAt(arena, slot) then [s[0]] + InsertByRank(arena, s[1..], slot)
    else [slot] + s
  }

  lemma {:induction false} WithoutKeepsOrder(arena: Arena, s: seq<nat>, x: nat)
    requires NoDup(s) && SortedBest(arena, s)
    ensures NoDup(Without(s, x)) && SortedBest(arena, Without(s, x))
  {
    if s != [] {
      SortedTail(arena, s);
      WithoutKeepsOrder(arena, s[1..], x);
      if s[0] != x {
        var rest := Without(s[1..], x);
        forall y | y in rest ensures RankAt(arena, s[0]) >= RankAt(arena, y) {
          assert y in s[1..];
          var k :| 0 <= k < |s[1..]| && s[1..][k] == y;
          assert s[k + 1] == y;
        }
        ConsSorted(arena, s[0], rest);
      }
    }
  }

  /** Removing the best order of a bookside leaves the rest of it. */
  lemma WithoutHead(s: seq<nat>)
    requires NoDup(s) && s != []
    ensures Without(s, s[0]) == s[1..]
  {
    WithoutAbsent(s[1..], s[0]);
  }

  lemma {:induction false} WithoutAbsent(s: seq<nat>, x: nat)
    requires x !in s
    ensures Without(s, x) == s
  {
    if s != [] {
      assert x !in s[1..];
      WithoutAbsent(s[1..], x);
    }
  }

  lemma {:induction false} InsertKeepsOrder(arena: Arena, s: seq<nat>, slot: nat)
    requires NoDup(s) && SortedBest(arena, s) && slot !in s
    ensures NoDup(InsertByRank(arena, s, slot)) && SortedBest(arena, InsertByRank(arena, s, slot))
  {
    InsertKeepsNoDup(arena, s, slot);
    InsertKeepsSorted(arena, s, slot);
  }

  lemma {:induction false} InsertKeepsNoDup(arena: Arena, s: seq<nat>, slot: nat)
    requires NoDup(s) && slot !in s
    ensures NoDup(InsertByRank(arena, s, slot))
  {
    var r := InsertByRank(arena, s, slot);
    if s == [] {
    } else if RankAt(arena, s[0]) >= RankAt(arena, slot) {
      InsertKeepsNoDup(arena, s[1..], slot);
      assert r[1..] == InsertByRank(arena, s[1..], slot);
    } else {
      PushKeepsNoDup(slot, s);
    }
  }

  lemma {:induction false} InsertKeepsSorted(arena: Arena, s: seq<nat>, slot: nat)
    requires SortedBest(arena, s)
    ensures SortedBest(arena, InsertByRank(arena, s, slot))
  {
    if s == [] {
    } else if RankAt(arena, s[0]) >= RankAt(arena, slot) {
      SortedTail(arena, s);
      InsertKeepsSorted(arena, s[1..], slot);
      var rest := InsertByRank(arena, s[1..], slot);
      forall y | y in rest ensures RankAt(arena, s[0]) >= RankAt(arena, y) {
        if y != slot {
          HeadIsHighest(arena, s, y);
        }
      }
      ConsSorted(arena, s[0], rest);
    } else {
      forall y | y in s ensures RankAt(arena, slot) >= RankAt(arena, y) {
        HeadIsHighest(arena, s, y);
      }
      ConsSorted(arena, slot, s);
    }
  }

  /** The head of a best-first list ranks at least as high as anything in it. */
  lemma HeadIsHighest(arena: Arena, s: seq<nat>, y: nat)
    requires SortedBest(arena, s) && y in s
    ensures RankAt(arena, s[0]) >= RankAt(arena, y)
  {
    var k :| 0 <= k < |s| && s[k] == y;
    if k > 0 {
      assert RankAt(arena, s[0]) >= RankAt(arena, s[k]);
    }
  }

  /** A block ranked at least as high as everything in a best-first list can lead it. */
  lemma ConsSorted(arena: Arena, x: nat, s: seq<nat>)
    requires SortedBest(arena, s)
    requires forall y :: y in s ==> RankAt(arena, x) >= RankAt(arena, y)
    ensures SortedBest(arena, [x] + s)
  {
    var r := [x] + s;
    forall j, k | 0 <= j < k < |r| ensures RankAt(arena, r[j]) >= RankAt(arena, r[k]) {
      assert r[k] == s[k - 1];
      if j > 0 {
        assert r[j] == s[j - 1];
      } else {
        assert s[k - 1] in s;
      }
    }
  }

  /**
   * An inserted order sits behind every order ranked at least as high and ahead of every order
   * ranked lower; orders of equal rank keep their age order among themselves.
   */
  lemma {:induction false} InsertPosition(arena: Arena, s: seq<nat>, slot: nat, k: nat)
    requires k < |InsertByRank(arena, s, slot)| && InsertByRank(arena, s, slot)[k] == slot
    requires SortedBest(arena, s) && slot !in s
    ensures forall j :: 0 <= j < k ==> RankAt(arena, InsertByRank(arena, s, slot)[j]) >= RankAt(arena, slot)
    ensures forall j :: k < j < |s| + 1 ==> RankAt(arena, InsertByRank(arena, s, slot)[j]) < RankAt(arena, slot)
  {
    var r := InsertByRank(arena, s, slot);
    if s == [] {
    } else if RankAt(arena, s[0]) >= RankAt(arena, slot) {
      assert k > 0;
      SortedTail(arena, s);
      InsertPosition(arena, s[1..], slot, k - 1);
      forall j | 0 <= j < k ensures RankAt(arena, r[j]) >= RankAt(arena, slot) {
        if j > 0 { assert r[j] == InsertByRank(arena, s[1..], slot)[j - 1]; }
      }
      forall j | k < j < |s| + 1 ensures RankAt(arena, r[j]) < RankAt(arena, slot) {
        assert r[j] == InsertByRank(arena, s[1..], slot)[j - 1];
      }
    } else {
      assert r[0] == slot;
      forall j | 0 < j < |s| + 1 ensures RankAt(arena, r[j]) < RankAt(arena, slot) {
        assert r[j] == s[j - 1];
        assert RankAt(arena, s[0]) >= RankAt(arena, s[j - 1]);
      }
    }
  }

  /** A bookside stays well formed when the arena changes only where it does not look. */
  lemma BookFrame(a1: Arena, a2: Arena, s: seq<nat>, t: bool, b: bool)
    requires BookOk(a1, s, t, b)
    requires forall i :: OnSide(a1, i, t, b) <==> OnSide(a2, i, t, b)
    requires forall i :: i in s ==> RankAt(a1, i) == RankAt(a2, i)
    ensures BookOk(a2, s, t, b)
  {
    forall j, k | 0 <= j < k < |s| ensures RankAt(a2, s[j]) >= RankAt(a2, s[k]) {
      assert s[j] in s && s[k] in s;
    }
  }

  // Each transition keeps the layout well formed.

  lemma ExpandValid(l: Layout)
    requires l.Valid() && l.numBytesAllocated + MARKET_BLOCK_SIZE < U32_LIMIT
    ensures l.Expand().Valid()
  {
    var e := l.Expand();
    var nba := l.numBytesAllocated;
    assert nba !in l.arena;
    forall i ensures i in e.arena <==> IsMarketBlock(i, e.numBytesAllocated) {
      if IsMarketBlock(i, e.numBytesAllocated) && i != nba {
        if i >= nba {
          AlignedIsBase(i, nba);
        }
      }
    }
    assert nba !in l.freeList;
    PushKeepsNoDup(nba, l.freeList);
    forall t: bool, b: bool ensures BookOk(e.arena, e.books.Get(t, b), t, b) {
      assert BookOk(l.arena, l.books.Get(t, b), t, b);
      forall i ensures OnSide(l.arena, i, t, b) <==> OnSide(e.arena, i, t, b) {}
      forall i | i in l.books.Get(t, b) ensures RankAt(l.arena, i) == RankAt(e.arena, i) {}
      BookFrame(l.arena, e.arena, l.books.Get(t, b), t, b);
    }
    assert e.SeatsOk() by {
      forall i, j | IsSeatAt(e.arena, i) && IsSeatAt(e.arena, j) && SeatAt(e.arena, i).trader == SeatAt(e.arena, j).trader
        ensures i == j
      {
        assert IsSeatAt(l.arena, i) && IsSeatAt(l.arena, j);
      }
    }
    assert e.OwnersOk() by {
      forall i | IsOrderAt(e.arena, i) ensures IsSeatAt(e.arena, OrderAt(e.arena, i).traderIndex) {
        assert IsOrderAt(l.arena, i);
      }
    }
  }

  lemma AlignedIsBase(i: nat, base: nat)
    requires i % MARKET_BLOCK_SIZE == 0 && base % MARKET_BLOCK_SIZE == 0
    requires base <= i < base + MARKET_BLOCK_SIZE
    ensures i == base
  {
    FloorBounds(i, MARKET_BLOCK_SIZE);
    FloorBounds(base, MARKET_BLOCK_SIZE);
    var qi, qb := i / MARKET_BLOCK_SIZE, base / MARKET_BLOCK_SIZE;
    if qi > qb {
      MulLeMul(qb + 1, qi, MARKET_BLOCK_SIZE);
    } else if qi < qb {
      MulLeMul(qi + 1, qb, MARKET_BLOCK_SIZE);
    }
  }

  lemma ClaimValid(l: Layout, trader: Pubkey)
    requires l.Valid() && l.freeList != []
    requires FindSeat(l.arena, l.seats, trader).None?
    ensures l.Claim(trader).Valid()
    ensures FindSeat(l.Claim(trader).arena, l.Claim(trader).seats, trader) == Some(l.freeList[0])
  {
    var c := l.Claim(trader);
    var slot := l.freeList[0];
    assert slot in l.arena && l.arena[slot].FreeBlock?;
    assert slot !in l.seats;
    PopKeepsNoDup(l.freeList);
    AppendKeepsNoDup(l.seats, slot);
    assert c.SeatsOk() by {
      forall i ensures i in c.seats <==> IsSeatAt(c.arena, i) {}
      forall i, j | IsSeatAt(c.arena, i) && IsSeatAt(c.arena, j) && SeatAt(c.arena, i).trader == SeatAt(c.arena, j).trader
        ensures i == j
      {
        if i != slot && j != slot {
          assert IsSeatAt(l.arena, i) && IsSeatAt(l.arena, j);
        }
      }
    }
    forall t: bool, b: bool ensures BookOk(c.arena, c.books.Get(t, b), t, b) {
      assert BookOk(l.arena, l.books.Get(t, b), t, b);
      forall i ensures OnSide(l.arena, i, t, b) <==> OnSide(c.arena, i, t, b) {}
      forall i | i in l.books.Get(t, b) ensures RankAt(l.arena, i) == RankAt(c.arena, i) {}
      BookFrame(l.arena, c.arena, l.books.Get(t, b), t, b);
    }
    assert c.OwnersOk() by {
      forall i | IsOrderAt(c.arena, i) ensures IsSeatAt(c.arena, OrderAt(c.arena, i).traderIndex) {
        assert IsOrderAt(l.arena, i);
      }
    }
    var found := FindSeat(c.arena, c.seats, trader);
    assert slot in c.seats && IsSeatAt(c.arena, slot) && SeatAt(c.arena, slot).trader == trader;
    assert found.Some?;
  }

  lemma PopKeepsNoDup(s: seq<nat>)
    requires NoDup(s) && s != []
    ensures NoDup(s[1..]) && s[0] !in s[1..]
  {
  }

  lemma PushKeepsNoDup(x: nat, s: seq<nat>)
    requires NoDup(s) && x !in s
    ensures NoDup([x] + s)
  {
    assert ([x] + s)[1..] == s;
  }

  /** A block not yet listed can join at the end. */
  lemma {:induction false} AppendKeepsNoDup(s: seq<nat>, x: nat)
    requires NoDup(s) && x !in s
    ensures NoDup(s + [x])
  {
    if s != [] {
      AppendKeepsNoDup(s[1..], x);
      assert (s + [x])[1..] == s[1..] + [x];
    }
  }

  /** The tail of a best-first bookside is best first. */
  lemma SortedTail(arena: Arena, s: seq<nat>)
    requires SortedBest(arena, s) && s != []
    ensures SortedBest(arena, s[1..])
  {
    forall j, k | 0 <= j < k < |s[1..]| ensures RankAt(arena, s[1..][j]) >= RankAt(arena, s[1..][k]) {
      assert s[1..][j] == s[j + 1] && s[1..][k] == s[k + 1];
    }
  }

  lemma WithSeatValid(l: Layout, i: nat, seat: ClaimedSeat)
    requires l.Valid() && IsSeatAt(l.arena, i) && seat.trader == SeatAt(l.arena, i).trader
    ensures l.WithSeat(i, seat).Valid()
  {
    var w := l.WithSeat(i, seat);
    forall t: bool, b: bool ensures BookOk(w.arena, w.books.Get(t, b), t, b) {
      assert BookOk(l.arena, l.books.Get(t, b), t, b);
      forall x ensures OnSide(l.arena, x, t, b) <==> OnSide(w.arena, x, t, b) {}
      forall x | x in l.books.Get(t, b) ensures RankAt(l.arena, x) == RankAt(w.arena, x) {}
      BookFrame(l.arena, w.arena, l.books.Get(t, b), t, b);
    }
    assert w.SeatsOk() by {
      forall x, y | IsSeatAt(w.arena, x) && IsSeatAt(w.arena, y) && SeatAt(w.arena, x).trader == SeatAt(w.arena, y).trader
        ensures x == y
      {
        assert SeatAt(w.arena, x).trader == SeatAt(l.arena, x).trader;
        assert SeatAt(w.arena, y).trader == SeatAt(l.arena, y).trader;
      }
    }
    assert w.OwnersOk() by {
      forall x | IsOrderAt(w.arena, x) ensures IsSeatAt(w.arena, OrderAt(w.arena, x).traderIndex) {
        assert IsOrderAt(l.arena, x);
      }
    }
  }

  lemma WithOrderValid(l: Layout, i: nat, o: RestingOrder)
    requires l.Valid() && IsOrderAt(l.arena, i) && SamePlace(OrderAt(l.arena, i), o)
    ensures l.WithOrder(i, o).Valid()
  {
    var w := l.WithOrder(i, o);
    forall t: bool, b: bool ensures BookOk(w.arena, w.books.Get(t, b), t, b) {
      assert BookOk(l.arena, l.books.Get(t, b), t, b);
      forall x ensures OnSide(l.arena, x, t, b) <==> OnSide(w.arena, x, t, b) {}
      forall x | x in l.books.Get(t, b) ensures RankAt(l.arena, x) == RankAt(w.arena, x) {}
      BookFrame(l.arena, w.arena, l.books.Get(t, b), t, b);
    }
    assert w.SeatsOk() by {
      forall x, y | IsSeatAt(w.arena, x) && IsSeatAt(w.arena, y) && SeatAt(w.arena, x).trader == SeatAt(w.arena, y).trader
        ensures x == y
      {
        assert IsSeatAt(l.arena, x) && IsSeatAt(l.arena, y);
      }
    }
    assert w.OwnersOk() by {
      forall x | IsOrderAt(w.arena, x) ensures IsSeatAt(w.arena, OrderAt(w.arena, x).traderIndex) {
        assert IsOrderAt(l.arena, x);
      }
    }
  }

  lemma RemoveOrderValid(l: Layout, i: nat, useATree: bool, isBid: bool)
    requires l.Valid() && i in l.books.Get(useATree, isBid)
    ensures l.RemoveOrder(i, useATree, isBid).Valid()
  {
    var r := l.RemoveOrder(i, useATree, isBid);
    assert BookOk(l.arena, l.books.Get(useATree, isBid), useATree, isBid);
    assert OnSide(l.arena, i, useATree, isBid);
    assert i !in l.freeList;
    PushKeepsNoDup(i, l.freeList);
    forall t: bool, b: bool ensures BookOk(r.arena, r.books.Get(t, b), t, b) {
      var s := l.books.Get(t, b);
      assert BookOk(l.arena, s, t, b);
      if t == useATree && b == isBid {
        FreedBookOk(l.arena, s, i, t, b);
      } else {
        OtherBookFreed(l.arena, s, i, t, b);
      }
    }
    FreedSeatsOk(l, i, useATree, isBid);
  }

  /** Freeing a listed order's block and dropping it from its bookside keeps the bookside well formed. */
  lemma FreedBookOk(arena: Arena, s: seq<nat>, i: nat, t: bool, b: bool)
    requires BookOk(arena, s, t, b)
    ensures BookOk(arena[i := FreeBlock], Without(s, i), t, b)
  {
    var a' := arena[i := FreeBlock];
    WithoutKeepsOrder(arena, s, i);
    var s' := Without(s, i);
    forall x ensures x in s' <==> OnSide(a', x, t, b) {
      if x != i {
        assert OnSide(a', x, t, b) <==> OnSide(arena, x, t, b);
      }
    }
    forall x | x in s' ensures RankAt(arena, x) == RankAt(a', x) {}
    SortedFrame(arena, a', s');
  }

  /** Freeing a block that holds no order of a bookside leaves that bookside well formed. */
  lemma OtherBookFreed(arena: Arena, s: seq<nat>, i: nat, t: bool, b: bool)
    requires BookOk(arena, s, t, b) && !OnSide(arena, i, t, b)
    ensures BookOk(arena[i := FreeBlock], s, t, b)
  {
    var a' := arena[i := FreeBlock];
    forall x | x in s ensures RankAt(arena, x) == RankAt(a', x) {}
    SortedFrame(arena, a', s);
  }

  /** Freeing an order's block leaves every seat, and the seat of every other order, in place. */
  lemma FreedSeatsOk(l: Layout, i: nat, useATree: bool, isBid: bool)
    requires l.SeatsOk() && l.OwnersOk() && IsOrderAt(l.arena, i)
    ensures l.RemoveOrder(i, useATree, isBid).SeatsOk() && l.RemoveOrder(i, useATree, isBid).OwnersOk()
  {
    var r := l.RemoveOrder(i, useATree, isBid);
    forall x, y | IsSeatAt(r.arena, x) && IsSeatAt(r.arena, y) && SeatAt(r.arena, x).trader == SeatAt(r.arena, y).trader
      ensures x == y
    {
      assert IsSeatAt(l.arena, x) && IsSeatAt(l.arena, y);
    }
    forall x | IsOrderAt(r.arena, x) ensures IsSeatAt(r.arena, OrderAt(r.arena, x).traderIndex) {
      assert IsOrderAt(l.arena, x);
    }
  }

  lemma RestValid(l: Layout, o: RestingOrder)
    requires l.Valid() && l.freeList != [] && IsSeatAt(l.arena, o.traderIndex)
    ensures l.Rest(o).Valid()
    ensures OnSide(l.Rest(o).arena, l.freeList[0], o.isATree, o.isBid)
    ensures l.freeList[0] in l.Rest(o).books.Get(o.isATree, o.isBid)
  {
    var r := l.Rest(o);
    PopKeepsNoDup(l.freeList);
    forall t: bool, b: bool ensures BookOk(r.arena, r.books.Get(t, b), t, b) {
      RestBookOk(l, o, t, b);
    }
    RestSeatsOk(l, o);
  }

  lemma RestBookOk(l: Layout, o: RestingOrder, t: bool, b: bool)
    requires l.Valid() && l.freeList != []
    ensures BookOk(l.Rest(o).arena, l.Rest(o).books.Get(t, b), t, b)
  {
    if t == o.isATree && b == o.isBid {
      RestOwnBookOk(l, o);
    } else {
      RestOtherBookOk(l, o, t, b);
    }
  }

  lemma RestOwnBookOk(l: Layout, o: RestingOrder)
    requires l.Valid() && l.freeList != []
    ensures BookOk(l.Rest(o).arena, l.Rest(o).books.Get(o.isATree, o.isBid), o.isATree, o.isBid)
  {
    var slot := l.freeList[0];
    assert slot in l.arena && l.arena[slot].FreeBlock?;
    InsertBookOk(l.arena, l.books.Get(o.isATree, o.isBid), slot, o);
  }

  /** Writing an order into a block that held none and inserting it by rank keeps its bookside well formed. */
  lemma InsertBookOk(arena: Arena, s: seq<nat>, slot: nat, o: RestingOrder)
    requires BookOk(arena, s, o.isATree, o.isBid) && !IsOrderAt(arena, slot)
    ensures var a' := arena[slot := OrderBlock(o)];
            BookOk(a', InsertByRank(a', s, slot), o.isATree, o.isBid)
  {
    var a' := arena[slot := OrderBlock(o)];
    assert slot !in s;
    forall x | x in s ensures RankAt(arena, x) == RankAt(a', x) {}
    SortedFrame(arena, a', s);
    InsertKeepsOrder(a', s, slot);
    InsertedMembers(arena, s, slot, o);
  }

  /** After the insertion the bookside lists exactly the blocks holding orders of its side. */
  lemma InsertedMembers(arena: Arena, s: seq<nat>, slot: nat, o: RestingOrder)
    requires forall i :: i in s <==> OnSide(arena, i, o.isATree, o.isBid)
    ensures var a' := arena[slot := OrderBlock(o)];
            forall i :: i in InsertByRank(a', s, slot) <==> OnSide(a', i, o.isATree, o.isBid)
  {
    var a' := arena[slot := OrderBlock(o)];
    forall i ensures i in InsertByRank(a', s, slot) <==> OnSide(a', i, o.isATree, o.isBid) {
      if i != slot {
        assert OnSide(a', i, o.isATree, o.isBid) <==> OnSide(arena, i, o.isATree, o.isBid);
      }
    }
  }

  /** A best-first list stays best first when no listed block changes rank. */
  lemma SortedFrame(a1: Arena, a2: Arena, s: seq<nat>)
    requires SortedBest(a1, s)
    requires forall x :: x in s ==> RankAt(a1, x) == RankAt(a2, x)
    ensures SortedBest(a2, s)
  {
    forall j, k | 0 <= j < k < |s| ensures RankAt(a2, s[j]) >= RankAt(a2, s[k]) {
      assert s[j] in s && s[k] in s;
    }
  }

  lemma RestOtherBookOk(l: Layout, o: RestingOrder, t: bool, b: bool)
    requires l.Valid() && l.freeList != [] && !(t == o.isATree && b == o.isBid)
    ensures BookOk(l.Rest(o).arena, l.Rest(o).books.Get(t, b), t, b)
  {
    var r := l.Rest(o);
    var slot := l.freeList[0];
    var s := l.books.Get(t, b);
    assert slot in l.arena && l.arena[slot].FreeBlock?;
    assert BookOk(l.arena, s, t, b);
    forall x ensures OnSide(l.arena, x, t, b) <==> OnSide(r.arena, x, t, b) {}
    BookFrame(l.arena, r.arena, s, t, b);
  }

  lemma RestSeatsOk(l: Layout, o: RestingOrder)
    requires l.Valid() && l.freeList != [] && IsSeatAt(l.arena, o.traderIndex)
    ensures l.Rest(o).SeatsOk() && l.Rest(o).OwnersOk() && l.Rest(o).ArenaOk()
  {
    var r := l.Rest(o);
    var slot := l.freeList[0];
    assert slot in l.arena && l.arena[slot].FreeBlock?;
    assert r.SeatsOk() by {
      forall x, y | IsSeatAt(r.arena, x) && IsSeatAt(r.arena, y) && SeatAt(r.arena, x).trader == SeatAt(r.arena, y).trader
        ensures x == y
      {
        assert IsSeatAt(l.arena, x) && IsSeatAt(l.arena, y);
      }
    }
    assert r.OwnersOk() by {
      forall x | IsOrderAt(r.arena, x) ensures IsSeatAt(r.arena, OrderAt(r.arena, x).traderIndex) {
        if x != slot { assert IsOrderAt(l.arena, x); }
      }
    }
  }


  // The stop rule of the matching loop.

  /** A taker with limit rate `limit` would trade with a maker at `makerRate`. */
  predicate Crosses(takerIsBid: bool, limit: int, makerRate: int)
  {
    if takerIsBid then makerRate <= limit else makerRate >= limit
  }

  /** No order on the bookside opposite a taker crosses the taker's limit. */
  ghost predicate NoneCross(l: Layout, useATree: bool, takerIsBid: bool, limit: int)
  {
    forall i :: i in l.books.Get(useATree, !takerIsBid) ==> !Crosses(takerIsBid, limit, OrderAt(l.arena, i).rateBps)
  }

  /**
   * Booksides are sorted best first, so once the best order does not cross, none does: the
   * matching loop may stop at the first maker that fails the limit.
   */
  lemma NoCrossBeyondHead(l: Layout, useATree: bool, takerIsBid: bool, limit: int)
    requires l.Valid() && l.books.Get(useATree, !takerIsBid) != []
    requires !Crosses(takerIsBid, limit, OrderAt(l.arena, l.books.Get(useATree, !takerIsBid)[0]).rateBps)
    ensures NoneCross(l, useATree, takerIsBid, limit)
  {
    var s := l.books.Get(useATree, !takerIsBid);
    assert BookOk(l.arena, s, useATree, !takerIsBid);
    forall i | i in s ensures !Crosses(takerIsBid, limit, OrderAt(l.arena, i).rateBps) {
      var k :| 0 <= k < |s| && s[k] == i;
      assert OnSide(l.arena, s[0], useATree, !takerIsBid) && OnSide(l.arena, i, useATree, !takerIsBid);
      if k > 0 {
        assert RankAt(l.arena, s[0]) >= RankAt(l.arena, s[k]);
      }
    }
  }

  /** Resting an order leaves every other bookside, and the orders in it, as they were. */
  lemma RestLeavesOtherBooks(l: Layout, o: RestingOrder, t: bool, b: bool)
    requires l.Valid() && l.freeList != [] && (t != o.isATree || b != o.isBid)
    ensures l.Rest(o).books.Get(t, b) == l.books.Get(t, b)
    ensures forall i :: i in l.books.Get(t, b) ==> OrderAt(l.Rest(o).arena, i) == OrderAt(l.arena, i)
  {
    var slot := l.freeList[0];
    assert slot in l.arena && l.arena[slot].FreeBlock?;
    assert BookOk(l.arena, l.books.Get(t, b), t, b);
  }

  /** Changing a seat leaves every bookside and every order as they were. */
  lemma WithSeatLeavesBooks(l: Layout, i: nat, seat: ClaimedSeat)
    requires l.Valid() && IsSeatAt(l.arena, i)
    ensures l.WithSeat(i, seat).books == l.books
    ensures forall t: bool, b: bool, j :: j in l.books.Get(t, b) ==> OrderAt(l.WithSeat(i, seat).arena, j) == OrderAt(l.arena, j)
  {
    forall t: bool, b: bool, j | j in l.books.Get(t, b)
      ensures OrderAt(l.WithSeat(i, seat).arena, j) == OrderAt(l.arena, j)
    {
      assert BookOk(l.arena, l.books.Get(t, b), t, b);
    }
  }

  /**
   * An order inserted into a bookside other than its own tree and side breaks the book: the
   * bookside then lists a block that does not hold one of its orders.
   */
  lemma MisplacedOrderBreaksBook(l: Layout, useATree: bool, isBid: bool, o: RestingOrder)
    requires l.Valid() && l.freeList != []
    requires useATree != o.isATree || isBid != o.isBid
    ensures !l.RestAt(useATree, isBid, o).Valid()
  {
    var r := l.RestAt(useATree, isBid, o);
    var slot := l.freeList[0];
    assert slot in r.books.Get(useATree, isBid);
    assert !OnSide(r.arena, slot, useATree, isBid);
    assert !BookOk(r.arena, r.books.Get(useATree, isBid), useATree, isBid);
  }

  /**
   * The free list is a stack: a block released by removing an order is the next one handed
   * out, whether to a seat or to an order.
   */
  lemma ReleaseThenAllocate(l: Layout, i: nat, useATree: bool, isBid: bool, trader: Pubkey, o: RestingOrder)
    ensures l.RemoveOrder(i, useATree, isBid).freeList[0] == i
    ensures l.RemoveOrder(i, useATree, isBid).Claim(trader).freeList == l.freeList
    ensures l.RemoveOrder(i, useATree, isBid).Claim(trader).arena[i] == SeatBlock(NewEmptySeat(trader))
    ensures l.RemoveOrder(i, useATree, isBid).Rest(o).arena[i] == OrderBlock(o)
    ensures l.Expand().Rest(o).arena[l.numBytesAllocated] == OrderBlock(o)
  {
  }
}
