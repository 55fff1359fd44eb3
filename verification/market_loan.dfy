// The loan ledger of a market: loan records in 96-byte blocks recycled through a free
// list, with a bounded count of active loans (state/market_loan.rs).

module Loans {
  import opened Bytes
  import opened Errors
  import opened Arith
  import opened Quantities
  import opened Constants

  const I64_MIN: int := -0x8000_0000_0000_0000
  const I64_LIMIT: int := 0x8000_0000_0000_0000
  type I64 = x: int | I64_MIN <= x < I64_LIMIT

  datatype LoanStatus = Active | Repaid | Defaulted | Liquidated

  /** A loan record; share amounts hold the unwrapped I80F48 value. */
  datatype ActiveLoan = ActiveLoan(
    sequenceNumber: U64,
    lenderIndex: U32,
    borrowerIndex: U32,
    isLenderGlobal: bool,
    status: LoanStatus,
    isLiabilityBaseA: bool,
    collateralShares: I80F48,
    liabilityShares: I80F48,
    rateBps: U16,
    startTimestamp: I64,
    lastUpdatedSlot: I64)

  /** `ActiveLoan::new_empty`: an active loan with sequence number 0 and the given fields. */
  function NewEmptyLoan(isLiabilityBaseA: bool, lenderIndex: U32, borrowerIndex: U32, isLenderGlobal: bool,
                        collateralShares: I80F48, liabilityShares: I80F48, rateBps: U16,
                        startTimestamp: I64, lastUpdatedSlot: I64): (l: ActiveLoan)
    ensures l.status == Active && l.sequenceNumber == 0
    ensures l.isLiabilityBaseA == isLiabilityBaseA && l.lenderIndex == lenderIndex
    ensures l.borrowerIndex == borrowerIndex && l.isLenderGlobal == isLenderGlobal
    ensures l.collateralShares == collateralShares && l.liabilityShares == liabilityShares
    ensures l.rateBps == rateBps && l.startTimestamp == startTimestamp && l.lastUpdatedSlot == lastUpdatedSlot
  {
    ActiveLoan(0, lenderIndex, borrowerIndex, isLenderGlobal, Active, isLiabilityBaseA,
               collateralShares, liabilityShares, rateBps, startTimestamp, lastUpdatedSlot)
  }

  /** The key `remove_loan` searches with: the default loan carrying a sequence number. */
  function SearchLoan(sequenceNumber: U64): ActiveLoan
  {
    ActiveLoan(sequenceNumber, 0, 0, false, Active, false, 0, 0, 0, 0, 0)
  }

  /** `Ord for ActiveLoan`: by sequence number alone. */
  function LoanCmp(a: ActiveLoan, b: ActiveLoan): Ordering
  {
    if a.sequenceNumber < b.sequenceNumber then Less
    else if a.sequenceNumber == b.sequenceNumber then Equal
    else Greater
  }

  /** `PartialEq for ActiveLoan`: same sequence number. */
  predicate LoanEq(a: ActiveLoan, b: ActiveLoan)
  {
    a.sequenceNumber == b.sequenceNumber
  }

  /**
   * Loans compare by sequence number only: the order agrees with equality, is antisymmetric,
   * and a loan matches the search key of its own sequence number whatever its other fields.
   */
  lemma LoanOrderIsBySequenceNumber(a: ActiveLoan, b: ActiveLoan)
    ensures LoanCmp(a, b) == Equal <==> LoanEq(a, b)
    ensures LoanCmp(a, b) == Less <==> LoanCmp(b, a) == Greater
    ensures LoanCmp(a, b) == LoanCmp(SearchLoan(a.sequenceNumber), SearchLoan(b.sequenceNumber))
    ensures LoanEq(a, SearchLoan(b.sequenceNumber)) <==> a.sequenceNumber == b.sequenceNumber
  {
  }

  /**
   * Loans made by `new_empty` all carry sequence number 0 and nothing in the ledger assigns
   * another, so any two of them are equal under the ledger's comparison.
   */
  lemma NewLoansAllCompareEqual(x: ActiveLoan, y: ActiveLoan, isLiabilityBaseA: bool, lenderIndex: U32,
                                borrowerIndex: U32, isLenderGlobal: bool, collateralShares: I80F48,
                                liabilityShares: I80F48, rateBps: U16, startTimestamp: I64, lastUpdatedSlot: I64)
    requires x == NewEmptyLoan(isLiabilityBaseA, lenderIndex, borrowerIndex, isLenderGlobal, collateralShares,
                               liabilityShares, rateBps, startTimestamp, lastUpdatedSlot)
    requires y.sequenceNumber == 0
    ensures LoanEq(x, y) && LoanCmp(x, y) == Equal
  {
  }

  /** A block offset of the ledger's data region below `numBytesAllocated`. */
  predicate IsLoanBlock(i: nat, numBytesAllocated: nat)
  {
    i % MARKET_LOAN_BLOCK_SIZE == 0 && i < numBytesAllocated
  }

  /** No block is listed twice: the first one does not occur again, and so on down the list. */
  predicate NoDup(s: seq<nat>)
  {
    s == [] || (s[0] !in s[1..] && NoDup(s[1..]))
  }

  /** `NoDup` holds exactly when any two places of the list hold different blocks. */
  lemma {:induction false} NoDupPairs(s: seq<nat>)
    ensures NoDup(s) <==> forall a, b :: 0 <= a < b < |s| ==> s[a] != s[b]
  {
    if s != [] {
      var t := s[1..];
      NoDupPairs(t);
      if NoDup(s) {
        forall a, b | 0 <= a < b < |s| ensures s[a] != s[b] {
          assert s[b] == t[b - 1];
          if a > 0 {
            assert s[a] == t[a - 1];
          }
        }
      }
      if forall a, b :: 0 <= a < b < |s| ==> s[a] != s[b] {
        forall k | 0 <= k < |t| ensures t[k] != s[0] {
          assert t[k] == s[k + 1];
        }
        forall a, b | 0 <= a < b < |t| ensures t[a] != t[b] {
          assert t[a] == s[a + 1] && t[b] == s[b + 1];
        }
      }
    }
  }

  /** The `n` blocks that follow `base`, newest first, as the free list holds them once pushed. */
  function NewBlocks(base: nat, n: nat): (s: seq<nat>)
    ensures |s| == n
    ensures forall k :: 0 <= k < n ==> s[k] == base + (n - 1 - k) * MARKET_LOAN_BLOCK_SIZE
  {
    seq(n, k requires 0 <= k < n => base + (n - 1 - k) * MARKET_LOAN_BLOCK_SIZE)
  }

  /**
   * The free list and size that `expand_loan_account(n)` leaves as written: the size grows by `n`
   * blocks but only the block at the old size is pushed.
   */
  function ExpandAsWritten(freeList: seq<nat>, numBytesAllocated: nat, n: nat): (r: (seq<nat>, nat))
    ensures r.0 == [numBytesAllocated] + freeList
    ensures r.1 == numBytesAllocated + n * MARKET_LOAN_BLOCK_SIZE
  {
    ([numBytesAllocated] + freeList, numBytesAllocated + n * MARKET_LOAN_BLOCK_SIZE)
  }

  /**
   * Expanding an empty ledger by two blocks as written leaves the block at 96 neither free nor
   * holding a loan, so a second loan allocation finds the free list empty; expanding by zero
   * twice pushes block 0 twice, so two loans would share it.
   */
  lemma ExpandAsWrittenBreaksFreeList()
    ensures var (fl, nba) := ExpandAsWritten([], 0, 2);
            IsLoanBlock(96, nba) && 96 !in fl && |fl| == 1
    ensures var (fl1, nba1) := ExpandAsWritten([], 0, 0);
            var (fl2, _) := ExpandAsWritten(fl1, nba1, 0);
            fl2 == [0, 0] && !NoDup(fl2)
  {
    var (fl1, nba1) := ExpandAsWritten([], 0, 0);
    var (fl2, _) := ExpandAsWritten(fl1, nba1, 0);
    assert fl2[0] == fl2[1];
  }

  lemma AlignedBlockIsBase(i: nat, base: nat)
    requires i % MARKET_LOAN_BLOCK_SIZE == 0 && base % MARKET_LOAN_BLOCK_SIZE == 0
    requires base <= i < base + MARKET_LOAN_BLOCK_SIZE
    ensures i == base
  {
    FloorBounds(i, MARKET_LOAN_BLOCK_SIZE);
    FloorBounds(base, MARKET_LOAN_BLOCK_SIZE);
    var qi, qb := i / MARKET_LOAN_BLOCK_SIZE, base / MARKET_LOAN_BLOCK_SIZE;
    if qi > qb {
      MulLeMul(qb + 1, qi, MARKET_LOAN_BLOCK_SIZE);
    } else if qi < qb {
      MulLeMul(qi + 1, qb, MARKET_LOAN_BLOCK_SIZE);
    }
  }

  /**
   * After `k` insertions by `add_loans`: the first `k` free blocks hold the first `k` records,
   * and every other block keeps what it held.
   */
  ghost predicate FilledUpTo(loans: map<nat, ActiveLoan>, loans0: map<nat, ActiveLoan>, free0: seq<nat>,
                             records: seq<ActiveLoan>, k: nat)
  {
    k <= |records| && k <= |free0|
    && (forall j :: 0 <= j < k ==> free0[j] in loans && loans[free0[j]] == records[j])
    && (forall i :: i in loans <==> i in loans0 || i in free0[..k])
    && (forall i :: i in loans0 ==> i in loans && loans[i] == loans0[i])
  }

  lemma FillStep(loans: map<nat, ActiveLoan>, loans0: map<nat, ActiveLoan>, free0: seq<nat>,
                 records: seq<ActiveLoan>, k: nat)
    requires FilledUpTo(loans, loans0, free0, records, k)
    requires k < |records| && k < |free0| && free0[k] !in loans
    ensures FilledUpTo(loans[free0[k] := records[k]], loans0, free0, records, k + 1)
  {
    assert free0[..k + 1] == free0[..k] + [free0[k]];
  }

  /**
   * Every block below `size` is either on the free list (once) or holds a loan, never both, and
   * nothing else is listed.
   */
  ghost predicate BlocksOk(size: nat, freeList: seq<nat>, loans: map<nat, ActiveLoan>)
  {
    size % MARKET_LOAN_BLOCK_SIZE == 0
    && NoDup(freeList)
    && (forall i :: i in loans ==> IsLoanBlock(i, size))
    && (forall i :: i in freeList ==> IsLoanBlock(i, size) && i !in loans)
    && (forall i :: IsLoanBlock(i, size) ==> i in loans || i in freeList)
  }

  /** Growing the account by one block and pushing that block on the free list keeps the blocks accounted for. */
  lemma PushNewBlockOk(size: nat, freeList: seq<nat>, loans: map<nat, ActiveLoan>)
    requires BlocksOk(size, freeList, loans)
    ensures BlocksOk(size + MARKET_LOAN_BLOCK_SIZE, [size] + freeList, loans)
  {
    assert size !in freeList && size !in loans;
    assert ([size] + freeList)[1..] == freeList;
    forall i: nat | IsLoanBlock(i, size + MARKET_LOAN_BLOCK_SIZE)
      ensures i in loans || i in [size] + freeList
    {
      if i >= size {
        AlignedBlockIsBase(i, size);
      }
    }
  }

  /** The blocks added by one more step of the expansion go in front of those already added. */
  lemma NewBlocksStep(base: nat, k: nat, rest: seq<nat>)
    ensures NewBlocks(base, k + 1) + rest == [base + k * MARKET_LOAN_BLOCK_SIZE] + (NewBlocks(base, k) + rest)
    ensures base + (k + 1) * MARKET_LOAN_BLOCK_SIZE == base + k * MARKET_LOAN_BLOCK_SIZE + MARKET_LOAN_BLOCK_SIZE
  {
    assert NewBlocks(base, k + 1) == [base + k * MARKET_LOAN_BLOCK_SIZE] + NewBlocks(base, k);
  }

  /** Every field of the loan ledger, as it stands at one moment. */
  datatype LedgerState = LedgerState(loanSequenceNumber: U64, numBytesAllocated: nat, freeList: seq<nat>,
                                     loans: map<nat, ActiveLoan>, numActiveLoans: U64)

  /** `MarketLoansFixed` with its data region: loans by block offset, and the free blocks. */
  class MarketLoans {
    var loanSequenceNumber: U64
    var numBytesAllocated: nat
    var freeList: seq<nat>                // head first
    var loans: map<nat, ActiveLoan>       // the blocks holding a loan record
    var numActiveLoans: U64

    /**
     * Every block below `numBytesAllocated` is either on the free list (once) or holds a loan,
     * never both; the count of active loans is the number of loan blocks and stays within the cap.
     */
    ghost predicate Valid()
      reads this
    {
      BlocksOk(numBytesAllocated, freeList, loans)
      && numActiveLoans == |loans| <= MAX_ACTIVE_LOANS
    }

    /** `free_list_head_index`. */
    function FreeListHead(): nat
      reads this
    {
      if freeList == [] then NIL else freeList[0]
    }

    /** The whole ledger as a value. */
    function State(): (st: LedgerState)
      reads this
      ensures st.numBytesAllocated == numBytesAllocated && st.freeList == freeList && st.loans == loans
      ensures st.loanSequenceNumber == loanSequenceNumber && st.numActiveLoans == numActiveLoans
    {
      LedgerState(loanSequenceNumber, numBytesAllocated, freeList, loans, numActiveLoans)
    }

    /** Puts a saved ledger back, as the runtime reverts the account of a failed instruction. */
    method Restore(saved: LedgerState)
      modifies this
      ensures State() == saved
    {
      loanSequenceNumber, numBytesAllocated, freeList := saved.loanSequenceNumber, saved.numBytesAllocated, saved.freeList;
      loans, numActiveLoans := saved.loans, saved.numActiveLoans;
    }

    /** `MarketLoansFixed::new_empty`: no blocks, no loans, all counters zero. */
    constructor NewEmpty()
      ensures Valid()
      ensures loanSequenceNumber == 0 && numBytesAllocated == 0 && numActiveLoans == 0
      ensures FreeListHead() == NIL && loans == map[]
    {
      loanSequenceNumber := 0;
      numBytesAllocated := 0;
      freeList := [];
      loans := map[];
      numActiveLoans := 0;
    }

    /** `has_free_block`: the free-list head is not NIL, which is the free list being non-empty. */
    function HasFreeBlock(): (b: bool)
      reads this
      requires Valid()
      ensures b <==> |freeList| > 0
    {
      assert freeList != [] ==> IsLoanBlock(freeList[0], numBytesAllocated);
      FreeListHead() != NIL
    }

    /**
     * `expand_loan_account(n)`, corrected: the account grows by `n` blocks and every new block
     * goes on the free list. (As written, only the block at the old size is pushed: see
     * `ExpandAsWritten`.)
     */
    method ExpandLoanAccount(n: U32) returns (r: Outcome)
      requires Valid()
      modifies this
      ensures Valid() && r.Pass?
      ensures numBytesAllocated == old(numBytesAllocated) + n * MARKET_LOAN_BLOCK_SIZE
      ensures freeList == NewBlocks(old(numBytesAllocated), n) + old(freeList)
      ensures loans == old(loans) && numActiveLoans == old(numActiveLoans)
      ensures loanSequenceNumber == old(loanSequenceNumber)
    {
      var base, free0 := numBytesAllocated, freeList;
      var size: nat, free: seq<nat> := base, free0;
      var k: nat := 0;
      while k < n
        modifies {}
        invariant k <= n
        invariant BlocksOk(size, free, loans)
        invariant size == base + k * MARKET_LOAN_BLOCK_SIZE
        invariant free == NewBlocks(base, k) + free0
      {
        PushNewBlockOk(size, free, loans);
        NewBlocksStep(base, k, free0);
        free := [size] + free;
        size := size + MARKET_LOAN_BLOCK_SIZE;
        k := k + 1;
      }
      numBytesAllocated, freeList := size, free;
      r := Pass;
    }

    /**
     * `add_loan`: the record goes into the block at the free-list head, and the count grows by
     * one. Allocating from an empty free list panics; a full ledger fails with
     * `MaxActiveLoansExceeded` (the insertion made before that check is reverted with the
     * instruction, so nothing changes).
     */
    method AddLoan(loan: ActiveLoan) returns (r: Outcome)
      requires Valid()
      modifies this
      ensures Valid()
      ensures r.Pass? <==> |old(freeList)| > 0 && old(numActiveLoans) < MAX_ACTIVE_LOANS
      ensures |old(freeList)| == 0 ==> r == Fail(Panic)
      ensures |old(freeList)| > 0 && old(numActiveLoans) >= MAX_ACTIVE_LOANS ==> r == Fail(Nix(MaxActiveLoansExceeded))
      ensures r.Fail? ==> unchanged(this)
      ensures r.Pass? ==> loans == old(loans)[old(freeList)[0] := loan] && freeList == old(freeList)[1..]
      ensures r.Pass? ==> numActiveLoans == old(numActiveLoans) + 1
      ensures loanSequenceNumber == old(loanSequenceNumber) && numBytesAllocated == old(numBytesAllocated)
    {
      if freeList == [] {
        return Fail(Panic);
      }
      if numActiveLoans >= MAX_ACTIVE_LOANS {
        return Fail(Nix(MaxActiveLoansExceeded));
      }
      var slot := freeList[0];
      freeList := freeList[1..];
      loans := loans[slot := loan];
      numActiveLoans := numActiveLoans + 1;
      r := Pass;
    }

    /**
     * `add_loans`: fails with `MaxActiveLoansExceeded` before inserting anything when the count
     * would pass the cap; otherwise each record in turn takes the block at the free-list head and
     * the count rises by exactly the number of records. Running out of free blocks panics and
     * reverts the instruction.
     */
    method AddLoans(records: seq<ActiveLoan>) returns (r: Outcome)
      requires Valid()
      modifies this
      ensures Valid()
      ensures r.Pass? <==> old(numActiveLoans) + |records| <= MAX_ACTIVE_LOANS && |records| <= |old(freeList)|
      ensures old(numActiveLoans) + |records| > MAX_ACTIVE_LOANS ==> r == Fail(Nix(MaxActiveLoansExceeded))
      ensures old(numActiveLoans) + |records| <= MAX_ACTIVE_LOANS && |records| > |old(freeList)| ==> r == Fail(Panic)
      ensures r.Fail? ==> unchanged(this)
      ensures r.Pass? ==> numActiveLoans == old(numActiveLoans) + |records|
      ensures r.Pass? ==> freeList == old(freeList)[|records|..]
      ensures r.Pass? ==> forall k :: 0 <= k < |records| ==>
                            old(freeList)[k] in loans && loans[old(freeList)[k]] == records[k]
      ensures r.Pass? ==> forall i :: i in loans <==> i in old(loans) || i in old(freeList)[..|records|]
      ensures r.Pass? ==> forall i :: i in old(loans) ==> i in loans && loans[i] == old(loans)[i]
    {
      if numActiveLoans + |records| > MAX_ACTIVE_LOANS {
        return Fail(Nix(MaxActiveLoansExceeded));
      }
      // Running out of free blocks part-way panics and the whole instruction reverts, which is
      // the same state as failing before the first insertion.
      if |records| > |freeList| {
        return Fail(Panic);
      }
      var free0, loans0, count0 := freeList, loans, numActiveLoans;
      for k := 0 to |records|
        invariant Valid()
        invariant numBytesAllocated == old(numBytesAllocated) && loanSequenceNumber == old(loanSequenceNumber)
        invariant freeList == free0[k..]
        invariant numActiveLoans == count0 + k
        invariant FilledUpTo(loans, loans0, free0, records, k)
      {
        ghost var before := loans;
        assert freeList[0] == free0[k] && freeList[1..] == free0[k + 1..];
        assert free0[k] !in loans;
        var step := AddLoan(records[k]);
        assert step.Pass?;
        FillStep(before, loans0, free0, records, k);
      }
      r := Pass;
    }

    /**
     * `remove_loan`: finds a loan with the sequence number (which one, when several share it,
     * is up to the tree and not modelled), frees its block onto the free-list head and
     * decrements the count (wrapping). Without such a loan it fails with `InvalidFreeList`.
     */
    method RemoveLoan(sequenceNumber: U64) returns (r: Outcome, ghost removed: nat)
      requires Valid()
      modifies this
      ensures Valid()
      ensures r.Fail? <==> forall i :: i in old(loans) ==> !LoanEq(old(loans)[i], SearchLoan(sequenceNumber))
      ensures r.Fail? ==> r.error == Nix(InvalidFreeList) && unchanged(this)
      ensures r.Pass? ==> removed in old(loans) && old(loans)[removed].sequenceNumber == sequenceNumber
      ensures r.Pass? ==> loans == old(loans) - {removed} && freeList == [removed] + old(freeList)
      ensures r.Pass? ==> numActiveLoans == WrappingDecU64(old(numActiveLoans))
      ensures loanSequenceNumber == old(loanSequenceNumber) && numBytesAllocated == old(numBytesAllocated)
    {
      removed := 0;
      if !exists i :: i in loans && LoanEq(loans[i], SearchLoan(sequenceNumber)) {
        return Fail(Nix(InvalidFreeList)), removed;
      }
      var slot :| slot in loans && LoanEq(loans[slot], SearchLoan(sequenceNumber));
      removed := slot;
      assert loans.Keys == (loans - {slot}).Keys + {slot};
      loans := loans - {slot};
      freeList := [slot] + freeList;
      numActiveLoans := WrappingDecU64(numActiveLoans);
      r := Pass;
    }
  }

  /**
   * `expand_market_loans`: the payer funds `n` more blocks (the lamport transfer and the
   * reallocation are the `transfer` outcome), then the ledger grows by `n` free blocks. A failed
   * transfer changes nothing.
   */
  method ExpandMarketLoans(loans: MarketLoans, n: U32, transfer: Outcome) returns (r: Outcome)
    requires loans.Valid()
    modifies loans
    ensures loans.Valid() && r == transfer
    ensures r.Fail? ==> unchanged(loans)
    ensures r.Pass? ==> loans.freeList == NewBlocks(old(loans.numBytesAllocated), n) + old(loans.freeList)
                        && loans.numBytesAllocated == old(loans.numBytesAllocated) + n * MARKET_LOAN_BLOCK_SIZE
    ensures loans.loans == old(loans.loans) && loans.numActiveLoans == old(loans.numActiveLoans)
    ensures loans.loanSequenceNumber == old(loans.loanSequenceNumber)
  {
    if transfer.Fail? {
      return transfer;
    }
    r := loans.ExpandLoanAccount(n);
  }

  /**
   * `expand_market_loans_if_needed`: a ledger with a free block is left alone; otherwise it is
   * expanded by `n` blocks. Either way, when it passes and `n` is positive, a block is free.
   */
  method ExpandMarketLoansIfNeeded(loans: MarketLoans, n: U32, transfer: Outcome) returns (r: Outcome)
    requires loans.Valid()
    modifies loans
    ensures loans.Valid()
    ensures old(loans.freeList) != [] ==> r.Pass? && unchanged(loans)
    ensures old(loans.freeList) == [] ==> r == transfer
    ensures r.Fail? ==> unchanged(loans)
    ensures r.Pass? && n > 0 ==> loans.freeList != []
    ensures loans.loans == old(loans.loans) && loans.numActiveLoans == old(loans.numActiveLoans)
  {
    if loans.HasFreeBlock() {
      return Pass;
    }
    r := ExpandMarketLoans(loans, n, transfer);
  }

  /**
   * Records one new loan the way a cancelled bid does: the ledger grows by one block, which
   * the loan then occupies. Fails as the transfer does, or with `MaxActiveLoansExceeded` when
   * the ledger is full (which the instruction's failure reverts).
   */
  method ExpandAndAddLoan(loans: MarketLoans, loan: ActiveLoan, transfer: Outcome) returns (r: Outcome)
    requires loans.Valid()
    modifies loans
    ensures loans.Valid()
    ensures transfer.Fail? ==> r == transfer && unchanged(loans)
    ensures transfer.Pass? ==> (r.Pass? <==> old(loans.numActiveLoans) < MAX_ACTIVE_LOANS)
    ensures transfer.Pass? && r.Fail? ==> r == Fail(Nix(MaxActiveLoansExceeded))
    ensures r.Pass? ==> loans.loans == old(loans.loans)[old(loans.numBytesAllocated) := loan]
                        && loans.numActiveLoans == old(loans.numActiveLoans) + 1
  {
    ghost var loans0 := loans.loans;
    ghost var base := loans.numBytesAllocated;
    r := ExpandMarketLoans(loans, 1, transfer);
    if r.Fail? {
      return;
    }
    assert loans.freeList[0] == base;
    r := loans.AddLoans([loan]);
    if r.Pass? {
      assert loans.loans == loans0[base := loan] by {
        assert forall j :: j in loans.loans <==> j in loans0 || j == base;
      }
    }
  }

  /**
   * `ExpandAndAddLoan` inside an instruction: when it fails, the ledger it may already have
   * grown is put back, as the runtime reverts the failed instruction's accounts.
   */
  method AddLoanOrRevert(loans: MarketLoans, loan: ActiveLoan, transfer: Outcome) returns (r: Outcome)
    requires loans.Valid()
    modifies loans
    ensures loans.Valid()
    ensures r.Fail? ==> loans.State() == old(loans.State())
    ensures transfer.Fail? ==> r == transfer
    ensures transfer.Pass? ==> (r.Pass? <==> old(loans.numActiveLoans) < MAX_ACTIVE_LOANS)
    ensures transfer.Pass? && r.Fail? ==> r == Fail(Nix(MaxActiveLoansExceeded))
    ensures r.Pass? ==> loans.loans == old(loans.loans)[old(loans.numBytesAllocated) := loan]
                        && loans.numActiveLoans == old(loans.numActiveLoans) + 1
  {
    var saved := loans.State();
    r := ExpandAndAddLoan(loans, loan, transfer);
    if r.Fail? {
      loans.Restore(saved);
    }
  }

  /**
   * After a corrected expansion by `n`, every one of the `n` new blocks is free, and the next
   * `n` allocations hand them out newest first.
   */
  lemma {:induction false} ExpandedBlocksAreFree(base: nat, n: nat, k: nat)
    requires k < n
    ensures base + k * MARKET_LOAN_BLOCK_SIZE in NewBlocks(base, n)
    ensures IsLoanBlock(base + k * MARKET_LOAN_BLOCK_SIZE, base + n * MARKET_LOAN_BLOCK_SIZE) <== base % MARKET_LOAN_BLOCK_SIZE == 0
  {
    var s := NewBlocks(base, n);
    assert s[n - 1 - k] == base + k * MARKET_LOAN_BLOCK_SIZE;
    if base % MARKET_LOAN_BLOCK_SIZE == 0 {
      MulLeMul(k + 1, n, MARKET_LOAN_BLOCK_SIZE);
      assert (base + k * MARKET_LOAN_BLOCK_SIZE) % MARKET_LOAN_BLOCK_SIZE == 0 by {
        MulDivCancel(base / MARKET_LOAN_BLOCK_SIZE + k, MARKET_LOAN_BLOCK_SIZE);
        FloorBounds(base, MARKET_LOAN_BLOCK_SIZE);
      }
    }
  }
}
