# nix: a Dafny model of the lending order book

nix is a Solana program for a lending market between two tokens, base A and base B. A bid borrows base atoms at a rate in basis points. An ask lends base atoms.

A market account holds a fixed header and a data region of 112-byte blocks. Each block is one of three things:

- a trader's seat: the trader's deposit shares of both tokens;
- a resting order, on one of two trees (A and B), each with a bid and an ask side;
- a free-list node.

Matching an order turns each fill into an active loan. Loans are kept in a separate loan-ledger account of 96-byte blocks. Balances are kept as MarginFi shares in I80F48 fixed point. Collateral is priced by oracle prices, asset weights and an LTV buffer. Global orders are asks backed by a separate global account. They prepay gas, and a cleaner may collect it when the order turns out unbacked.

This project models that core:

- **Market state.** `Markets.Market` is a class whose fields are the sequence numbers and the data region. The data region (`MarketLayout.Layout`) is:
  - a map from block offset to block;
  - the free list as a stack;
  - the seat list;
  - four booksides, each kept as a sequence sorted best first.

  The methods `ClaimSeat`, `Deposit`, `PlaceOrder`, `CancelOrder`, `CancelOrderByIndex` and the tree and free-list helpers update these fields in place. Their contracts tie the new state to pure functions of the old one (`DropOrder`, `Trade`, `TradeLayout`, `Rest`) and keep the invariant `Valid()`:
  - every listed order is on its own side;
  - the booksides are sorted and have no duplicates;
  - seats are unique per trader;
  - the free list holds exactly the free blocks.
- **Loan ledger.** `Loans.MarketLoans` is a class with the ledger's free list, loan map and counters: expansion, `add_loan`, `add_loans` and `remove_loan`.
- **Orders, seats, quantities and shares.** These are value types:
  - `RestingOrder` and its reductions;
  - `ClaimedSeat` and `ActiveLoan`, with their orderings;
  - `WrappedI80F48` as its 16 little-endian bytes;
  - the MarginFi share conversions and the collateral formula.
- **Guards and global tokens** (`utils.rs`): the `assert_*` checks, `try_to_move_global_tokens`, `remove_from_global` and `remove_from_global_core`.
- **Instruction handling.**
  - The entrypoint's dispatch on the instruction tag.
  - The cancel-order handler.
  - The shared processor helpers: the trader index hint, expanding the market and the ledger, and `expand_dynamic`'s rent arithmetic.
  - The account checkers for Solana accounts, token accounts and this program's accounts.
  - The MarginFi CPI instruction data and `hex_to_bytes`.

Everything outside the program is a parameter: clocks, oracle prices, MarginFi banks, token transfers, rent, and each cross-program call's success or failure. A failed instruction leaves every account as it was, as the runtime guarantees. The methods that model a whole instruction state that as rollback. `PlaceOrder` puts back the data region and the global accounts it saved on entry (`SetData`, `RestoreGlobal`). The cancel methods (`CancelOrderByIndex`, `CancelOrder`, `CancelByHint`, `ProcessCancelOrderCore`) put back a loan ledger grown before a failure (`MarketLoans.Restore`). Each states that a failure leaves the market, the loan ledger, the global account and the payer as they were. A Rust panic is the error `Panic`. It aborts the transaction just as an error does. Integer arithmetic written without `checked_` is modelled as panicking on overflow, which assumes the program is built with overflow checks on.

Where the behaviour described for the system and the code differ, the model follows the code:

- Cancelling an order that does not exist, or that belongs to someone else, fails with `InvalidCancel`; it is not a silent no-op.
- A global maker can be partly filled whenever its deposit covers the fill.
- Orders at one rate are not ordered by time: the comparator looks only at the rate.
- `validate_solana_program_accounts` reports a wrong system program with `IllegalOwner`.
- `assert_already_has_seat` reports a missing seat with `AlreadyClaimedSeat`.

## Model

| member | source | states |
|---|---|---|
| Errors.Code | programs/nix/src/program/error.rs:8-99 | each error's code is below 45 and decodes back to that error, so the codes are one per error |
| Errors.FromNixError | programs/nix/src/program/error.rs:101-105 | an error becomes `Custom` with a code below 45 that decodes back to it |
| Errors.FromNixErrorInjective | programs/nix/src/program/error.rs:101-105 | distinct errors reach the client as distinct custom codes |
| Errors.Require | programs/nix/src/program/error.rs:107-120 | `require!` passes exactly when its test holds and otherwise fails with the given error |
| Constants.MaxGlobalSeats | programs/nix/src/state/constants.rs:46-62 | the global seat limit is 4 in test builds and 3000 otherwise |
| Constants.BlockLayout | programs/nix/src/state/constants.rs:7-30 | each block size splits into tree overhead plus payload, and into a free-list link plus the rest |
| Quantities.WrapRoundTrip | programs/nix/src/quantities.rs:48-60 | unwrapping a wrapped value gives the value back |
| Quantities.UnwrapRoundTrip | programs/nix/src/quantities.rs:48-60 | wrapping an unwrapped byte array gives the bytes back |
| Quantities.WrapInjective | programs/nix/src/quantities.rs:62-66 | equality of wrapped values is equality of the numbers |
| Quantities.ZeroIsZero | programs/nix/src/quantities.rs:27 | `ZERO` is the wrapping of 0 |
| Quantities.CheckedAdd | programs/nix/src/quantities.rs:29-37 | the exact sum when it is in the I80F48 range, None otherwise |
| Quantities.CheckedSub | programs/nix/src/quantities.rs:38-46 | the exact difference when it is in range, None otherwise |
| Quantities.ToU64 | programs/nix/src/quantities.rs:76-81 | the floor of the value when it fits in a u64; a panic otherwise |
| Quantities.U64RoundTrip | programs/nix/src/quantities.rs:70-81 | u64 to wrapped and back is the identity |
| Quantities.DerivedOrderIsNotNumeric | programs/nix/src/quantities.rs:8-25 | the derived byte-wise ordering puts the wrapping of 256 below that of 1 |
| Shares.TokensToAssetShares | programs/nix/src/marginfi_utils.rs:693-700 | the tokens divided by the asset share value, rounded down; a zero share value or an overflow fails with `NumericalOverflow` |
| Shares.AssetSharesToTokens | programs/nix/src/marginfi_utils.rs:702-712 | the whole tokens the shares are worth, rounded down; `NumericalOverflow` or a panic outside u64 |
| Shares.TokenAmountToRepay | programs/nix/src/marginfi_utils.rs:761-780 | the debt of liability shares, rounded up to whole tokens |
| Shares.TokensToLiabilityShares | programs/nix/src/marginfi_utils.rs:783-794 | the tokens divided by the liability share value, rounded down; a zero share value or an overflow fails with `NumericalOverflow` |
| Shares.AssetSharesRoundTripNeverGains | programs/nix/src/marginfi_utils.rs:693-712 | converting tokens to asset shares and back never yields more tokens |
| Shares.RepayMonotone | programs/nix/src/marginfi_utils.rs:761-780 | more liability shares never need fewer tokens to repay |
| Shares.Exp10 | programs/nix/src/marginfi_utils.rs:732 | the power-of-ten table entry for a mint's decimals; an index past the table panics |
| Shares.RequiredQuoteCollateral | programs/nix/src/marginfi_utils.rs:714-758 | the collateral for a loan of base atoms is the oracle formula's value rounded up to whole tokens; a failure is `NumericalOverflow` or a panic |
| Shares.CollateralMonotone | programs/nix/src/marginfi_utils.rs:714-758 | a smaller loan never needs more collateral, and never fails where a larger one succeeds |
| Shares.CollateralOfNothing | programs/nix/src/marginfi_utils.rs:714-758 | a loan of zero atoms needs zero collateral |
| Hex.HexDigit | programs/nix/src/marginfi_utils.rs:71-82 | the value of a hex digit in either case; None for any other byte |
| Hex.HexToBytes | programs/nix/src/marginfi_utils.rs:71-82 | each pair of hex digits becomes a byte; an odd length or a non-hex byte panics |
| Hex.HexRoundTrip | programs/nix/src/marginfi_utils.rs:71-82 | decoding the hex text of any bytes gives the bytes back |
| CpiData.Discriminator | programs/nix/src/marginfi_utils.rs:34-46 | each lending call has its eight-byte Anchor discriminator |
| CpiData.InstructionData | programs/nix/src/marginfi_utils.rs:49-69 | a call's data is its discriminator followed by the Borsh encoding of its arguments |
| CpiData.DepositData | programs/nix/src/marginfi_utils.rs:212-221 | a deposit's data reads back as that deposit |
| CpiData.DepositPlaceOrderData | programs/nix/src/marginfi_utils.rs:274-283 | the deposit made while placing an order reads back as a deposit of the whole balance with no flag |
| CpiData.BorrowData | programs/nix/src/marginfi_utils.rs:361-366 | a borrow's data reads back as that borrow |
| CpiData.WithdrawData | programs/nix/src/marginfi_utils.rs:499-511 | a withdraw's data reads back as that withdraw, under the withdraw discriminator |
| CpiData.RepayData | programs/nix/src/marginfi_utils.rs:625-635 | a repay's data reads back as a repay of the whole balance, under the repay discriminator |
| CpiData.DataRoundTrip | programs/nix/src/marginfi_utils.rs:34-69 | the data of every call parses back to that call, so no two calls share data |
| Seats.NewEmptySeat | programs/nix/src/state/claimed_seat.rs:39-46 | a new seat holds the trader's key and zero balances |
| Seats.SeatOrderIsTotal | programs/nix/src/state/claimed_seat.rs:48-66 | seats compare by trader key: comparing equal is having the same trader, and swapping the operands swaps less and greater |
| Seats.SeatOrderIsTransitive | programs/nix/src/state/claimed_seat.rs:48-66 | the seat order is transitive, both strictly and with equality allowed; with `SeatOrderIsTotal` it is a total order |
| Orders.OrderTypeCode | programs/nix/src/state/resting_order.rs:44-65 | each order type's byte value is below 6 and decodes back to that type |
| Orders.OrderTypeCapabilities | programs/nix/src/state/resting_order.rs:25-31 | only immediate-or-cancel cannot rest; only post-only and global cannot take; each type can do one of the two |
| Orders.NewOrder | programs/nix/src/state/resting_order.rs:100-133 | the order holds exactly the given fields; a reverse order with an expiry panics |
| Orders.ExpiryIsPermanent | programs/nix/src/state/resting_order.rs:140-142 | once expired an order stays expired; an order with no last valid slot never expires |
| Orders.NumBaseAtoms | programs/nix/src/state/resting_order.rs:167-177 | a bid's size is its liability debt rounded up; an ask's is its collateral's worth rounded down |
| Orders.ReduceBid | programs/nix/src/state/resting_order.rs:186-210 | both share balances of a bid drop by the traded amounts in shares; on an ask it fails with `InvalidArgument` |
| Orders.ReduceAsk | programs/nix/src/state/resting_order.rs:211-222 | an ask's collateral drops by the traded base in shares and its liability becomes zero; on a bid it fails |
| Orders.SetOrderType | programs/nix/src/state/resting_order.rs:182-185 | only the order type changes |
| Orders.CmpIsRankOrder | programs/nix/src/state/resting_order.rs:225-237 | within a side, the comparator orders by rate (bids higher first, asks lower first) and ignores age |
| Orders.OrderEqMeans | programs/nix/src/state/resting_order.rs:245-259 | equal orders share trader and type; outside reverse orders they share the exact rate |
| Orders.ReverseEqIsNotTransitive | programs/nix/src/state/resting_order.rs:245-259 | the rate tolerance makes reverse-order equality intransitive |
| Loans.NewEmptyLoan | programs/nix/src/state/market_loan.rs:174-200 | a new active loan has sequence number 0 and exactly the given fields |
| Loans.LoanOrderIsBySequenceNumber | programs/nix/src/state/market_loan.rs:151-166 | loans compare only by sequence number |
| Loans.NewLoansAllCompareEqual | programs/nix/src/state/market_loan.rs:151-200 | every loan made by `new_empty` compares equal to every other |
| Loans.MarketLoans.NewEmpty | programs/nix/src/state/market_loan.rs:114-125 | a new ledger has no blocks, no loans and zero counters |
| Loans.MarketLoans.HasFreeBlock | programs/nix/src/state/market_loan.rs:126-128 | true exactly when the free list is non-empty |
| Loans.ExpandAsWritten | programs/nix/src/state/market_loan.rs:227-236 | as written: the size grows by n blocks but only the block at the old size is freed |
| Loans.ExpandAsWrittenBreaksFreeList | programs/nix/src/state/market_loan.rs:227-236 | expanding by two as written strands a block; expanding by zero twice frees one block twice |
| Loans.MarketLoans.ExpandLoanAccount | programs/nix/src/state/market_loan.rs:227-236 | corrected: the ledger grows by n blocks and all of them join the free list, keeping `Valid` |
| Loans.ExpandedBlocksAreFree | programs/nix/src/state/market_loan.rs:227-236 | after a corrected expansion the n new blocks are free and are handed out newest first |
| Loans.MarketLoans.AddLoan | programs/nix/src/state/market_loan.rs:238-258 | the loan fills the free-list head and the count rises by one; a full ledger fails with `MaxActiveLoansExceeded` |
| Loans.MarketLoans.AddLoans | programs/nix/src/state/market_loan.rs:261-282 | the cap is checked first; then each loan takes the next free block and the count rises by the number added |
| Loans.MarketLoans.RemoveLoan | programs/nix/src/state/market_loan.rs:285-320 | a loan with that sequence number is removed and its block freed; with none it fails with `InvalidFreeList` |
| Loans.ExpandMarketLoans | programs/nix/src/program/processor/shared.rs:37-45 | after a successful transfer the ledger grows by n free blocks; a failed transfer changes nothing |
| Loans.ExpandMarketLoansIfNeeded | programs/nix/src/program/processor/shared.rs:19-34 | a ledger with a free block is untouched; on success with n > 0 a block is free |
| Loans.ExpandAndAddLoan | programs/nix/src/state/market.rs:1389-1408 | a cancelled bid's loan goes into one newly grown block, or the call fails as the transfer or the cap does |
| Loans.AddLoanOrRevert | programs/nix/src/state/market.rs:1389-1408 | as `ExpandAndAddLoan`, and a failure leaves the whole ledger as it was, as the runtime's revert of the failed instruction does |
| Matching.ShouldUpdateBaseA | programs/nix/src/state/market.rs:1786-1797 | which balance a side uses: A-tree asks and B-tree bids use base A |
| Matching.AskRefundSideAsWritten | programs/nix/src/state/market.rs:1714-1757 | as written: an ask is refunded into `should_update_base_a(tree, false)` |
| Matching.AskRefundAsWrittenMovesShares | programs/nix/src/state/market.rs:1409-1418 | as written: resting then cancelling an A-tree ask moves a share from base B to base A |
| Matching.AskRefundSide | programs/nix/src/state/market.rs:1714-1757 | corrected: the refund goes to the balance the ask was debited from |
| Matching.AskRestThenRefund | programs/nix/src/state/market.rs:1206-1296 | resting and then cancelling a non-global ask restores the trader's seat exactly |
| Matching.UpdatedSeat | programs/nix/src/state/market.rs:1534-1582 | exactly the selected balance moves; an overdraw fails with `InsufficientFunds` |
| Matching.DecreaseThenIncrease | programs/nix/src/state/market.rs:1534-1582 | taking shares out and putting them back restores the seat |
| Matching.SettleTaker | programs/nix/src/state/market.rs:828-860 | the taker pays from `should_update_base_a(tree, !is_bid)`; a non-reverse bid receives the base on the other balance |
| Matching.BufferF | programs/nix/src/state/market.rs:672-674 | the LTV buffer factor (10000 - bps)/10000, rounded down, between 0 and 1 |
| Matching.BufferBounds | programs/nix/src/state/market.rs:672-674 | for a buffer of at most 10000 bps the factor is between 0 and 1 and is (10000 - bps)/10000 rounded down |
| Matching.ReverseRateAsWritten | programs/nix/src/state/market.rs:1093-1096 | as written: a spread above 10000 panics; otherwise the order fails with `NumericalOverflow` exactly when rate × (10000 − spread) is 65536 or more (for 7 bps, any spread of at most 637 bps) |
| Matching.ReverseRateAsWrittenOverflows | programs/nix/src/state/market.rs:1093-1096 | every reverse order of at least 10 bps with a spread of at most 30% fails with `NumericalOverflow` |
| Matching.ReverseRate | programs/nix/src/state/market.rs:1093-1096 | corrected: the rate times (1 - spread), rounded down and computed wide; never above the rate |
| Matching.ReverseRateBounds | programs/nix/src/state/market.rs:1093-1096 | the reverse rate is the rounded-down quotient, never above the rate, and equal to it at zero spread |
| Matching.ReverseRateExample | programs/nix/src/state/market.rs:1093-1096 | 500 bps with a 50 bps spread gives 497 bps |
| Matching.ReverseSide | programs/nix/src/state/market.rs:1101-1140 | corrected: the reverse order goes to the other tree and the other side |
| Matching.FillSize | programs/nix/src/state/market.rs:744-750 | a fill is the smaller of what the taker wants and what the maker holds; full exactly when the maker is exhausted |
| MarketLayout.FindSeat | programs/nix/src/state/market.rs:517-525 | the first seat block of the trader, if any |
| MarketLayout.Expand | programs/nix/src/state/market.rs:553-563 | the block at the old size goes onto the free-list head |
| MarketLayout.ExpandValid | programs/nix/src/state/market.rs:553-563 | expansion keeps the data region well formed |
| MarketLayout.Claim | programs/nix/src/state/market.rs:564-584 | the free-list head becomes an empty seat of the trader |
| MarketLayout.ClaimValid | programs/nix/src/state/market.rs:564-584 | claiming a seat for a trader without one keeps the data region well formed |
| MarketLayout.RemoveOrder | programs/nix/src/state/market.rs:1518-1532 | the order leaves its bookside and its block goes onto the free-list head |
| MarketLayout.RemoveOrderValid | programs/nix/src/state/market.rs:1518-1532 | removing a listed order keeps the data region well formed |
| MarketLayout.Without | programs/nix/src/state/market.rs:1430-1516 | the bookside without the block, in the same order |
| MarketLayout.InsertByRank | programs/nix/src/state/market.rs:1602-1689 | the block is inserted after every entry ranked at least as high |
| MarketLayout.InsertPosition | programs/nix/src/state/market.rs:1602-1689 | an inserted order follows every order ranked at least as high and precedes every lower one |
| MarketLayout.RestAt | programs/nix/src/state/market.rs:1602-1689 | the free-list head holds the order and joins the named bookside by rank |
| MarketLayout.Rest | programs/nix/src/state/market.rs:1276-1287 | an order rests on the bookside of its own tree and side |
| MarketLayout.RestValid | programs/nix/src/state/market.rs:1602-1689 | resting an order on its own side keeps the data region well formed |
| MarketLayout.MisplacedOrderBreaksBook | programs/nix/src/state/market.rs:1133-1140 | as written: inserting an order into a bookside of another tree or side breaks that bookside |
| MarketLayout.NoCrossBeyondHead | programs/nix/src/state/market.rs:730-735 | once the best opposite order does not cross the limit, none does, so the loop may stop |
| MarketLayout.ReleaseThenAllocate | programs/nix/src/state/market_helpers.rs:6-33 | the free list is a stack: a released block is the next one handed out |
| MarketLayout.RestLeavesOtherBooks | programs/nix/src/state/market.rs:1602-1689 | resting an order leaves every other bookside and its orders as they were |
| Markets.Market.NewEmpty | programs/nix/src/state/market.rs:313-385 | no blocks, no seats, empty booksides with NIL best indexes, both sequence numbers 0 |
| Markets.Market.HasFreeBlock | programs/nix/src/state/market.rs:501-506 | true exactly when the free list is non-empty |
| Markets.Market.GetTraderIndex | programs/nix/src/state/market.rs:517-525 | the trader's seat block, or NIL exactly when the trader has no seat |
| Markets.Market.GetTreeIndexes | programs/nix/src/state/market.rs:1759-1784 | each side's best index, NIL when empty; the best bid has the highest rate and the best ask the lowest |
| Markets.HeadIsBest | programs/nix/src/state/market.rs:1759-1784 | a bookside's head has the best rate on its side |
| Markets.Market.MarketExpand | programs/nix/src/state/market.rs:553-563 | one more free block at the old size; u32 overflow panics |
| Markets.Market.Allocate | programs/nix/src/state/market_helpers.rs:6-22 | pops the free-list head; an empty list panics |
| Markets.Market.Release | programs/nix/src/state/market_helpers.rs:24-70 | the block becomes the new free-list head |
| Markets.Market.ClaimSeat | programs/nix/src/state/market.rs:564-584 | the trader gains a seat that `get_trader_index` finds; a second claim fails with `AlreadyClaimedSeat` and changes nothing |
| Markets.Market.UpdateBalance | programs/nix/src/state/market.rs:1534-1582 | one balance of the seat moves as `UpdatedSeat` says; on failure nothing changes |
| Markets.Market.Deposit | programs/nix/src/state/market.rs:585-611 | the seat's chosen balance grows by the shares; NIL fails with `InvalidDepositAccounts` |
| Markets.Market.RemoveOrderFromTree | programs/nix/src/state/market.rs:1430-1516 | only the named bookside changes: the order leaves it, the rest keeps its order |
| Markets.Market.RemoveOrderFromTreeAndFree | programs/nix/src/state/market.rs:1518-1532 | the data region becomes `RemoveOrder` of the old one |
| Markets.Market.InsertOrderIntoTree | programs/nix/src/state/market.rs:1602-1689 | the allocated block holds the order, ranked into the named bookside |
| Markets.Market.RestOrder | programs/nix/src/state/market.rs:1276-1287 | the order rests on its own side in the free-list head's block; `Valid` is kept |
| Markets.DropOrder | programs/nix/src/state/market.rs:1714-1757 | corrected (see Findings, market.rs:1409-1418): a dropped order leaves its book and frees its block; a non-global ask's collateral returns to its owner, into the balance it was debited from |
| Markets.DropOrderValid | programs/nix/src/state/market.rs:1714-1757 | corrected (see Findings, market.rs:1409-1418): dropping keeps the data region well formed and the other orders of the bookside in order, and refunds exactly the collateral |
| Markets.DropOrderKeepsOrders | programs/nix/src/state/market.rs:1714-1757 | dropping one order leaves every other order block exactly as it was |
| Markets.Market.RemoveAndUpdateBalances | programs/nix/src/state/market.rs:1714-1757 | corrected (see Findings, market.rs:1409-1418): the data region becomes `DropOrder` of the old one; a global bid fails; a failure changes nothing |
| Markets.Market.DropHead | programs/nix/src/state/market.rs:710-725 | corrected (see Findings, market.rs:1409-1418): removing the best order of a bookside is `DropOrder` of the old data region: the bookside loses its head, `Valid` holds and seats stay in place |
| Markets.Market.CancelOrderByIndex | programs/nix/src/state/market.rs:1369-1423 | corrected (see Findings, market.rs:1409-1418): global bids cannot be cancelled; a global ask refunds gas; a bid becomes a loan in the ledger, or fails with `MaxActiveLoansExceeded` on a full one; the order is dropped as `DropOrder` says; a failure leaves the market, the ledger, the global account and the payer as they were |
| Markets.Matches | programs/nix/src/state/market.rs:1297-1367 | the blocks of a bookside carrying the sequence number, in bookside order |
| Markets.Market.ScanSide | programs/nix/src/state/market.rs:1310-1350 | one side's scan finds the matches so far, failing with `InvalidCancel` on a foreign order or a second match |
| Markets.Market.CancelOrder | programs/nix/src/state/market.rs:1297-1367 | corrected (see Findings, market.rs:1409-1418): exactly one matching order owned by the trader is cancelled by index; otherwise `InvalidCancel`; a failure leaves the market, the ledger, the global account and the payer as they were |
| Markets.AddFill | programs/nix/src/state/market.rs:802-822 | the running totals grow by the fill with checked sums; global totals only for a global maker |
| Markets.FillLoan | programs/nix/src/state/market.rs:927-950 | the loan a full fill creates: the bidder borrows the base from the asker at the maker's rate, backed by the quote |
| Markets.TradeLayout | programs/nix/src/state/market.rs:828-976 | the taker settles; a fully filled maker leaves the book and is freed; a partly filled one is reduced in place |
| Markets.TradeLayoutValid | programs/nix/src/state/market.rs:828-976 | a fill keeps the data region well formed and the taker seated; a full fill removes exactly the head |
| Markets.Trade | programs/nix/src/state/market.rs:802-976 | a whole fill: totals, shares, data region and the new loan |
| Markets.TradeValid | programs/nix/src/state/market.rs:802-976 | traded plus remaining stays the order size, and every loan respects the taker's limit rate |
| Markets.Market.BackGlobalMaker | programs/nix/src/state/market.rs:771-800 | corrected (see Findings, market.rs:1409-1418): a global maker whose deposit backs the fill leaves the market untouched; one whose deposit cannot is dropped as `DropOrder` says and its bookside loses its head |
| Markets.Market.FillHead | programs/nix/src/state/market.rs:740-800 | a crossing live maker is filled by `FillSize`, priced by the collateral formula; an unbacked global maker is dropped |
| Markets.Market.TradeHead | programs/nix/src/state/market.rs:802-976 | the market's data region after one fill is `Trade` of the old one |
| Markets.Market.DropLapsed | programs/nix/src/state/market.rs:691-735 | corrected (see Findings, market.rs:1409-1418): an expired or empty maker is dropped; a bid one first becomes a loan at rate 0 |
| Markets.Market.MeetHead | programs/nix/src/state/market.rs:732-977 | a live head that does not cross the limit ends matching with nothing opposite crossing; a crossing one stops a taker that may not take with `PostOnlyCrosses` and changes nothing, and otherwise trades; matching goes on only after the head left its bookside |
| Markets.Market.MatchStep | programs/nix/src/state/market.rs:687-977 | one turn of the loop: a lapsed head is dropped, a live one is met; for a taker that may not take, only lapsed orders ever leave the opposite bookside, and a live crossing head fails with `PostOnlyCrosses` |
| Markets.NoLiveCrossFromRemaining | programs/nix/src/state/market.rs:686-753 | when only lapsed orders have left the opposite bookside and none left on it crosses, no live order of the original bookside crossed |
| Markets.Market.MatchLoop | programs/nix/src/state/market.rs:686-977 | matching keeps `Valid` and the taker seated; traded plus remaining is the order size, every loan respects the limit rate, and it stops only when the order is filled or no opposite order crosses; a post-only or global order succeeds only when no live opposite order of the old book crosses its limit (`NoLiveCross`), and fails with `PostOnlyCrosses` when the best live one does |
| Markets.NextSequenceNumber | programs/nix/src/state/market.rs:992-1000 | one more, wrapping to 0 after the largest u64 |
| Markets.Market.BumpSequenceNumber | programs/nix/src/state/market.rs:992-1000 | only the named tree's sequence number moves, to `NextSequenceNumber` |
| Markets.RestShares | programs/nix/src/state/market.rs:1154-1194 | a resting bid owes its base and is backed by the required collateral; an ask holds its base |
| Markets.Market.RestRemaining | programs/nix/src/state/market.rs:1206-1296 | the remainder rests as the trader's order on its own side; the rest side's balance pays; a global ask needs the global accounts |
| Markets.Market.RestReverse | programs/nix/src/state/market.rs:1091-1153 | corrected: the received base rests as an ask at `ReverseRate`, on the other tree's ask side, with that tree's next sequence number |
| Markets.Market.RestAfterMatch | programs/nix/src/state/market.rs:1013-1204 | a failed lending-pool call is the error; otherwise the rested order is the trader's and listed on its side, and any order but a reverse bid rests at its own rate, type, side, tree and the bumped sequence number; the taker's tree keeps its sequence number and a book that nothing crossed still has nothing crossing |
| Markets.Market.PlaceOrderCore | programs/nix/src/state/market.rs:612-1205 | the guards' errors in the code's order; on success the tree's sequence number is bumped, no more than the order size is traded, the order is filled or nothing opposite crosses, and a rested order is the trader's, listed on its own side; a post-only or global order that passes the guards fails with `PostOnlyCrosses` when the best live opposite order crosses, and succeeds only when no live one does |
| Markets.Market.PlaceOrder | programs/nix/src/state/market.rs:612-1205 | as `PlaceOrderCore`, including the post-only promise, and a failure leaves the market and the global accounts exactly as they were |
| Guards.AssertNotAlreadyExpired | programs/nix/src/utils.rs:217-226 | an order passes when it never expires or its last slot is ahead; otherwise `AlreadyExpired` |
| Guards.AcceptedOrdersAreLive | programs/nix/src/utils.rs:217-226 | an accepted order is not expired in the slot it was placed |
| Guards.AssertValidOrderType | programs/nix/src/utils.rs:228-236 | global bids and reverse asks are rejected with their own errors; all else passes |
| Guards.AssertAlreadyHasSeat | programs/nix/src/utils.rs:237-244 | passes exactly when the index is not NIL |
| Guards.AssertCanTake | programs/nix/src/utils.rs:125-132 | a type that may not take fails with `PostOnlyCrosses` |
| Guards.CanTakeRejectsExactlyMakerOnlyTypes | programs/nix/src/utils.rs:125-132 | exactly post-only and global orders are rejected |
| Guards.MoveGlobalAsWritten | programs/nix/src/utils.rs:270-318 | as written: the deposit is reduced before the fee and hook checks that return false |
| Guards.MoveGlobalAsWrittenLosesDeposit | programs/nix/src/utils.rs:289-318 | as written: a fee-bearing mint leaves the maker's deposit reduced by 10 while no tokens move |
| Guards.MoveGlobal | programs/nix/src/utils.rs:270-318 | corrected: an unbacked or blocked order leaves the deposit intact; a backed one reduces it by exactly the fill |
| Guards.TryToMoveGlobalTokens | programs/nix/src/utils.rs:246-358 | missing global accounts fail with `MissingGlobal`; otherwise the deposit becomes `MoveGlobal`'s and nothing else changes |
| Guards.RemoveFromGlobalCore | programs/nix/src/utils.rs:156-166 | with a system program the gas prepayment moves to the receiver and the lamport total is kept |
| Guards.RemoveFromGlobal | programs/nix/src/utils.rs:134-155 | without global accounts nothing changes; otherwise it is `remove_from_global_core` |
| Shared.VerifyTraderIndexHint | programs/nix/src/program/processor/shared.rs:154-182 | passes exactly for an aligned block holding the payer's seat; past the end it panics; else `WrongIndexHintParams` |
| Shared.GetTraderIndexWithHint | programs/nix/src/program/processor/shared.rs:139-152 | without a hint the lookup (NIL when there is no seat); with one, the verified hint or its error |
| Shared.HintAgreesWithLookup | programs/nix/src/program/processor/shared.rs:139-182 | a verified hint equals the lookup's answer |
| Shared.ExpandDynamic | programs/nix/src/program/processor/shared.rs:71-107 | the new size is one block more; the top-up brings the old minimum balance up to the new one |
| Shared.ExpandGlobal | programs/nix/src/program/processor/shared.rs:200-209 | a global account grows by two global blocks and is kept rent-exempt |
| Shared.ExpandGlobalTopUpIsOneStep | programs/nix/src/program/processor/shared.rs:200-209 | with a rent that does not fall, the two top-ups equal one top-up over both blocks |
| Shared.ExpandMarketIfNeeded | programs/nix/src/program/processor/shared.rs:47-61 | a free block exists afterwards unless it fails; otherwise the market grows by `Expand` and the account length by one block |
| Shared.SplitDynamic | programs/nix/src/program/processor/shared.rs:116-125 | the header and the data region concatenate to the data; short data panics |
| CancelOrderProcessor.CheckCancelHintAsWritten | programs/nix/src/program/processor/cancel_order.rs:71-103 | as written: alignment, an order block, the trader and the sequence number, each `WrongIndexHintParams` |
| CancelOrderProcessor.CancelHintAsWrittenAcceptsOtherTree | programs/nix/src/program/processor/cancel_order.rs:71-112 | as written: a valid market's B-tree order passes the hint checks for an A-tree cancel |
| CancelOrderProcessor.CheckCancelHint | programs/nix/src/program/processor/cancel_order.rs:71-103 | corrected: the as-written checks plus the order being on the named tree |
| CancelOrderProcessor.CheckedHintIsOnBook | programs/nix/src/program/processor/cancel_order.rs:71-112 | an order that passes the corrected checks is listed on a bookside of the named tree |
| CancelOrderProcessor.CancelByHint | programs/nix/src/program/processor/cancel_order.rs:71-112 | corrected (see Findings, cancel_order.rs:71-112 and market.rs:1409-1418): a failed check is the result; on success the order is dropped as `DropOrder` says; a failure leaves the market, the ledger, the global account and the payer as they were |
| CancelOrderProcessor.ProcessCancelOrderCore | programs/nix/src/program/processor/cancel_order.rs:31-120 | corrected (see Findings, cancel_order.rs:71-112 and market.rs:1409-1418): the seat from the hint or the lookup; scan or hinted cancel; logged exactly when it succeeds; a failure leaves the market, the ledger, the global account and the payer as they were |
| Instructions.Tag | programs/nix/src/program/instruction.rs:5-119 | the nine instructions have the tags 0..8 |
| Instructions.TryFrom | programs/nix/src/program/instruction.rs:5-119 | a byte names an instruction exactly when it is below 9, and that instruction's tag is the byte |
| Instructions.ToVec | programs/nix/src/program/instruction.rs:121-125 | the encoding is the one tag byte |
| Instructions.ToVecRoundTrip | programs/nix/src/program/instruction.rs:5-125 | decoding an encoded instruction gives it back |
| Instructions.TagsAreDense | programs/nix/src/program/instruction.rs:5-119 | every byte below 9 is some instruction's tag |
| Entrypoint.ProcessInstruction | programs/nix/src/lib.rs:22-66 | empty data fails with `InvalidInstructionData` and an unknown tag with `InvalidAccountData`; otherwise the tag's handler runs on the rest |
| Entrypoint.DispatchesEncoded | programs/nix/src/lib.rs:22-66 | an encoded instruction followed by arguments runs exactly that handler on those arguments |
| SolanaCheckers.ProgramIdsDistinct | programs/nix/src/validation/solana_checkers.rs:143-163 | the system, token and token-2022 program ids are distinct |
| SolanaCheckers.ProgramNew | programs/nix/src/validation/solana_checkers.rs:13-23 | passes exactly for the expected id; else `IncorrectProgramId` |
| SolanaCheckers.TokenProgramNew | programs/nix/src/validation/solana_checkers.rs:38-46 | any failure is `IncorrectProgramId` |
| SolanaCheckers.TokenProgramIsEitherProgram | programs/nix/src/validation/solana_checkers.rs:38-46 | passes exactly for one of the two token program ids, never the system program |
| SolanaCheckers.SignerNew | programs/nix/src/validation/solana_checkers.rs:69-76 | passes exactly for a signer; else `MissingRequiredSignature` |
| SolanaCheckers.ValidateWritable | programs/nix/src/validation/solana_checkers.rs:134-141 | passes exactly for a writable account; else `InvalidAccountData` |
| SolanaCheckers.SignerNewPayer | programs/nix/src/validation/solana_checkers.rs:78-90 | not writable fails with `InvalidInstructionData`, then not a signer with `MissingRequiredSignature` |
| SolanaCheckers.PayerIsWritableSigner | programs/nix/src/validation/solana_checkers.rs:69-90 | a payer passes exactly when it is writable and a signer |
| SolanaCheckers.EmptyAccountNew | programs/nix/src/validation/solana_checkers.rs:113-125 | passes exactly for no data and the system owner; data is checked first |
| SolanaCheckers.ValidateSolanaProgramAccounts | programs/nix/src/validation/solana_checkers.rs:143-163 | passes exactly for the three right ids; a wrong system program is `IllegalOwner`, the others `IncorrectProgramId` |
| TokenCheckers.GetOwner | programs/nix/src/validation/token_checkers.rs:88-94 | bytes 32..64; short data panics |
| TokenCheckers.GetBalance | programs/nix/src/validation/token_checkers.rs:96-102 | the little-endian u64 at bytes 64..72; short data panics |
| TokenCheckers.TokenAccountNew | programs/nix/src/validation/token_checkers.rs:70-86 | passes exactly for a token-program account whose first 32 bytes are the mint, with each failure's own error |
| TokenCheckers.TokenAccountNewWithOwner | programs/nix/src/validation/token_checkers.rs:104-117 | passes exactly when `new` passes and the owner bytes match; a wrong owner is `IllegalOwner` |
| TokenCheckers.TokenAccountNewWithOwnerAndKey | programs/nix/src/validation/token_checkers.rs:119-132 | the key is checked first (`InvalidInstructionData`), then as `new_with_owner` |
| TokenCheckers.ValidateMarketMint | programs/nix/src/validation/token_checkers.rs:149-159 | passes exactly for a token-program mint that is one of the market's two mints |
| TokenCheckers.TokenAccountRoundTrip | programs/nix/src/validation/token_checkers.rs:70-117 | an account built from a mint, an owner and an amount passes the checks and reads back owner and amount |
| NixCheckers.VerifyOwnedByNix | programs/nix/src/validation/nix_checkers.rs:75-84 | passes exactly for this program as owner; else `IllegalOwner` |
| NixCheckers.VerifyUninitialized | programs/nix/src/validation/nix_checkers.rs:86-107 | passes exactly for header-sized all-zero data; else `InvalidAccountData` |
| NixCheckers.NixAccountNew | programs/nix/src/validation/nix_checkers.rs:20-34 | owner first, then short data panics, then the discriminant must match (`InvalidAccountData`) |
| NixCheckers.NixAccountNewInit | programs/nix/src/validation/nix_checkers.rs:36-45 | owner first, then `verify_uninitialized` |
| NixCheckers.UninitializedIsNotInitialized | programs/nix/src/validation/nix_checkers.rs:20-45 | an account fit for `new_init` fails `new` for any non-zero discriminant |

## Left out

- The hypertree red-black trees are not modelled node by node. A bookside is a sequence sorted best first, the seat tree is a list of seat blocks, and the loan ledger is a map from block to loan. Balancing, colours and parent links are left out.
- Within a rate, the model inserts a new order behind equal-rate orders. The comparator ignores age, so the tree's placement of ties is not pinned down.
- Block payload-type bytes are not modelled. A block is one of seat, order or free. A freed block that still carries a stale order type byte is therefore not represented, and neither is the hint check that reads that byte.
- Cross-program calls are each one outcome parameter, and their accounts are not modelled. This covers MarginFi deposit, borrow, withdraw and repay, token transfers, the system transfer and reallocation. The MarginFi banks' share values, asset weights and oracle prices are inputs.
- Rent's minimum balance is a function parameter: its formula is floating point.
- The clock's slot, timestamp and epoch are parameters.
- Account discriminants are parameters. They are hashes of type names, and SHA-256 is not modelled.
- Logs are left out except `CancelOrderLog`. `emit_stack` is assumed to succeed.
- The per-trader volume counters are left out: they change no balance or order.
- The global account's own state (`global.rs`) is not part of this model: its trader list, `global_expand`, and adding an order to the global registry (`try_to_add_to_global` is a host outcome). A global account is modelled as its deposits and lamports.
- Borsh decoding of the instruction parameters and the account loading contexts are left out, as are the processors other than cancel-order. Their state changes are the `Market` and `MarketLoans` methods.
- `RefCell` borrow failures (`try_borrow_data`) are left out.
- Matching.BufferF: the bounds are stated only for a buffer of at most 10000 bps. Beyond that the factor is negative, and only its exact value is given.
- Loans.MarketLoans.RemoveLoan: which of several loans sharing a sequence number is removed depends on the tree and is not specified. Loans made by `new_empty` all carry 0.
- Markets.Market.PlaceOrderCore: the rest path is specified through `RestAfterMatch`, `RestRemaining` and `RestReverse`. The MarginFi calls made between matching and resting are one outcome.
- Markets.Market.MatchLoop: the totals are stated as sums over the fills made. The order in which fills happen is stated as best-first by rate only.
- Shares.TokensToAssetShares: share values are taken to be non-negative. `FixDiv` and `FixMul` model I80F48 arithmetic on those. A negative share value fails here, whereas `checked_div` would return a negative quotient. MarginFi share values are positive.
- Shares.TokensToLiabilityShares: share values are taken to be non-negative, as for `TokensToAssetShares`.
- Loans.MarketLoans.ExpandLoanAccount: the ledger size is unbounded. The u32 overflow of `n * 96` or of the new size, which panics, is not modelled. A Solana account holds at most 10 MiB, far below 2^32 bytes, so the reallocation fails before the size could overflow.

## Findings

| source | as written | input that shows it | evidently intended | confidence | as-written member | corrected member |
|---|---|---|---|---|---|---|
| programs/nix/src/state/market.rs:1093-1096 | the reverse rate is `rate_bps.checked_mul(10_000 - spread)` in u16 | rate 500 bps, spread 50 bps: 500 * 9950 overflows u16 and the order fails with `NumericalOverflow` | rate * (10000 - spread) / 10000 computed wide enough, 497 bps here | high, not executed | Matching.ReverseRateAsWrittenOverflows | Matching.ReverseRateBounds |
| programs/nix/src/state/market.rs:1101-1140 | the reverse ask is built for the other tree but inserted into `(use_a_tree, is_bid)`, the taker's own bid side | any reverse bid that receives base: the ask is listed on a bid bookside, which no longer holds only its own orders | insert into the other tree's ask side | high, not executed | MarketLayout.MisplacedOrderBreaksBook | Markets.Market.RestReverse |
| programs/nix/src/state/market_loan.rs:227-236 | `expand_loan_account(n)` grows the size by n blocks but frees only the block at the old size | n = 2 on an empty ledger: block 96 is neither free nor used; n = 0 twice frees block 0 twice | free every one of the n new blocks | high, not executed | Loans.ExpandAsWrittenBreaksFreeList | Loans.ExpandedBlocksAreFree |
| programs/nix/src/utils.rs:289-318 | the maker's global deposit is reduced before the transfer-fee and transfer-hook checks, which then return false | deposit 100, fill 10, fee-bearing mint: the deposit becomes 90, no tokens move, and the order is removed as unbacked | check the mint before reducing the deposit | high, not executed | Guards.MoveGlobalAsWrittenLosesDeposit | Guards.MoveGlobal |
| programs/nix/src/state/market.rs:1409-1418 | a cancelled ask is refunded into `should_update_base_a(tree, false)`, and so is a dropped ask at market.rs:1738-1746, though resting it debited `should_update_base_a(tree, !is_bid)` = `(tree, true)` (market.rs:1266-1274). The comment at market.rs:1787-1789 ("A tree ... asks use base A") agrees with the refunds. The taker's side of a fill (market.rs:826-856) agrees with the debit: an A-tree ask pays, and an A-tree bid receives, base B. The model refunds into the debited balance, the one fix that keeps both the fills and the rest-then-cancel round trip consistent | an A-tree ask of one share rests out of base B and is refunded into base A | refund the balance that was debited | medium, not executed | Matching.AskRefundAsWrittenMovesShares | Matching.AskRestThenRefund |
| programs/nix/src/program/processor/cancel_order.rs:71-112 | the order hint is checked for alignment, type, trader and sequence number but not for the tree being cancelled from | a B-tree ask at block 112 with sequence number 7, cancelled with `use_a_tree = true` and hint 112: every check passes, and the removal is attempted on a tree that does not hold it | also require the order to be on the named tree | medium, not executed | CancelOrderProcessor.CancelHintAsWrittenAcceptsOtherTree | CancelOrderProcessor.CheckedHintIsOnBook |
