// Order-entry guards and the balance logic of global (just-in-time) backing (utils.rs).

module Guards {
  import opened Bytes
  import opened Errors
  import opened Orders
  import opened Constants

  /**
   * `assert_not_already_expired`: an order may be placed when it never expires or its last
   * valid slot is still ahead; otherwise it fails with `AlreadyExpired`.
   */
  function AssertNotAlreadyExpired(lastValidSlot: U32, nowSlot: U32): (r: Outcome)
    ensures r.Pass? <==> lastValidSlot == NO_EXPIRATION_LAST_VALID_SLOT || lastValidSlot > nowSlot
    ensures r.Fail? ==> r.error == Nix(AlreadyExpired)
  {
    Require(lastValidSlot == NO_EXPIRATION_LAST_VALID_SLOT || lastValidSlot > nowSlot, Nix(AlreadyExpired))
  }

  /**
   * The guard and the book's expiry test agree: an order is accepted at `nowSlot` exactly when
   * it would not yet count as expired in the following slot, so an accepted order is live now.
   */
  lemma AcceptedOrdersAreLive(o: RestingOrder, nowSlot: U32)
    ensures AssertNotAlreadyExpired(o.lastValidSlot, nowSlot).Pass? <==> !IsExpired(o, nowSlot + 1)
    ensures AssertNotAlreadyExpired(o.lastValidSlot, nowSlot).Pass? ==> !IsExpired(o, nowSlot)
  {
  }

  /**
   * `assert_valid_order_type`: global orders must be asks (`InvalidGlobalBidOrder`) and reverse
   * orders must be bids (`InvalidAskReverseOrder`); every other combination is accepted.
   */
  function AssertValidOrderType(orderType: OrderType, isBid: bool): (r: Outcome)
    ensures r.Pass? <==> (orderType == Global ==> !isBid) && (orderType == Reverse ==> isBid)
    ensures isBid && orderType == Global ==> r == Fail(Nix(InvalidGlobalBidOrder))
    ensures !isBid && orderType == Reverse ==> r == Fail(Nix(InvalidAskReverseOrder))
  {
    if isBid && orderType == Global then Fail(Nix(InvalidGlobalBidOrder))
    else if !isBid && orderType == Reverse then Fail(Nix(InvalidAskReverseOrder))
    else Pass
  }

  /**
   * `assert_already_has_seat`: the trader must have a seat (an index other than NIL). The code
   * reports a missing seat with `AlreadyClaimedSeat`.
   */
  function AssertAlreadyHasSeat(traderIndex: nat): (r: Outcome)
    ensures r.Pass? <==> traderIndex != NIL
    ensures r.Fail? ==> r.error == Nix(AlreadyClaimedSeat)
  {
    Require(traderIndex != NIL, Nix(AlreadyClaimedSeat))
  }

  /** `assert_can_take`: an order type that may not take fails with `PostOnlyCrosses`. */
  function AssertCanTake(orderType: OrderType): (r: Outcome)
    ensures r.Pass? <==> OrderTypeCanTake(orderType)
    ensures r.Fail? ==> r.error == Nix(PostOnlyCrosses)
  {
    Require(OrderTypeCanTake(orderType), Nix(PostOnlyCrosses))
  }

  /** Exactly post-only and global orders are stopped from crossing the book. */
  lemma CanTakeRejectsExactlyMakerOnlyTypes(orderType: OrderType)
    ensures AssertCanTake(orderType).Fail? <==> orderType == PostOnly || orderType == Global
  {
    OrderTypeCapabilities(orderType);
  }

  /**
   * The global account of one mint, as far as the balance logic sees it: each trader's
   * deposited atoms and the lamports held for gas prepayments.
   */
  class GlobalAccount {
    var balances: map<Pubkey, U64>
    var lamports: U64

    /** A trader without a deposit has a balance of zero. */
    function BalanceOf(trader: Pubkey): U64
      reads this
    {
      if trader in balances then balances[trader] else 0
    }
  }

  /** A signer's lamport balance: the gas receiver or the gas payer. */
  class Wallet {
    var lamports: U64
  }

  /**
   * `GlobalTradeAccounts`, reduced to what the balance logic reads: the global account, the
   * optional gas receiver, whether a system program was passed, and whether the token program
   * is Token-2022.
   */
  datatype GlobalTradeAccounts = GlobalTradeAccounts(
    global: GlobalAccount,
    gasReceiver: Option<Wallet>,
    hasSystemProgram: bool,
    isToken2022: bool)

  /** The balances and lamports of one set of global trade accounts, as they stand. */
  datatype GlobalState = GlobalState(balances: map<Pubkey, U64>, lamports: U64, receiverLamports: U64)

  function GlobalStateOf(accounts: GlobalTradeAccounts): (g: GlobalState)
    reads accounts.global, if accounts.gasReceiver.Some? then {accounts.gasReceiver.value} else {}
    ensures g.balances == accounts.global.balances && g.lamports == accounts.global.lamports
    ensures accounts.gasReceiver.Some? ==> g.receiverLamports == accounts.gasReceiver.value.lamports
  {
    GlobalState(accounts.global.balances, accounts.global.lamports,
                if accounts.gasReceiver.Some? then accounts.gasReceiver.value.lamports else 0)
  }

  /**
   * Puts saved balances and lamports back, as the runtime does with every account a failed
   * instruction touched.
   */
  method RestoreGlobal(accounts: GlobalTradeAccounts, saved: GlobalState)
    modifies accounts.global, if accounts.gasReceiver.Some? then {accounts.gasReceiver.value} else {}
    ensures GlobalStateOf(accounts) == saved.(receiverLamports := GlobalStateOf(accounts).receiverLamports)
    ensures accounts.gasReceiver.Some? ==> GlobalStateOf(accounts) == saved
  {
    accounts.global.balances := saved.balances;
    accounts.global.lamports := saved.lamports;
    if accounts.gasReceiver.Some? {
      accounts.gasReceiver.value.lamports := saved.receiverLamports;
    }
  }

  /** What one attempt to back a global order leaves: whether it was backed, and the trader's balance. */
  datatype GlobalMove = GlobalMove(backed: bool, remaining: U64)

  /**
   * A Token-2022 mint with a non-zero transfer fee or a transfer hook cannot back a global
   * order; the extension inspection itself is an input.
   */
  predicate TransferBlocked(isToken2022: bool, mintHasTransferFee: bool, mintHasTransferHook: bool)
  {
    isToken2022 && (mintHasTransferFee || mintHasTransferHook)
  }

  /**
   * The balance logic of `try_to_move_global_tokens`, corrected: asking for more than the deposit
   * never fills partially (it returns false, and logging the cleanup unwraps the gas receiver);
   * a blocked mint returns false with the deposit intact; otherwise the deposit drops by exactly
   * the desired atoms and the transfer's own failure is the result.
   */
  function MoveGlobal(deposited: U64, desired: U64, hasGasReceiver: bool, blocked: bool, transfer: Outcome)
    : (r: Result<GlobalMove>)
    ensures desired > deposited ==> r == (if hasGasReceiver then Ok(GlobalMove(false, deposited)) else Err(Panic))
    ensures r.Ok? ==> (r.value.backed <==> desired <= deposited && !blocked && transfer.Pass?)
    ensures r.Ok? ==> r.value.remaining + (if r.value.backed then desired else 0) == deposited
    ensures r.Err? ==> (desired > deposited && !hasGasReceiver && r.error == Panic)
                       || (desired <= deposited && !blocked && transfer.Fail? && r.error == transfer.error)
  {
    if desired > deposited then
      if hasGasReceiver then Ok(GlobalMove(false, deposited)) else Err(Panic)
    else if blocked then Ok(GlobalMove(false, deposited))
    else if transfer.Fail? then Err(transfer.error)
    else Ok(GlobalMove(true, deposited - desired))
  }

  /**
   * The same logic as written: the deposit is reduced before the fee and hook checks, so a
   * blocked mint returns false with the deposit already reduced.
   */
  function MoveGlobalAsWritten(deposited: U64, desired: U64, hasGasReceiver: bool, blocked: bool, transfer: Outcome)
    : (r: Result<GlobalMove>)
    ensures !blocked ==> r == MoveGlobal(deposited, desired, hasGasReceiver, blocked, transfer)
    ensures blocked && desired <= deposited ==> r == Ok(GlobalMove(false, deposited - desired))
  {
    if desired > deposited then
      if hasGasReceiver then Ok(GlobalMove(false, deposited)) else Err(Panic)
    else
      var reduced := deposited - desired;
      if blocked then Ok(GlobalMove(false, reduced))
      else if transfer.Fail? then Err(transfer.error)
      else Ok(GlobalMove(true, reduced))
  }

  /**
   * As written, an unbacked global order still costs its maker: with 100 atoms deposited and a
   * fill of 10 against a fee-bearing mint, the order is treated as unbacked (and then removed)
   * while the deposit falls to 90, and no tokens move.
   */
  lemma MoveGlobalAsWrittenLosesDeposit()
    ensures MoveGlobalAsWritten(100, 10, true, true, Pass) == Ok(GlobalMove(false, 90))
    ensures MoveGlobal(100, 10, true, true, Pass) == Ok(GlobalMove(false, 100))
    ensures var m := MoveGlobalAsWritten(100, 10, true, true, Pass).value;
            m.remaining + (if m.backed then 10 else 0) != 100
  {
  }

  /**
   * `try_to_move_global_tokens` (corrected as in `MoveGlobal`): without global accounts it fails
   * with `MissingGlobal`; otherwise the trader's deposit becomes what `MoveGlobal` says and the
   * result is whether the order was backed. Nothing else in the global account changes, and a
   * failure changes nothing.
   */
  method TryToMoveGlobalTokens(accounts: Option<GlobalTradeAccounts>, trader: Pubkey, desired: U64,
                               mintHasTransferFee: bool, mintHasTransferHook: bool, transfer: Outcome)
    returns (r: Result<bool>)
    modifies if accounts.Some? then {accounts.value.global} else {}
    ensures accounts.None? ==> r == Err(Nix(MissingGlobal))
    ensures accounts.Some? ==>
      var g := accounts.value.global;
      var m := MoveGlobal(old(g.BalanceOf(trader)), desired, accounts.value.gasReceiver.Some?,
                          TransferBlocked(accounts.value.isToken2022, mintHasTransferFee, mintHasTransferHook), transfer);
      (r.Ok? <==> m.Ok?) && (r.Err? ==> r.error == m.error && unchanged(g))
      && (r.Ok? ==> r.value == m.value.backed && g.lamports == old(g.lamports)
                    && g.BalanceOf(trader) == m.value.remaining
                    && forall t :: t != trader ==> g.BalanceOf(t) == old(g.BalanceOf(t)))
    ensures accounts.Some? && r != Ok(true) ==> unchanged(accounts.value.global)
  {
    if accounts.None? {
      return Err(Nix(MissingGlobal));
    }
    var g := accounts.value.global;
    var deposited := g.BalanceOf(trader);
    // No partial fills against a global order.
    if desired > deposited {
      if accounts.value.gasReceiver.None? {
        return Err(Panic);
      }
      return Ok(false);
    }
    if TransferBlocked(accounts.value.isToken2022, mintHasTransferFee, mintHasTransferHook) {
      return Ok(false);
    }
    if transfer.Fail? {
      return Err(transfer.error);
    }
    g.balances := g.balances[trader := deposited - desired];
    r := Ok(true);
  }

  /**
   * `remove_from_global_core`: with a system program, the gas prepayment moves from the global
   * account to the gas receiver, and the lamports of the two together stay the same; without
   * one, nothing happens. A missing gas receiver, or lamports leaving the u64 range, panic.
   */
  method RemoveFromGlobalCore(global: GlobalAccount, gasReceiver: Option<Wallet>, hasSystemProgram: bool)
    returns (r: Outcome)
    modifies global, if gasReceiver.Some? then {gasReceiver.value} else {}
    ensures !hasSystemProgram ==> r.Pass?
    ensures hasSystemProgram ==>
      (r.Pass? <==> gasReceiver.Some? && old(global.lamports) >= GAS_DEPOSIT_LAMPORTS
                    && old(gasReceiver.value.lamports) + GAS_DEPOSIT_LAMPORTS < U64_LIMIT)
    ensures r.Fail? ==> r.error == Panic
    ensures r.Pass? && hasSystemProgram ==>
      global.lamports == old(global.lamports) - GAS_DEPOSIT_LAMPORTS
      && gasReceiver.value.lamports == old(gasReceiver.value.lamports) + GAS_DEPOSIT_LAMPORTS
      && global.lamports + gasReceiver.value.lamports == old(global.lamports) + old(gasReceiver.value.lamports)
    ensures r.Fail? || !hasSystemProgram ==> unchanged(global) && (gasReceiver.Some? ==> unchanged(gasReceiver.value))
    ensures global.balances == old(global.balances)
  {
    if !hasSystemProgram {
      return Pass;
    }
    if global.lamports < GAS_DEPOSIT_LAMPORTS || gasReceiver.None? {
      return Fail(Panic);
    }
    var receiver := gasReceiver.value;
    if receiver.lamports + GAS_DEPOSIT_LAMPORTS >= U64_LIMIT {
      return Fail(Panic);
    }
    global.lamports := global.lamports - GAS_DEPOSIT_LAMPORTS;
    receiver.lamports := receiver.lamports + GAS_DEPOSIT_LAMPORTS;
    r := Pass;
  }

  /**
   * `remove_from_global`: without global accounts the gas prepayment is forfeited and nothing
   * changes; otherwise it is `remove_from_global_core` on the accounts' global and receiver.
   */
  method RemoveFromGlobal(accounts: Option<GlobalTradeAccounts>) returns (r: Outcome)
    modifies if accounts.Some? then {accounts.value.global} else {}
    modifies if accounts.Some? && accounts.value.gasReceiver.Some? then {accounts.value.gasReceiver.value} else {}
    ensures accounts.None? ==> r.Pass?
    ensures accounts.Some? && accounts.value.hasSystemProgram ==>
      var a := accounts.value;
      (r.Pass? <==> a.gasReceiver.Some? && old(a.global.lamports) >= GAS_DEPOSIT_LAMPORTS
                    && old(a.gasReceiver.value.lamports) + GAS_DEPOSIT_LAMPORTS < U64_LIMIT)
      && (r.Pass? ==> a.global.lamports + a.gasReceiver.value.lamports
                      == old(a.global.lamports) + old(a.gasReceiver.value.lamports)
                      && a.global.lamports == old(a.global.lamports) - GAS_DEPOSIT_LAMPORTS)
    ensures r.Fail? ==> r.error == Panic
    ensures r.Fail? || accounts.None? || !accounts.value.hasSystemProgram ==>
      (accounts.Some? ==> unchanged(accounts.value.global))
      && (accounts.Some? && accounts.value.gasReceiver.Some? ==> unchanged(accounts.value.gasReceiver.value))
    ensures accounts.Some? ==> accounts.value.global.balances == old(accounts.value.global.balances)
  {
    if accounts.None? {
      return Pass;
    }
    r := RemoveFromGlobalCore(accounts.value.global, accounts.value.gasReceiver, accounts.value.hasSystemProgram);
  }
}
