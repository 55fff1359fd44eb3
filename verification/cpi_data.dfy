// Instruction data of the MarginFi calls: an 8-byte discriminator followed by the Borsh
// encoding of the arguments (marginfi_utils.rs). The calls themselves are not modelled.

module CpiData {
  import opened Bytes
  import opened Errors

  const DEPOSIT_DISCRIMINATOR: seq<Byte> := [171, 94, 235, 103, 82, 64, 212, 140]
  const WITHDRAW_DISCRIMINATOR: seq<Byte> := [36, 72, 74, 19, 210, 210, 192, 192]
  const BORROW_DISCRIMINATOR: seq<Byte> := [4, 126, 116, 53, 48, 5, 212, 31]
  const REPAY_DISCRIMINATOR: seq<Byte> := [79, 209, 172, 177, 222, 51, 173, 151]

  /** The argument structs `MfiLendingAccount{Deposit,Withdraw,Borrow,Repay}Data`. */
  datatype LendingCall =
    | Deposit(amount: U64, depositUpToLimit: Option<bool>)
    | Withdraw(amount: U64, withdrawAll: Option<bool>)
    | Borrow(amount: U64)
    | Repay(amount: U64, repayAll: Option<bool>)

  function Discriminator(c: LendingCall): (d: seq<Byte>)
    ensures |d| == 8
  {
    match c
    case Deposit(_, _) => DEPOSIT_DISCRIMINATOR
    case Withdraw(_, _) => WITHDRAW_DISCRIMINATOR
    case Borrow(_) => BORROW_DISCRIMINATOR
    case Repay(_, _) => REPAY_DISCRIMINATOR
  }

  /** Borsh `Option<bool>`: a 0 tag, or a 1 tag followed by the boolean as one byte. */
  function BorshOptionBool(o: Option<bool>): seq<Byte>
  {
    match o
    case None => [0]
    case Some(b) => [1, if b then 1 else 0]
  }

  function BorshArgs(c: LendingCall): seq<Byte>
  {
    match c
    case Deposit(a, o) => U64ToLe(a) + BorshOptionBool(o)
    case Withdraw(a, o) => U64ToLe(a) + BorshOptionBool(o)
    case Borrow(a) => U64ToLe(a)
    case Repay(a, o) => U64ToLe(a) + BorshOptionBool(o)
  }

  /** The data vector of a call: discriminator, then the Borsh bytes of its arguments. */
  function InstructionData(c: LendingCall): (d: seq<Byte>)
    ensures 16 <= |d| <= 18 && d[..8] == Discriminator(c)
    ensures U64FromLe(d[8..16]) == c.amount
  {
    U64RoundTrip(c.amount);
    var d := Discriminator(c) + BorshArgs(c);
    assert d[8..16] == U64ToLe(c.amount);
    d
  }

  /** The data built for a deposit (marginfi_utils.rs:212-221). */
  function DepositData(amount: U64, depositUpToLimit: Option<bool>): (d: seq<Byte>)
    ensures |d| >= 16 && d[..8] == DEPOSIT_DISCRIMINATOR
    ensures ParseInstructionData(d) == Some(Deposit(amount, depositUpToLimit))
  {
    DataRoundTrip(Deposit(amount, depositUpToLimit));
    InstructionData(Deposit(amount, depositUpToLimit))
  }

  /** The deposit made while placing an order: the whole balance of the source account, no limit flag. */
  function DepositPlaceOrderData(sourceBalance: U64): (d: seq<Byte>)
    ensures |d| >= 16 && d[..8] == DEPOSIT_DISCRIMINATOR
    ensures ParseInstructionData(d) == Some(Deposit(sourceBalance, None))
  {
    DataRoundTrip(Deposit(sourceBalance, None));
    InstructionData(Deposit(sourceBalance, None))
  }

  function BorrowData(amount: U64): (d: seq<Byte>)
    ensures |d| >= 16 && d[..8] == BORROW_DISCRIMINATOR
    ensures ParseInstructionData(d) == Some(Borrow(amount))
  {
    DataRoundTrip(Borrow(amount));
    InstructionData(Borrow(amount))
  }

  function WithdrawData(amount: U64): (d: seq<Byte>)
    ensures |d| >= 16 && d[..8] == WITHDRAW_DISCRIMINATOR
    ensures ParseInstructionData(d) == Some(Withdraw(amount, None))
  {
    DataRoundTrip(Withdraw(amount, None));
    InstructionData(Withdraw(amount, None))
  }

  /** The repay made while placing an order: the whole balance of the source account, no repay-all flag. */
  function RepayData(sourceBalance: U64): (d: seq<Byte>)
    ensures |d| >= 16 && d[..8] == REPAY_DISCRIMINATOR
    ensures ParseInstructionData(d) == Some(Repay(sourceBalance, None))
  {
    DataRoundTrip(Repay(sourceBalance, None));
    InstructionData(Repay(sourceBalance, None))
  }

  function ParseOptionBool(b: seq<Byte>): Option<Option<bool>>
  {
    if b == [0] then Some(None)
    else if |b| == 2 && b[0] == 1 && b[1] <= 1 then Some(Some(b[1] == 1))
    else None
  }

  /** How MarginFi reads the data back: the call its discriminator names, with its arguments. */
  function ParseInstructionData(d: seq<Byte>): Option<LendingCall>
  {
    if |d| < 16 then None
    else
      var amount := U64FromLe(d[8..16]);
      var rest := d[16..];
      if d[..8] == BORROW_DISCRIMINATOR then
        if rest == [] then Some(Borrow(amount)) else None
      else
        match ParseOptionBool(rest)
        case None => None
        case Some(o) =>
          if d[..8] == DEPOSIT_DISCRIMINATOR then Some(Deposit(amount, o))
          else if d[..8] == WITHDRAW_DISCRIMINATOR then Some(Withdraw(amount, o))
          else if d[..8] == REPAY_DISCRIMINATOR then Some(Repay(amount, o))
          else None
  }

  /** The data of every call reads back as that call: the discriminators are distinct and the encoding is lossless. */
  lemma DataRoundTrip(c: LendingCall)
    ensures ParseInstructionData(InstructionData(c)) == Some(c)
  {
    var d := InstructionData(c);
    assert d[16..] == if c.Borrow? then [] else BorshOptionBool(if c.Deposit? then c.depositUpToLimit else if c.Withdraw? then c.withdrawAll else c.repayAll);
    assert DEPOSIT_DISCRIMINATOR[0] == 171 && WITHDRAW_DISCRIMINATOR[0] == 36;
    assert BORROW_DISCRIMINATOR[0] == 4 && REPAY_DISCRIMINATOR[0] == 79;
  }
}
