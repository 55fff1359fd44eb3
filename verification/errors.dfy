// The program's error codes and the `require!` check (program/error.rs).

module Errors {
  /** The program's own errors; each carries the discriminant given in the source. */
  datatype NixError =
    InvalidMarketParameters
    | InvalidDepositAccounts
    | InvalidWithdrawAccounts
    | InvalidCancel
    | InvalidFreeList
    | AlreadyClaimedSeat
    | PostOnlyCrosses
    | AlreadyExpired
    | InsufficientOut
    | InvalidPlaceOrderFromWalletParams
    | WrongIndexHintParams
    | PriceNotPositive
    | OrderWouldOverflow
    | OrderTooSmall
    | NumericalOverflow
    | MissingGlobal
    | GlobalInsufficient
    | IncorrectAccount
    | InvalidMint
    | TooManyGlobalSeats
    | InvalidGlobalBidOrder
    | InvalidEvict
    | InvalidClean
    | InvalidMarginfiAccount
    | OracleNotSetup
    | IncorrectOracleAccount
    | MarginfiAccountInitializationFailed
    | InvalidOracleAccount
    | PriceOracleMathError
    | StaleOracle
    | InvalidPrice
    | InvalidSwitchboardDecimalConversion
    | PythPushWrongAccountOwner
    | InvalidFeeReceiver
    | InvalidVault
    | InvalidMarginfiGroup
    | InvalidMarginfiBank
    | InvalidMarginfiLiquidityVault
    | MarginfiCpiFailed
    | InvalidMarginfiState
    | MaxActiveLoansExceeded
    | InvalidActiveLoan
    | InvalidAskReverseOrder
    | InvalidAdminKey
    | InvalidGlobalMint

  /** The discriminant of each error, 0 through 44 in declaration order. */
  function Code(e: NixError): (c: nat)
    ensures c < 45 && FromCode(c) == Some(e)
  {
    match e
    case InvalidMarketParameters => 0
    case InvalidDepositAccounts => 1
    case InvalidWithdrawAccounts => 2
    case InvalidCancel => 3
    case InvalidFreeList => 4
    case AlreadyClaimedSeat => 5
    case PostOnlyCrosses => 6
    case AlreadyExpired => 7
    case InsufficientOut => 8
    case InvalidPlaceOrderFromWalletParams => 9
    case WrongIndexHintParams => 10
    case PriceNotPositive => 11
    case OrderWouldOverflow => 12
    case OrderTooSmall => 13
    case NumericalOverflow => 14
    case MissingGlobal => 15
    case GlobalInsufficient => 16
    case IncorrectAccount => 17
    case InvalidMint => 18
    case TooManyGlobalSeats => 19
    case InvalidGlobalBidOrder => 20
    case InvalidEvict => 21
    case InvalidClean => 22
    case InvalidMarginfiAccount => 23
    case OracleNotSetup => 24
    case IncorrectOracleAccount => 25
    case MarginfiAccountInitializationFailed => 26
    case InvalidOracleAccount => 27
    case PriceOracleMathError => 28
    case StaleOracle => 29
    case InvalidPrice => 30
    case InvalidSwitchboardDecimalConversion => 31
    case PythPushWrongAccountOwner => 32
    case InvalidFeeReceiver => 33
    case InvalidVault => 34
    case InvalidMarginfiGroup => 35
    case InvalidMarginfiBank => 36
    case InvalidMarginfiLiquidityVault => 37
    case MarginfiCpiFailed => 38
    case InvalidMarginfiState => 39
    case MaxActiveLoansExceeded => 40
    case InvalidActiveLoan => 41
    case InvalidAskReverseOrder => 42
    case InvalidAdminKey => 43
    case InvalidGlobalMint => 44
  }

  /** The error with a given discriminant, if any (the inverse of `Code`). */
  function FromCode(c: nat): Option<NixError>
  {
    match c
    case 0 => Some(InvalidMarketParameters)
    case 1 => Some(InvalidDepositAccounts)
    case 2 => Some(InvalidWithdrawAccounts)
    case 3 => Some(InvalidCancel)
    case 4 => Some(InvalidFreeList)
    case 5 => Some(AlreadyClaimedSeat)
    case 6 => Some(PostOnlyCrosses)
    case 7 => Some(AlreadyExpired)
    case 8 => Some(InsufficientOut)
    case 9 => Some(InvalidPlaceOrderFromWalletParams)
    case 10 => Some(WrongIndexHintParams)
    case 11 => Some(PriceNotPositive)
    case 12 => Some(OrderWouldOverflow)
    case 13 => Some(OrderTooSmall)
    case 14 => Some(NumericalOverflow)
    case 15 => Some(MissingGlobal)
    case 16 => Some(GlobalInsufficient)
    case 17 => Some(IncorrectAccount)
    case 18 => Some(InvalidMint)
    case 19 => Some(TooManyGlobalSeats)
    case 20 => Some(InvalidGlobalBidOrder)
    case 21 => Some(InvalidEvict)
    case 22 => Some(InvalidClean)
    case 23 => Some(InvalidMarginfiAccount)
    case 24 => Some(OracleNotSetup)
    case 25 => Some(IncorrectOracleAccount)
    case 26 => Some(MarginfiAccountInitializationFailed)
    case 27 => Some(InvalidOracleAccount)
    case 28 => Some(PriceOracleMathError)
    case 29 => Some(StaleOracle)
    case 30 => Some(InvalidPrice)
    case 31 => Some(InvalidSwitchboardDecimalConversion)
    case 32 => Some(PythPushWrongAccountOwner)
    case 33 => Some(InvalidFeeReceiver)
    case 34 => Some(InvalidVault)
    case 35 => Some(InvalidMarginfiGroup)
    case 36 => Some(InvalidMarginfiBank)
    case 37 => Some(InvalidMarginfiLiquidityVault)
    case 38 => Some(MarginfiCpiFailed)
    case 39 => Some(InvalidMarginfiState)
    case 40 => Some(MaxActiveLoansExceeded)
    case 41 => Some(InvalidActiveLoan)
    case 42 => Some(InvalidAskReverseOrder)
    case 43 => Some(InvalidAdminKey)
    case 44 => Some(InvalidGlobalMint)
    case _ => None
  }

  /** Solana's `ProgramError`: the variants this program returns. */
  datatype ProgramError =
    | Custom(code: nat)
    | InvalidArgument
    | InvalidInstructionData
    | InvalidAccountData
    | InsufficientFunds
    | IncorrectProgramId
    | MissingRequiredSignature
    | IllegalOwner

  /**
   * How an operation fails: it returns a program error, or it panics. A panic is
   * not a `ProgramError`; it aborts the transaction just as an error does.
   */
  datatype Failure = Program(err: ProgramError) | Panic

  /** `From<NixError> for ProgramError`: the error becomes `Custom` of its discriminant. */
  function FromNixError(e: NixError): (r: ProgramError)
    ensures r.Custom? && r.code < 45 && FromCode(r.code) == Some(e)
  {
    Custom(Code(e))
  }

  /** Distinct program errors map to distinct custom codes. */
  lemma FromNixErrorInjective(a: NixError, b: NixError)
    ensures FromNixError(a) == FromNixError(b) <==> a == b
  {
    if FromNixError(a) == FromNixError(b) {
      assert FromCode(Code(a)) == Some(a) && FromCode(Code(b)) == Some(b);
    }
  }

  /** The failure a program error causes. */
  function Nix(e: NixError): Failure
  {
    Program(FromNixError(e))
  }

  /** A fallible computation: a value, or how it failed. */
  datatype Result<+T> = Ok(value: T) | Err(error: Failure)
  {
    predicate IsFailure() { Err? }

    function PropagateFailure<U>(): Result<U>
      requires Err?
    {
      Err(error)
    }

    function Extract(): T
      requires Ok?
    {
      value
    }
  }

  /** A fallible step with no value (`ProgramResult`, `Result<(), ProgramError>`). */
  datatype Outcome = Pass | Fail(error: Failure)
  {
    predicate IsFailure() { Fail? }

    function PropagateFailure(): Outcome
      requires Fail?
    {
      this
    }
  }

  datatype Option<+T> = None | Some(value: T)

  /** `require!(test, err, ..)`: passes when the test holds, and otherwise fails with the given error. */
  function Require(test: bool, err: Failure): (r: Outcome)
    ensures r.Pass? <==> test
    ensures r.Fail? ==> r.error == err
  {
    if test then Pass else Fail(err)
  }
}
