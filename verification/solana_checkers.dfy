// Checks on the Solana accounts an instruction is given (validation/solana_checkers.rs): program
// ids, signers, writability and empty accounts. Each check passes or fails with its own error.

module SolanaCheckers {
  import opened Bytes
  import opened Errors

  /** What the checks read of an account: its key, owner, data and flags. */
  datatype AccountInfo = AccountInfo(key: Pubkey, owner: Pubkey, data: seq<Byte>, isSigner: bool, isWritable: bool)

  /** `system_program::id()`, `11111111111111111111111111111111`: thirty-two zero bytes. */
  const SYSTEM_PROGRAM_ID: Pubkey := DEFAULT_PUBKEY

  /** `spl_token::id()`, `TokenkegQfeZyiNwAJbNbGKPFXCWuBvf9Ss623VQ5DA`. */
  const TOKEN_PROGRAM_ID: Pubkey :=
    [6, 221, 246, 225, 215, 101, 161, 147, 217, 203, 225, 70, 206, 235, 121, 172,
     28, 180, 133, 237, 95, 91, 55, 145, 58, 140, 245, 133, 126, 255, 0, 169]

  /** `spl_token_2022::id()`, `TokenzQdBNbLqP5VEhdkAS6EPFLC1PHnBqCXEpPxuEb`. */
  const TOKEN_2022_PROGRAM_ID: Pubkey :=
    [6, 221, 246, 225, 238, 117, 143, 222, 24, 66, 93, 188, 228, 108, 205, 218,
     182, 26, 252, 77, 131, 185, 13, 39, 254, 189, 249, 40, 216, 161, 139, 252]

  /** The three program ids are distinct. */
  lemma ProgramIdsDistinct()
    ensures SYSTEM_PROGRAM_ID != TOKEN_PROGRAM_ID && SYSTEM_PROGRAM_ID != TOKEN_2022_PROGRAM_ID
    ensures TOKEN_PROGRAM_ID != TOKEN_2022_PROGRAM_ID
  {
    assert TOKEN_PROGRAM_ID[0] != SYSTEM_PROGRAM_ID[0] && TOKEN_2022_PROGRAM_ID[0] != SYSTEM_PROGRAM_ID[0];
    assert TOKEN_PROGRAM_ID[4] != TOKEN_2022_PROGRAM_ID[4];
  }

  /** One of the two token programs (`check_spl_token_program_account`). */
  predicate IsTokenProgram(key: Pubkey)
  {
    key == TOKEN_PROGRAM_ID || key == TOKEN_2022_PROGRAM_ID
  }

  /** `Program::new`: the account is the expected program, else `IncorrectProgramId`. */
  function ProgramNew(info: AccountInfo, expectedProgramId: Pubkey): (r: Outcome)
    ensures r.Pass? <==> info.key == expectedProgramId
    ensures r.Fail? ==> r.error == Program(IncorrectProgramId)
  {
    Require(info.key == expectedProgramId, Program(IncorrectProgramId))
  }

  /** `TokenProgram::new`: the account is either token program, else `IncorrectProgramId`. */
  function TokenProgramNew(info: AccountInfo): (r: Outcome)
    ensures r.Fail? ==> r.error == Program(IncorrectProgramId)
  {
    Require(IsTokenProgram(info.key), Program(IncorrectProgramId))
  }

  /** `TokenProgram::new` accepts exactly the accounts `Program::new` accepts for one of the two ids. */
  lemma TokenProgramIsEitherProgram(info: AccountInfo)
    ensures TokenProgramNew(info).Pass?
            <==> ProgramNew(info, TOKEN_PROGRAM_ID).Pass? || ProgramNew(info, TOKEN_2022_PROGRAM_ID).Pass?
    ensures TokenProgramNew(info).Pass? ==> info.key != SYSTEM_PROGRAM_ID
  {
    ProgramIdsDistinct();
  }

  /** `Signer::new`: the account signed, else `MissingRequiredSignature`. */
  function SignerNew(info: AccountInfo): (r: Outcome)
    ensures r.Pass? <==> info.isSigner
    ensures r.Fail? ==> r.error == Program(MissingRequiredSignature)
  {
    Require(info.isSigner, Program(MissingRequiredSignature))
  }

  /** `validate_writable`: the account is writable, else `InvalidAccountData`. */
  function ValidateWritable(info: AccountInfo): (r: Outcome)
    ensures r.Pass? <==> info.isWritable
    ensures r.Fail? ==> r.error == Program(InvalidAccountData)
  {
    Require(info.isWritable, Program(InvalidAccountData))
  }

  /**
   * `Signer::new_payer`: writability is checked first (`InvalidInstructionData`), then the
   * signature (`MissingRequiredSignature`).
   */
  function SignerNewPayer(info: AccountInfo): (r: Outcome)
    ensures !info.isWritable ==> r == Fail(Program(InvalidInstructionData))
    ensures info.isWritable && !info.isSigner ==> r == Fail(Program(MissingRequiredSignature))
  {
    if !info.isWritable then Fail(Program(InvalidInstructionData))
    else Require(info.isSigner, Program(MissingRequiredSignature))
  }

  /**
   * A payer is a writable signer: `new_payer` passes exactly when both `validate_writable` and
   * `Signer::new` do, and fails with a different error from `validate_writable`'s.
   */
  lemma PayerIsWritableSigner(info: AccountInfo)
    ensures SignerNewPayer(info).Pass? <==> ValidateWritable(info).Pass? && SignerNew(info).Pass?
    ensures SignerNewPayer(info).Fail? && !info.isWritable ==> SignerNewPayer(info) != ValidateWritable(info)
  {
  }

  /**
   * `EmptyAccount::new`: the account has no data (`InvalidAccountData`), checked before its
   * owner being the system program (`IllegalOwner`).
   */
  function EmptyAccountNew(info: AccountInfo): (r: Outcome)
    ensures r.Pass? <==> |info.data| == 0 && info.owner == SYSTEM_PROGRAM_ID
    ensures |info.data| != 0 ==> r == Fail(Program(InvalidAccountData))
    ensures |info.data| == 0 && info.owner != SYSTEM_PROGRAM_ID ==> r == Fail(Program(IllegalOwner))
  {
    if |info.data| != 0 then Fail(Program(InvalidAccountData))
    else Require(info.owner == SYSTEM_PROGRAM_ID, Program(IllegalOwner))
  }

  /**
   * `validate_solana_program_accounts`: the system program (failing with `IllegalOwner`), then
   * the token program, then the token-2022 program (each failing with `IncorrectProgramId`).
   */
  function ValidateSolanaProgramAccounts(systemProgram: AccountInfo, splToken: AccountInfo, splToken2022: AccountInfo)
    : (r: Outcome)
    ensures r.Pass? <==> ProgramNew(systemProgram, SYSTEM_PROGRAM_ID).Pass? && ProgramNew(splToken, TOKEN_PROGRAM_ID).Pass?
                         && ProgramNew(splToken2022, TOKEN_2022_PROGRAM_ID).Pass?
    ensures systemProgram.key != SYSTEM_PROGRAM_ID ==> r == Fail(Program(IllegalOwner))
    ensures systemProgram.key == SYSTEM_PROGRAM_ID && r.Fail? ==> r.error == Program(IncorrectProgramId)
  {
    if systemProgram.key != SYSTEM_PROGRAM_ID then Fail(Program(IllegalOwner))
    else if splToken.key != TOKEN_PROGRAM_ID then Fail(Program(IncorrectProgramId))
    else Require(splToken2022.key == TOKEN_2022_PROGRAM_ID, Program(IncorrectProgramId))
  }
}
