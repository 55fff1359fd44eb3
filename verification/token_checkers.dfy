// Checks on SPL token accounts and mints (validation/token_checkers.rs). A token account's data
// starts with its mint (bytes 0..32), then its owner (32..64), then its amount as a
// little-endian u64 (64..72). Reading past the end of the data panics.

module TokenCheckers {
  import opened Bytes
  import opened Errors
  import opened SolanaCheckers

  /** `TokenAccountInfo::get_owner`: bytes 32..64. */
  function GetOwner(info: AccountInfo): (r: Result<Pubkey>)
    ensures r.Ok? <==> |info.data| >= 64
    ensures r.Err? ==> r.error == Panic
    ensures r.Ok? ==> r.value == info.data[32..64]
  {
    if |info.data| < 64 then Err(Panic) else Ok(info.data[32..64])
  }

  /** `TokenAccountInfo::get_balance`: bytes 64..72 as a little-endian u64. */
  function GetBalance(info: AccountInfo): (r: Result<U64>)
    ensures r.Ok? <==> |info.data| >= 72
    ensures r.Err? ==> r.error == Panic
    ensures r.Ok? ==> U64ToLe(r.value) == info.data[64..72]
  {
    if |info.data| < 72 then Err(Panic) else Ok(U64FromLe(info.data[64..72]))
  }

  /**
   * `TokenAccountInfo::new`: the account is owned by a token program (`IllegalOwner`), then
   * holds the mint in bytes 0..32 (`InvalidAccountData`).
   */
  function TokenAccountNew(info: AccountInfo, mint: Pubkey): (r: Outcome)
    ensures r.Pass? <==> IsTokenProgram(info.owner) && |info.data| >= 32 && info.data[..32] == mint
    ensures !IsTokenProgram(info.owner) ==> r == Fail(Program(IllegalOwner))
    ensures IsTokenProgram(info.owner) && |info.data| < 32 ==> r == Fail(Panic)
    ensures IsTokenProgram(info.owner) && |info.data| >= 32 && info.data[..32] != mint ==> r == Fail(Program(InvalidAccountData))
  {
    if !IsTokenProgram(info.owner) then Fail(Program(IllegalOwner))
    else if |info.data| < 32 then Fail(Panic)
    else Require(info.data[..32] == mint, Program(InvalidAccountData))
  }

  /**
   * `TokenAccountInfo::new_with_owner`: the checks of `new`, then the owner in bytes 32..64
   * (`IllegalOwner`).
   */
  function TokenAccountNewWithOwner(info: AccountInfo, mint: Pubkey, owner: Pubkey): (r: Outcome)
    ensures r.Pass? <==> TokenAccountNew(info, mint).Pass? && GetOwner(info) == Ok(owner)
    ensures TokenAccountNew(info, mint).Fail? ==> r == TokenAccountNew(info, mint)
    ensures TokenAccountNew(info, mint).Pass? && GetOwner(info).Ok? && GetOwner(info).value != owner
            ==> r == Fail(Program(IllegalOwner))
  {
    var checked := TokenAccountNew(info, mint);
    if checked.Fail? then checked
    else if |info.data| < 64 then Fail(Panic)
    else Require(info.data[32..64] == owner, Program(IllegalOwner))
  }

  /**
   * `TokenAccountInfo::new_with_owner_and_key`: the account's key comes first
   * (`InvalidInstructionData`), then the checks of `new_with_owner`.
   */
  function TokenAccountNewWithOwnerAndKey(info: AccountInfo, mint: Pubkey, owner: Pubkey, key: Pubkey): (r: Outcome)
    ensures info.key != key ==> r == Fail(Program(InvalidInstructionData))
    ensures info.key == key ==> r == TokenAccountNewWithOwner(info, mint, owner)
  {
    if info.key != key then Fail(Program(InvalidInstructionData))
    else TokenAccountNewWithOwner(info, mint, owner)
  }

  /**
   * `validate_market_mint`: the mint is owned by a token program (`IncorrectProgramId`), and
   * is the market's base A or base B mint (`InvalidAccountData`).
   */
  function ValidateMarketMint(mint: AccountInfo, baseAMint: Pubkey, baseBMint: Pubkey): (r: Outcome)
    ensures r.Pass? <==> IsTokenProgram(mint.owner) && (mint.key == baseAMint || mint.key == baseBMint)
    ensures !IsTokenProgram(mint.owner) ==> r == Fail(Program(IncorrectProgramId))
    ensures IsTokenProgram(mint.owner) && r.Fail? ==> r == Fail(Program(InvalidAccountData))
  {
    if !IsTokenProgram(mint.owner) then Fail(Program(IncorrectProgramId))
    else Require(mint.key == baseAMint || mint.key == baseBMint, Program(InvalidAccountData))
  }

  /** A token account's data: mint, owner and amount, then whatever the token program keeps after. */
  function TokenAccountData(mint: Pubkey, owner: Pubkey, amount: U64, rest: seq<Byte>): (d: seq<Byte>)
    ensures |d| == 72 + |rest|
  {
    mint + owner + U64ToLe(amount) + rest
  }

  /**
   * Reading back a token account built from a mint, an owner and an amount: the checks of
   * `new_with_owner` pass for that mint and owner on an account of a token program, and
   * `get_owner` and `get_balance` return the owner and the amount.
   */
  lemma {:induction false} TokenAccountRoundTrip(key: Pubkey, tokenProgram: Pubkey, mint: Pubkey, owner: Pubkey, amount: U64,
                                                  rest: seq<Byte>, isSigner: bool, isWritable: bool)
    requires IsTokenProgram(tokenProgram)
    ensures var info := AccountInfo(key, tokenProgram, TokenAccountData(mint, owner, amount, rest), isSigner, isWritable);
            TokenAccountNewWithOwner(info, mint, owner).Pass?
            && GetOwner(info) == Ok(owner) && GetBalance(info) == Ok(amount)
  {
    var d := TokenAccountData(mint, owner, amount, rest);
    var info := AccountInfo(key, tokenProgram, d, isSigner, isWritable);
    assert d[..32] == mint;
    assert d[32..64] == owner;
    assert d[64..72] == U64ToLe(amount);
    U64RoundTrip(amount);
  }
}
