// Checks on this program's own accounts (validation/nix_checkers.rs): ownership by the program,
// the header's discriminant, and the all-zero header of an account about to be initialised.

module NixCheckers {
  import opened Bytes
  import opened Errors
  import opened SolanaCheckers

  /** The program's id, `Nixjf1STQfCHXdpapnADG41pirqoy4QaUdQoUu8cL5i` (lib.rs). */
  const PROGRAM_ID: Pubkey :=
    [5, 144, 164, 115, 248, 50, 232, 20, 164, 43, 209, 234, 211, 200, 246, 164,
     101, 98, 249, 204, 213, 121, 75, 107, 16, 125, 163, 61, 233, 179, 220, 229]

  /** `verify_owned_by_nix`: the owner is this program, else `IllegalOwner`. */
  function VerifyOwnedByNix(owner: Pubkey): (r: Outcome)
    ensures r.Pass? <==> owner == PROGRAM_ID
    ensures r.Fail? ==> r.error == Program(IllegalOwner)
  {
    Require(owner == PROGRAM_ID, Program(IllegalOwner))
  }

  /** `bytes.iter().all(|&byte| byte == 0)`. */
  function AllZero(bytes: seq<Byte>): (b: bool)
    ensures b <==> forall k :: 0 <= k < |bytes| ==> bytes[k] == 0
  {
    if bytes == [] then true else bytes[0] == 0 && AllZero(bytes[1..])
  }

  /**
   * `verify_uninitialized`: the data is exactly a header long, then every byte is zero; each
   * failure is `InvalidAccountData`.
   */
  function VerifyUninitialized(data: seq<Byte>, headerSize: nat): (r: Outcome)
    ensures r.Pass? <==> |data| == headerSize && forall k :: 0 <= k < |data| ==> data[k] == 0
    ensures r.Fail? ==> r.error == Program(InvalidAccountData)
  {
    if headerSize != |data| then Fail(Program(InvalidAccountData))
    else Require(AllZero(data), Program(InvalidAccountData))
  }

  /**
   * `NixAccountInfo::new`: the owner first (`IllegalOwner`), then the header: data shorter than
   * the header panics, and its leading u64 must be the account type's discriminant
   * (`InvalidAccountData`). The discriminant is a hash of the type's name, given here.
   */
  function NixAccountNew(info: AccountInfo, headerSize: nat, discriminant: U64): (r: Outcome)
    requires headerSize >= 8
    ensures r.Pass? <==> info.owner == PROGRAM_ID && |info.data| >= headerSize && U64FromLe(info.data[..8]) == discriminant
    ensures info.owner != PROGRAM_ID ==> r == Fail(Program(IllegalOwner))
    ensures info.owner == PROGRAM_ID && |info.data| < headerSize ==> r == Fail(Panic)
    ensures r.Fail? && r.error != Panic && info.owner == PROGRAM_ID ==> r.error == Program(InvalidAccountData)
  {
    var owned := VerifyOwnedByNix(info.owner);
    if owned.Fail? then owned
    else if |info.data| < headerSize then Fail(Panic)
    else Require(U64FromLe(info.data[..8]) == discriminant, Program(InvalidAccountData))
  }

  /** `NixAccountInfo::new_init`: the owner first, then `verify_uninitialized`. */
  function NixAccountNewInit(info: AccountInfo, headerSize: nat): (r: Outcome)
    ensures info.owner != PROGRAM_ID ==> r == Fail(Program(IllegalOwner))
    ensures info.owner == PROGRAM_ID ==> r == VerifyUninitialized(info.data, headerSize)
  {
    var owned := VerifyOwnedByNix(info.owner);
    if owned.Fail? then owned else VerifyUninitialized(info.data, headerSize)
  }

  /**
   * An account that passes `new_init` cannot pass `new` for a type with a non-zero
   * discriminant: its header reads as discriminant 0.
   */
  lemma UninitializedIsNotInitialized(info: AccountInfo, headerSize: nat, discriminant: U64)
    requires headerSize >= 8 && discriminant != 0
    requires NixAccountNewInit(info, headerSize).Pass?
    ensures NixAccountNew(info, headerSize, discriminant) == Fail(Program(InvalidAccountData))
  {
    var header := info.data[..8];
    ZeroBytesDecodeToZero(header);
  }

  /** Zero bytes denote the number 0. */
  lemma {:induction false} ZeroBytesDecodeToZero(b: seq<Byte>)
    requires forall k :: 0 <= k < |b| ==> b[k] == 0
    ensures LeDecode(b) == 0
  {
    if b != [] {
      ZeroBytesDecodeToZero(b[1..]);
    }
  }
}
