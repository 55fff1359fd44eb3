// The program's instruction tags (program/instruction.rs): nine instructions, each encoded as
// the single byte of its tag.

module Instructions {
  import opened Bytes
  import opened Errors

  datatype NixInstruction =
    | CreateMarket
    | CreateMarketLoanAccount
    | ClaimSeat
    | Deposit
    | GlobalCreate
    | GlobalAddTrader
    | GlobalDeposit
    | PlaceOrder
    | CancelOrder

  /** The `#[repr(u8)]` discriminant of each instruction. */
  function Tag(i: NixInstruction): (t: Byte)
    ensures t < 9
  {
    match i
    case CreateMarket => 0
    case CreateMarketLoanAccount => 1
    case ClaimSeat => 2
    case Deposit => 3
    case GlobalCreate => 4
    case GlobalAddTrader => 5
    case GlobalDeposit => 6
    case PlaceOrder => 7
    case CancelOrder => 8
  }

  /** `NixInstruction::try_from(u8)`: the instruction with that tag; bytes from 9 up name none. */
  function TryFrom(b: Byte): (r: Option<NixInstruction>)
    ensures r.Some? <==> b < 9
    ensures r.Some? ==> Tag(r.value) == b
  {
    if b == 0 then Some(CreateMarket)
    else if b == 1 then Some(CreateMarketLoanAccount)
    else if b == 2 then Some(ClaimSeat)
    else if b == 3 then Some(Deposit)
    else if b == 4 then Some(GlobalCreate)
    else if b == 5 then Some(GlobalAddTrader)
    else if b == 6 then Some(GlobalDeposit)
    else if b == 7 then Some(PlaceOrder)
    else if b == 8 then Some(CancelOrder)
    else None
  }

  /** `to_vec`: the one byte of the tag. */
  function ToVec(i: NixInstruction): (v: seq<Byte>)
    ensures |v| == 1
  {
    [Tag(i)]
  }

  /** Decoding an encoded instruction gives it back, so no two instructions share a tag. */
  lemma ToVecRoundTrip(i: NixInstruction)
    ensures TryFrom(ToVec(i)[0]) == Some(i)
  {
  }

  /** The tags are exactly 0 through 8: every byte below 9 is some instruction's tag. */
  lemma TagsAreDense(b: Byte)
    requires b < 9
    ensures exists i :: Tag(i) == b && ToVec(i) == [b]
  {
    var i := TryFrom(b).value;
    assert Tag(i) == b;
  }
}
