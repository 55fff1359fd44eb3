// The program's entrypoint (lib.rs): the first byte of the instruction data selects the
// instruction, and the rest goes to that instruction's handler.

module Entrypoint {
  import opened Bytes
  import opened Errors
  import opened Instructions

  /**
   * `process_instruction`: empty data fails with `InvalidInstructionData`, an unknown tag with
   * `InvalidAccountData`; otherwise the named handler runs on the bytes after the tag and its
   * outcome is the instruction's. The handlers are given as `process`.
   */
  function ProcessInstruction(instructionData: seq<Byte>, process: (NixInstruction, seq<Byte>) -> Outcome): (r: Outcome)
    ensures instructionData == [] ==> r == Fail(Program(InvalidInstructionData))
    ensures instructionData != [] && instructionData[0] >= 9 ==> r == Fail(Program(InvalidAccountData))
    ensures r.Pass? ==> instructionData != [] && TryFrom(instructionData[0]).Some?
                        && process(TryFrom(instructionData[0]).value, instructionData[1..]).Pass?
  {
    if instructionData == [] then Fail(Program(InvalidInstructionData))
    else
      match TryFrom(instructionData[0])
      case None => Fail(Program(InvalidAccountData))
      case Some(instruction) => process(instruction, instructionData[1..])
  }

  /** An encoded instruction followed by its arguments runs that instruction's handler on them. */
  lemma DispatchesEncoded(i: NixInstruction, args: seq<Byte>, process: (NixInstruction, seq<Byte>) -> Outcome)
    ensures ProcessInstruction(ToVec(i) + args, process) == process(i, args)
  {
    ToVecRoundTrip(i);
    assert (ToVec(i) + args)[1..] == args;
  }
}
