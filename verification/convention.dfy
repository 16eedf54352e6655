/**
  The calling convention the generator follows: the System V AMD64 ABI
  integer-argument registers, the function prologue written by
  `CallDecl_class::code`, and the epilogue written by every `return`.
 */
module Convention {
  import opened Asm

  /** The integer-argument registers in argument order, as section 3.2.3 of the System V AMD64 ABI fixes them. */
  const CallRegs: seq<Reg> := [RDI, RSI, RDX, RCX, R8, R9]

  /** Save the caller's RBP, point RBP at the new frame, then save RBX and R10 to R15. */
  function Prologue(): (r: seq<Instr>)
    ensures |r| == 9 && r[0] == Push(RBP) && r[1] == Mov(R(RSP), R(RBP))
    ensures forall i :: 2 <= i < 9 ==> r[i].Push? && r[i].reg !in {RBP, RSP}
    ensures Ret !in r
  {
    [Push(RBP), Mov(R(RSP), R(RBP)),
     Push(RBX), Push(R10), Push(R11), Push(R12), Push(R13), Push(R14), Push(R15)]
  }

  /**
    Pop R15 down to RBX, then `leave` and `ret`. The seven pops name the registers the prologue
    pushes after RBP in reverse order: pop `i` names the register pushed by prologue line `8 - i`.
   */
  function Epilogue(): (r: seq<Instr>)
    ensures |r| == 9 && r[7] == Leave && r[8] == Ret
    ensures forall i :: 0 <= i < 7 ==> r[i] == Pop(Prologue()[8 - i].reg)
    ensures Ret !in r[..8]
  {
    [Pop(R15), Pop(R14), Pop(R13), Pop(R12), Pop(R11), Pop(R10), Pop(RBX), Leave, Ret]
  }
}
