/**
  Abstract x86-64 assembly emitted by the Seal code generator.

  Every `emit_*` helper of the generator, and every directive it writes
  directly to the output stream, becomes one constructor of `Instr`. The
  textual spelling of opcodes, registers and directives comes from macros
  that are not part of this model, so an `Instr` records only which line
  is written and with which operands.
 */
module Asm {

  /** The general-purpose registers the generator names (plus RIP, used as a store target). */
  datatype Reg =
    | RAX | RBX | RCX | RDX | RSI | RDI | RBP | RSP | RIP
    | R8 | R9 | R10 | R11 | R12 | R13 | R14 | R15

  /** An operand as the generator writes it: a register, an immediate (`$text`), or bare symbolic text. */
  datatype Operand =
    | R(reg: Reg)
    | Imm(text: string)
    | Sym(text: string)

  /** Jump conditions: `jmp`, `jl`, `jle`, `je`, `jne`, `jg`, `jge`, `jz`. */
  datatype Cond = Always | L | LE | E | NE | G | GE | Z

  /** The kind named in a `.type` directive. */
  datatype SymKind = ObjectKind | FunctionKind

  /** The storage directive used for a zero word of a global of the given type. */
  datatype DataTag = IntTag | FloatTag | BoolTag

  datatype Instr =
    // instructions
    | Mov(src: Operand, dst: Operand)
    | Add(src: Operand, dst: Operand)
    | Sub(src: Operand, dst: Operand)
    | Mul(src: Operand, dst: Operand)
    | Div(divisor: Reg)
    | Cqto
    | Neg(reg: Reg)
    | And(src: Operand, dst: Operand)
    | Or(src: Operand, dst: Operand)
    | Xor(src: Operand, dst: Operand)
    | Not(reg: Reg)
    | Cmp(src: Operand, dst: Operand)
    | Test(src: Operand, dst: Operand)
    | Jump(cond: Cond, target: string)
    | Push(reg: Reg)
    | Pop(reg: Reg)
    | Leave
    | Ret
    // labels and bare lines
    | Position(name: string)           // `label:`
    | Marker(text: string)             // a line holding `text` with no colon
    | Comment(text: string)            // `# text`
    // directives
    | DataSection
    | RodataSection
    | TextSection
    | Global(name: string)
    | Align(bytes: nat)
    | TypeOf(name: string, kind: SymKind)
    | Size(name: string, bytes: nat)
    | SizeToHere(name: string)         // `.size name, .-name`
    | Word(tag: DataTag, value: int)
    | StringDef(index: nat, text: string)

  /** The machine instructions, as opposed to labels, comments and directives. */
  predicate IsInstruction(i: Instr)
  {
    match i
    case Mov(_, _) => true
    case Add(_, _) => true
    case Sub(_, _) => true
    case Mul(_, _) => true
    case Div(_) => true
    case Cqto => true
    case Neg(_) => true
    case And(_, _) => true
    case Or(_, _) => true
    case Xor(_, _) => true
    case Not(_) => true
    case Cmp(_, _) => true
    case Test(_, _) => true
    case Jump(_, _) => true
    case Push(_) => true
    case Pop(_) => true
    case Leave => true
    case Ret => true
    case _ => false
  }

  /** The lines that belong to the data section: its header, alignment and object size directives, and zero words. */
  predicate IsDataLine(i: Instr)
  {
    match i
    case DataSection => true
    case Align(_) => true
    case Size(_, _) => true
    case Word(_, _) => true
    case _ => false
  }

  /** The lines a function's code may hold: anything but a section header, a data line, a string or a comment. */
  predicate IsTextLine(i: Instr)
  {
    match i
    case DataSection => false
    case RodataSection => false
    case TextSection => false
    case Align(_) => false
    case Size(_, _) => false
    case Word(_, _) => false
    case StringDef(_, _) => false
    case Comment(_) => false
    case _ => true
  }

  /** The one-word slot reservation `sub $8, %rsp`. */
  const SubRsp: Instr := Sub(Imm("8"), R(RSP))

  /** How many times `x` occurs in `code`. */
  function Count(code: seq<Instr>, x: Instr): nat
  {
    multiset(code)[x]
  }

  /** The number of frame slots `code` reserves, i.e. its `sub $8, %rsp` instructions. */
  function Reservations(code: seq<Instr>): nat
  {
    Count(code, SubRsp)
  }

  lemma CountConcat(a: seq<Instr>, b: seq<Instr>, x: Instr)
    ensures Count(a + b, x) == Count(a, x) + Count(b, x)
  {
    assert multiset(a + b) == multiset(a) + multiset(b);
  }

  lemma CountAbsent(code: seq<Instr>, x: Instr)
    requires x !in code
    ensures Count(code, x) == 0
  {
  }

  lemma CountFive(a: seq<Instr>, b: seq<Instr>, c: seq<Instr>, d: seq<Instr>, e: seq<Instr>, x: Instr)
    ensures Count(a + b + c + d + e, x) == Count(a, x) + Count(b, x) + Count(c, x) + Count(d, x) + Count(e, x)
  {
    CountConcat(a, b, x);
    CountConcat(a + b, c, x);
    CountConcat(a + b + c, d, x);
    CountConcat(a + b + c + d, e, x);
  }

  lemma CountSingle(y: Instr, x: Instr)
    ensures Count([y], x) == if y == x then 1 else 0
  {
  }

  lemma Associate(a: seq<Instr>, b: seq<Instr>, c: seq<Instr>)
    ensures a + b + c == a + (b + c)
  {
  }
}
