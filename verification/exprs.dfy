/**
  Expression lowering (the `code` methods of `Assign`, the arithmetic,
  relational, logical and bitwise nodes, and the constants).

  Each node that produces a value first reserves one frame word with
  `sub $8, %rsp`. Arithmetic nodes and `Neg` lower their operands first;
  the relational, logical and bitwise nodes do not lower their operands at
  all. `Const_int` writes its value without reserving a word. `Const_float`,
  `Call`, `Actual`, `Object` and `No_expr` write nothing. `Assign` is the one
  node that touches the global table: its `globalTab[lvalue]` test inserts
  a null entry for a name the table does not hold.
 */
module ExprCode {
  import opened Ast
  import opened Asm
  import opened Tables

  /** The labels that relational lowering defines and jumps to. */
  const ExprLabels: set<string> := {"POSLT0", "POSLT1", "POS"}

  /** The jump condition that sets a relational node's result to one. */
  function CondOf(op: RelOp): Cond
  {
    match op
    case Lt => L
    case Le => LE
    case Equ => E
    case Neq => NE
    case Ge => GE
    case Gt => G
  }

  /** What an arithmetic node writes after its reservation: load both operands, combine, store. */
  function ArithBody(op: ArithOp): (r: seq<Instr>)
    ensures SubRsp !in r
  {
    match op
    case Add => [Mov(R(RBP), R(RBX)), Mov(R(RBP), R(R10)), Instr.Add(R(RBX), R(R10)), Mov(R(R10), R(RBP))]
    case Minus => [Mov(R(RBP), R(RBX)), Mov(R(RBP), R(R10)), Sub(R(RBX), R(R10)), Mov(R(R10), R(RBP))]
    case Multi => [Mov(R(RBP), R(RBX)), Mov(R(RBP), R(R10)), Mul(R(RBX), R(R10)), Mov(R(R10), R(RBP))]
    case Divide => [Mov(R(RBP), R(RAX)), Cqto, Mov(R(RBP), R(RBX)), Div(RBX), Mov(R(RAX), R(RBP))]
    case Mod => [Mov(R(RBP), R(RAX)), Cqto, Mov(R(RBP), R(RBX)), Div(RBX), Mov(R(RDX), R(RBP))]
  }

  /** The labels a relational node uses: `Lt` has its own pair, every other comparison uses the bare text `POS` twice. */
  function RelLabels(op: RelOp): (string, string)
  {
    if op == Lt then ("POSLT0", "POSLT1") else ("POS", "POS")
  }

  /** What a relational node writes after its reservation: compare, then branch to set the result to 0 or 1. */
  function RelBody(op: RelOp): (r: seq<Instr>)
    ensures SubRsp !in r
  {
    var (yes, done) := RelLabels(op);
    [Mov(R(RBP), R(RAX)), Mov(R(RBP), R(RDX)), Cmp(R(RDX), R(RAX)),
     Jump(CondOf(op), yes), Mov(Imm("0"), R(RAX)), Jump(Always, done),
     Position(yes), Mov(Imm("1"), R(RAX)), Position(done), Mov(R(RAX), R(RBP))]
  }

  /** What a two-operand logical or bitwise node writes after its reservation. */
  function BitBody(op: BitOp): (r: seq<Instr>)
    ensures SubRsp !in r
  {
    var combine :=
      match op
      case And => Instr.And(R(RAX), R(RDX))
      case Bitand => Instr.And(R(RAX), R(RDX))
      case Or => Instr.Or(R(RAX), R(RDX))
      case Bitor => Instr.Or(R(RAX), R(RDX))
      case Xor => Instr.Xor(R(RAX), R(RDX));
    [Mov(R(RBP), R(RAX)), Mov(R(RBP), R(RDX)), combine, Mov(R(RDX), R(RBP))]
  }

  /** What `Neg` writes after its reservation. */
  function NegBody(): (r: seq<Instr>)
    ensures SubRsp !in r
  {
    [Mov(R(RBP), R(RAX)), Instr.Neg(RAX), Mov(R(RAX), R(RBP))]
  }

  /** What `Not` writes after its reservation: flip the low bit. */
  function NotBody(): (r: seq<Instr>)
    ensures SubRsp !in r
  {
    [Mov(R(RBP), R(RAX)), Mov(Imm("0x0000000000000001"), R(RDX)), Instr.Xor(R(RDX), R(RAX)), Mov(R(RAX), R(RBP))]
  }

  /** What `Bitnot` writes after its reservation. */
  function BitnotBody(): (r: seq<Instr>)
    ensures SubRsp !in r
  {
    [Mov(R(RBP), R(RAX)), Instr.Not(RAX), Mov(R(RAX), R(RBP))]
  }

  /** What a string constant writes after its reservation: the fixed symbol `LC`, whatever the string. */
  function StringBody(): (r: seq<Instr>)
    ensures SubRsp !in r
  {
    [Mov(Sym("LC"), R(RAX)), Mov(R(RAX), R(RBP))]
  }

  /** What a boolean constant writes after its reservation. */
  function BoolBody(flag: bool): (r: seq<Instr>)
    ensures SubRsp !in r
  {
    [Mov(Imm(if flag then "1" else "0"), R(RAX)), Mov(R(RAX), R(RBP))]
  }

  /** What an integer constant writes: no reservation at all. */
  function IntBody(digits: Symbol): (r: seq<Instr>)
    ensures SubRsp !in r
  {
    [Mov(Imm(digits), R(RAX)), Mov(R(RAX), R(RBP))]
  }

  /** The last two lines of an assignment: load the value, then store it through RIP or through RBP. */
  function StoreBody(toGlobal: bool): (r: seq<Instr>)
    ensures SubRsp !in r
  {
    [Mov(R(RBP), R(RAX)), if toGlobal then Mov(R(RAX), R(RIP)) else Mov(R(RAX), R(RBP))]
  }

  /** The lowering of an expression, from the global table as it stands when the expression is reached. */
  function CodeExpr(e: Expr, gt: GlobalTable): Emitted
  {
    match e
    case Assign(lv, value) =>
      var gt1 := Touch(gt, lv);
      var toGlobal := IsGlobal(gt1, lv);
      var v := CodeExpr(value, gt1);
      Emitted([SubRsp] + v.code + StoreBody(toGlobal), v.globals)
    case Arith(op, e1, e2) =>
      var c1 := CodeExpr(e1, gt);
      var c2 := CodeExpr(e2, c1.globals);
      Emitted(c1.code + c2.code + ([SubRsp] + ArithBody(op)), c2.globals)
    case Neg(e1) =>
      var c1 := CodeExpr(e1, gt);
      Emitted(c1.code + ([SubRsp] + NegBody()), c1.globals)
    case Rel(op, _, _) => Emitted([SubRsp] + RelBody(op), gt)
    case Bitwise(op, _, _) => Emitted([SubRsp] + BitBody(op), gt)
    case Not(_) => Emitted([SubRsp] + NotBody(), gt)
    case Bitnot(_) => Emitted([SubRsp] + BitnotBody(), gt)
    case ConstInt(digits) => Emitted(IntBody(digits), gt)
    case ConstString(_) => Emitted([SubRsp] + StringBody(), gt)
    case ConstBool(flag) => Emitted([SubRsp] + BoolBody(flag), gt)
    case ConstFloat(_) => Emitted([], gt)
    case Call(_, _) => Emitted([], gt)
    case Actual(_) => Emitted([], gt)
    case Object(_) => Emitted([], gt)
    case NoExpr => Emitted([], gt)
  }

  /**
    The number of frame words an expression's lowering reserves, read off the tree: an arithmetic
    node adds one to its operands', `Neg` one to its operand's, an assignment one to its value's;
    every relational, logical and bitwise node, and every string or boolean constant, reserves one;
    integer constants and the empty node kinds reserve none.
   */
  function Slots(e: Expr): nat
  {
    match e
    case Assign(_, value) => Slots(value) + 1
    case Arith(_, e1, e2) => Slots(e1) + Slots(e2) + 1
    case Neg(e1) => Slots(e1) + 1
    case Rel(_, _, _) => 1
    case Bitwise(_, _, _) => 1
    case Not(_) => 1
    case Bitnot(_) => 1
    case ConstString(_) => 1
    case ConstBool(_) => 1
    case ConstInt(_) => 0
    case ConstFloat(_) => 0
    case Call(_, _) => 0
    case Actual(_) => 0
    case Object(_) => 0
    case NoExpr => 0
  }

  lemma ReservedFirst(body: seq<Instr>)
    requires SubRsp !in body
    ensures Reservations([SubRsp] + body) == 1
  {
    CountConcat([SubRsp], body, SubRsp);
  }

  /** Lowering an expression reserves exactly `Slots(e)` frame words, whatever the global table holds. */
  lemma {:induction false} ExprReservations(e: Expr, gt: GlobalTable)
    ensures Reservations(CodeExpr(e, gt).code) == Slots(e)
  {
    match e
    case Assign(lv, value) =>
      ExprReservations(value, Touch(gt, lv));
      AssignReservations(lv, value, gt);
    case Arith(op, e1, e2) =>
      ExprReservations(e1, gt);
      ExprReservations(e2, CodeExpr(e1, gt).globals);
      ArithReservations(op, e1, e2, gt);
    case Neg(e1) =>
      ExprReservations(e1, gt);
      NegReservations(e1, gt);
    case _ =>
      LeafReservations(e, gt);
  }

  lemma AssignReservations(lv: Symbol, value: Expr, gt: GlobalTable)
    requires Reservations(CodeExpr(value, Touch(gt, lv)).code) == Slots(value)
    ensures Reservations(CodeExpr(Assign(lv, value), gt).code) == Slots(value) + 1
  {
    var gt1 := Touch(gt, lv);
    AssignSlots(CodeExpr(value, gt1).code, IsGlobal(gt1, lv));
  }

  lemma AssignSlots(v: seq<Instr>, toGlobal: bool)
    ensures Reservations([SubRsp] + v + StoreBody(toGlobal)) == Reservations(v) + 1
  {
    CountConcat([SubRsp], v, SubRsp);
    CountConcat([SubRsp] + v, StoreBody(toGlobal), SubRsp);
  }

  lemma ArithReservations(op: ArithOp, e1: Expr, e2: Expr, gt: GlobalTable)
    requires Reservations(CodeExpr(e1, gt).code) == Slots(e1)
    requires Reservations(CodeExpr(e2, CodeExpr(e1, gt).globals).code) == Slots(e2)
    ensures Reservations(CodeExpr(Arith(op, e1, e2), gt).code) == Slots(e1) + Slots(e2) + 1
  {
    var c1 := CodeExpr(e1, gt);
    ArithSlots(c1.code, CodeExpr(e2, c1.globals).code, op);
  }

  lemma ArithSlots(a: seq<Instr>, b: seq<Instr>, op: ArithOp)
    ensures Reservations(a + b + ([SubRsp] + ArithBody(op))) == Reservations(a) + Reservations(b) + 1
  {
    ReservedFirst(ArithBody(op));
    CountConcat(a, b, SubRsp);
    CountConcat(a + b, [SubRsp] + ArithBody(op), SubRsp);
  }

  lemma NegReservations(e1: Expr, gt: GlobalTable)
    requires Reservations(CodeExpr(e1, gt).code) == Slots(e1)
    ensures Reservations(CodeExpr(Expr.Neg(e1), gt).code) == Slots(e1) + 1
  {
    NegSlots(CodeExpr(e1, gt).code);
  }

  lemma NegSlots(a: seq<Instr>)
    ensures Reservations(a + ([SubRsp] + NegBody())) == Reservations(a) + 1
  {
    ReservedFirst(NegBody());
    CountConcat(a, [SubRsp] + NegBody(), SubRsp);
  }

  lemma LeafReservations(e: Expr, gt: GlobalTable)
    requires !e.Assign? && !e.Arith? && !e.Neg?
    ensures Reservations(CodeExpr(e, gt).code) == Slots(e)
  {
    match e
    case Rel(op, _, _) => ReservedFirst(RelBody(op));
    case Bitwise(op, _, _) => ReservedFirst(BitBody(op));
    case Not(_) => ReservedFirst(NotBody());
    case Bitnot(_) => ReservedFirst(BitnotBody());
    case _ => ConstReservations(e, gt);
  }

  /** A string or boolean constant reserves one word; an integer constant and the empty kinds none. */
  lemma ConstReservations(e: Expr, gt: GlobalTable)
    requires !e.Assign? && !e.Arith? && !e.Neg? && !e.Rel? && !e.Bitwise? && !e.Not? && !e.Bitnot?
    ensures Reservations(CodeExpr(e, gt).code) == Slots(e)
  {
    match e
    case ConstString(_) => ReservedFirst(StringBody());
    case ConstBool(flag) => ReservedFirst(BoolBody(flag));
    case ConstInt(digits) => CountAbsent(IntBody(digits), SubRsp);
    case ConstFloat(_) =>
    case Call(_, _) =>
    case Actual(_) =>
    case Object(_) =>
    case NoExpr =>
  }

  /**
    The names whose `globalTab[...]` entry lowering reads: the target of every assignment that is
    lowered, which excludes assignments under a relational, logical or bitwise node.
   */
  function AssignTargets(e: Expr): set<Symbol>
  {
    match e
    case Assign(lv, value) => {lv} + AssignTargets(value)
    case Arith(_, e1, e2) => AssignTargets(e1) + AssignTargets(e2)
    case Neg(e1) => AssignTargets(e1)
    case _ => {}
  }

  /** Lowering only adds null entries to the global table, exactly one per assignment target not already present. */
  lemma {:induction false} ExprGlobalsGrowth(e: Expr, gt: GlobalTable)
    ensures CodeExpr(e, gt).globals.Keys == gt.Keys + AssignTargets(e)
    ensures GrowsByNulls(gt, CodeExpr(e, gt).globals)
  {
    match e
    case Assign(lv, value) =>
      ExprGlobalsGrowth(value, Touch(gt, lv));
    case Arith(op, e1, e2) =>
      var c1 := CodeExpr(e1, gt);
      ExprGlobalsGrowth(e1, gt);
      ExprGlobalsGrowth(e2, c1.globals);
      GrowsByNullsTransitive(gt, c1.globals, CodeExpr(e2, c1.globals).globals);
    case Neg(e1) =>
      ExprGlobalsGrowth(e1, gt);
    case _ =>
      LeafGlobals(e, gt);
  }

  /** A node other than an assignment, an arithmetic node or `Neg` leaves the table as it found it. */
  lemma LeafGlobals(e: Expr, gt: GlobalTable)
    requires !e.Assign? && !e.Arith? && !e.Neg?
    ensures CodeExpr(e, gt).globals == gt && AssignTargets(e) == {}
  {
  }

  /**
    An assignment reserves its word first and ends by storing RAX through RIP exactly when the
    global table held a non-null entry for its target on entry, and through RBP otherwise; no frame
    table takes part in the choice. Afterwards the table holds the target.
   */
  lemma AssignStoreTarget(lv: Symbol, value: Expr, gt: GlobalTable)
    ensures var r := CodeExpr(Assign(lv, value), gt).code;
      && |r| >= 3 && r[0] == SubRsp && r[|r| - 2] == Mov(R(RBP), R(RAX))
      && (r[|r| - 1] == Mov(R(RAX), R(RIP)) <==> IsGlobal(gt, lv))
      && (r[|r| - 1] == Mov(R(RAX), R(RBP)) <==> !IsGlobal(gt, lv))
    ensures lv in CodeExpr(Assign(lv, value), gt).globals
  {
    ExprGlobalsGrowth(value, Touch(gt, lv));
  }

  /**
    `Divide` and `Mod` are the same instruction for instruction, `cqto` then `div %rbx` included,
    except for the last store: the quotient register RAX for `Divide`, the remainder register RDX for `Mod`.
   */
  lemma DivideModTwins(e1: Expr, e2: Expr, gt: GlobalTable)
    ensures var d := CodeExpr(Arith(Divide, e1, e2), gt);
      var m := CodeExpr(Arith(Mod, e1, e2), gt);
      && |d.code| == |m.code| >= 6
      && d.code[..|d.code| - 1] == m.code[..|m.code| - 1]
      && d.code[|d.code| - 4] == Cqto && d.code[|d.code| - 2] == Div(RBX)
      && d.code[|d.code| - 1] == Mov(R(RAX), R(RBP))
      && m.code[|m.code| - 1] == Mov(R(RDX), R(RBP))
      && d.globals == m.globals
  {
    var c1 := CodeExpr(e1, gt);
    var c2 := CodeExpr(e2, c1.globals);
    Associate(c1.code + c2.code, [SubRsp], ArithBody(Divide));
    Associate(c1.code + c2.code, [SubRsp], ArithBody(Mod));
    TwinBodies(c1.code + c2.code + [SubRsp]);
  }

  /** After any common prefix, the `Divide` and `Mod` bodies differ in their last line only. */
  lemma TwinBodies(pre: seq<Instr>)
    ensures var d := pre + ArithBody(Divide);
      var m := pre + ArithBody(Mod);
      && |d| == |m| == |pre| + 5
      && d[..|d| - 1] == m[..|m| - 1]
      && d[|d| - 4] == Cqto && d[|d| - 2] == Div(RBX)
      && d[|d| - 1] == Mov(R(RAX), R(RBP))
      && m[|m| - 1] == Mov(R(RDX), R(RBP))
  {
    var d := pre + ArithBody(Divide);
    var m := pre + ArithBody(Mod);
    assert ArithBody(Divide)[..4] == ArithBody(Mod)[..4];
    assert d[..|d| - 1] == pre + ArithBody(Divide)[..4];
    assert m[..|m| - 1] == pre + ArithBody(Mod)[..4];
  }

  /** Relational, logical and bitwise nodes lower to the same code whatever their operands are. */
  lemma OperandsNotLowered(a: Expr, b: Expr, a': Expr, b': Expr, gt: GlobalTable)
    ensures forall op :: CodeExpr(Rel(op, a, b), gt) == CodeExpr(Rel(op, a', b'), gt)
    ensures forall op :: CodeExpr(Bitwise(op, a, b), gt) == CodeExpr(Bitwise(op, a', b'), gt)
    ensures CodeExpr(Expr.Not(a), gt) == CodeExpr(Expr.Not(a'), gt)
    ensures CodeExpr(Bitnot(a), gt) == CodeExpr(Bitnot(a'), gt)
  {
  }

  /**
    The kinds of line expression lowering can produce: no stack-frame or control-transfer
    instruction, no directive, and only the relational labels.
   */
  predicate ExprInstr(i: Instr)
  {
    match i
    case Position(l) => l in ExprLabels
    case Jump(_, l) => l in ExprLabels
    case Mov(_, _) => true
    case Add(_, _) => true
    case Sub(_, _) => true
    case Mul(_, _) => true
    case Div(_) => true
    case Cqto => true
    case Neg(_) => true
    case And(_, _) => true
    case Or(_, _) => true
    case Xor(_, _) => true
    case Not(_) => true
    case Cmp(_, _) => true
    case _ => false
  }

  predicate AllExprInstrs(code: seq<Instr>)
  {
    forall x :: x in code ==> ExprInstr(x)
  }

  /** Every line of an expression's lowering is an `ExprInstr`. */
  lemma {:induction false} ExprCodeShape(e: Expr, gt: GlobalTable)
    ensures AllExprInstrs(CodeExpr(e, gt).code)
  {
    match e
    case Assign(lv, value) =>
      ExprCodeShape(value, Touch(gt, lv));
      assert AllExprInstrs(StoreBody(IsGlobal(Touch(gt, lv), lv)));
    case Arith(op, e1, e2) =>
      ExprCodeShape(e1, gt);
      ExprCodeShape(e2, CodeExpr(e1, gt).globals);
      assert AllExprInstrs([SubRsp] + ArithBody(op));
    case Neg(e1) =>
      ExprCodeShape(e1, gt);
      assert AllExprInstrs([SubRsp] + NegBody());
    case _ =>
      LeafCodeShape(e, gt);
  }

  lemma LeafCodeShape(e: Expr, gt: GlobalTable)
    requires !e.Assign? && !e.Arith? && !e.Neg?
    ensures AllExprInstrs(CodeExpr(e, gt).code)
  {
    match e
    case Rel(op, _, _) => RelShape(op);
    case Bitwise(op, _, _) => BitShape(op);
    case Not(_) => UnaryShape();
    case Bitnot(_) => UnaryShape();
    case ConstInt(digits) => ConstShape(digits, false);
    case ConstString(_) => ConstShape([], false);
    case ConstBool(flag) => ConstShape([], flag);
    case ConstFloat(_) =>
    case Call(_, _) =>
    case Actual(_) =>
    case Object(_) =>
    case NoExpr =>
  }

  lemma RelShape(op: RelOp)
    ensures AllExprInstrs([SubRsp] + RelBody(op))
  {
    var (yes, done) := RelLabels(op);
    assert yes in ExprLabels && done in ExprLabels;
  }

  lemma BitShape(op: BitOp)
    ensures AllExprInstrs([SubRsp] + BitBody(op))
  {
  }

  lemma UnaryShape()
    ensures AllExprInstrs([SubRsp] + NotBody()) && AllExprInstrs([SubRsp] + BitnotBody())
  {
  }

  lemma ConstShape(digits: Symbol, flag: bool)
    ensures AllExprInstrs(IntBody(digits)) && AllExprInstrs([SubRsp] + StringBody())
    ensures AllExprInstrs([SubRsp] + BoolBody(flag))
  {
  }
}
