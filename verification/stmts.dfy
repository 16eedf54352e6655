/**
  Statement lowering (`StmtBlock`, `If`, `While`, `For`, `Return`, `Break`
  and `Continue`, and an expression used as a statement).

  Control flow uses fixed label text: every `If` defines `POSIF2`, every
  loop `POS condition`, and so on, so two statements of one kind in a
  program share their labels. Several of these lines are written without
  the trailing colon that would make them label definitions (`Marker`), and
  `For` jumps to `POS ForEND` while the line it writes is `POS forEND`.
  A `return` writes the epilogue and nothing else, leaving its value
  unlowered; `break` and `continue` write nothing; a nested block's
  declarations are ignored (only a function body's declarations get slots).
 */
module StmtCode {
  import opened Ast
  import opened Asm
  import opened Tables
  import opened ExprCode
  import opened Convention

  /** Load the condition's result and jump to `target` when it is zero. */
  function TestResult(target: string): seq<Instr>
  {
    [Mov(R(RBP), R(RAX)), Test(R(RAX), R(RAX)), Jump(Z, target)]
  }

  /** The lines an `If` adds of its own, in order. */
  function IfGlue(): seq<Instr>
  {
    TestResult("POSIF2") + [Jump(Always, "POS ifEND"), Position("POSIF2"), Marker("POS ifEND")]
  }

  /** The lines a `While` adds of its own, in order. */
  function WhileGlue(): seq<Instr>
  {
    [Marker("POS condition")] + TestResult("POS whileEND") + [Jump(Always, "POS condition"), Marker("POS whileEND")]
  }

  /** The lines a `For` adds of its own, in order. */
  function ForGlue(): seq<Instr>
  {
    [Position("POS condition")] + TestResult("POS ForEND") + [Position("POS loopact")]
      + [Jump(Always, "POS condition"), Marker("POS forEND")]
  }

  /** The lines an `If` adds around its condition and branches. */
  function IfLayout(cond: seq<Instr>, thenCode: seq<Instr>, elseCode: seq<Instr>): seq<Instr>
  {
    cond + TestResult("POSIF2") + thenCode + [Jump(Always, "POS ifEND"), Position("POSIF2")]
      + elseCode + [Marker("POS ifEND")]
  }

  /** The lines a `While` adds around its condition and body. */
  function WhileLayout(cond: seq<Instr>, body: seq<Instr>): seq<Instr>
  {
    [Marker("POS condition")] + cond + TestResult("POS whileEND") + body
      + [Jump(Always, "POS condition"), Marker("POS whileEND")]
  }

  /** The lines a `For` adds around its initializer, condition, body and step. */
  function ForLayout(init: seq<Instr>, cond: seq<Instr>, body: seq<Instr>, step: seq<Instr>): seq<Instr>
  {
    init + [Position("POS condition")] + cond + TestResult("POS ForEND") + body
      + [Position("POS loopact")] + step + [Jump(Always, "POS condition"), Marker("POS forEND")]
  }

  /** The lowering of a statement, threading the global table through its expressions in order. */
  function CodeStmt(s: Stmt, gt: GlobalTable): Emitted
  {
    match s
    case BlockStmt(b) => CodeBlock(b, gt)
    case If(c, t, e) =>
      var cc := CodeExpr(c, gt);
      var ct := CodeBlock(t, cc.globals);
      var ce := CodeBlock(e, ct.globals);
      Emitted(IfLayout(cc.code, ct.code, ce.code), ce.globals)
    case While(c, body) =>
      var cc := CodeExpr(c, gt);
      var cb := CodeBlock(body, cc.globals);
      Emitted(WhileLayout(cc.code, cb.code), cb.globals)
    case For(init, c, step, body) =>
      var ci := CodeExpr(init, gt);
      var cc := CodeExpr(c, ci.globals);
      var cb := CodeBlock(body, cc.globals);
      var cs := CodeExpr(step, cb.globals);
      Emitted(ForLayout(ci.code, cc.code, cb.code, cs.code), cs.globals)
    case Return(_) => Emitted(Epilogue(), gt)
    case Continue => Emitted([], gt)
    case Break => Emitted([], gt)
    case ExprStmt(e) => CodeExpr(e, gt)
  }

  /** A block lowers its statements only; its declarations are not looked at. */
  function CodeBlock(b: Block, gt: GlobalTable): Emitted
  {
    CodeStmts(b.stmts, gt)
  }

  function CodeStmts(ss: seq<Stmt>, gt: GlobalTable): Emitted
  {
    if |ss| == 0 then Emitted([], gt)
    else
      var first := CodeStmt(ss[0], gt);
      var rest := CodeStmts(ss[1..], first.globals);
      Emitted(first.code + rest.code, rest.globals)
  }

  // ---------------------------------------------------------------------------
  // Counting through the layouts

  lemma IfLayoutCount(a: seq<Instr>, b: seq<Instr>, c: seq<Instr>, x: Instr)
    ensures Count(IfLayout(a, b, c), x) ==
      Count(a, x) + Count(b, x) + Count(c, x)
      + Count(IfGlue(), x)
  {
  }

  lemma WhileLayoutCount(a: seq<Instr>, b: seq<Instr>, x: Instr)
    ensures Count(WhileLayout(a, b), x) ==
      Count(a, x) + Count(b, x)
      + Count(WhileGlue(), x)
  {
  }

  lemma ForLayoutCount(a: seq<Instr>, b: seq<Instr>, c: seq<Instr>, d: seq<Instr>, x: Instr)
    ensures Count(ForLayout(a, b, c, d), x) ==
      Count(a, x) + Count(b, x) + Count(c, x) + Count(d, x)
      + Count(ForGlue(), x)
  {
  }

  /** The control-flow lines reserve no frame words. */
  lemma GlueReservesNothing()
    ensures Reservations(IfGlue()) == 0 && Reservations(WhileGlue()) == 0 && Reservations(ForGlue()) == 0
  {
    IfGlueFree();
    WhileGlueFree();
    ForGlueFree();
  }

  lemma IfGlueFree()
    ensures Reservations(IfGlue()) == 0
  {
    CountAbsent(IfGlue(), SubRsp);
  }

  lemma WhileGlueFree()
    ensures Reservations(WhileGlue()) == 0
  {
    CountAbsent(WhileGlue(), SubRsp);
  }

  lemma ForGlueFree()
    ensures Reservations(ForGlue()) == 0
  {
    CountAbsent(ForGlue(), SubRsp);
  }

  /** The epilogue reserves nothing and defines no label. */
  lemma EpilogueCounts()
    ensures Reservations(Epilogue()) == 0 && Count(Epilogue(), Position("POSIF2")) == 0
  {
    EpilogueLacks(SubRsp);
    EpilogueLacks(Position("POSIF2"));
  }

  lemma EpilogueLacks(x: Instr)
    requires !x.Pop? && !x.Leave? && !x.Ret?
    ensures Count(Epilogue(), x) == 0
  {
    CountAbsent(Epilogue(), x);
  }

  /** An `If`'s own lines define `POSIF2` once. */
  lemma IfGlueLabel()
    ensures Count(IfGlue(), Position("POSIF2")) == 1
  {
    var x := Position("POSIF2");
    var head := TestResult("POSIF2") + [Jump(Always, "POS ifEND")];
    var tail := [Marker("POS ifEND")];
    assert IfGlue() == head + [x] + tail;
    assert x !in head;
    assert x !in tail;
    CountAbsent(head, x);
    CountAbsent(tail, x);
    CountConcat(head, [x], x);
    CountConcat(head + [x], tail, x);
  }

  /** The loops' own lines do not define `POSIF2`. */
  lemma LoopGlueLabels()
    ensures Count(WhileGlue(), Position("POSIF2")) == 0 && Count(ForGlue(), Position("POSIF2")) == 0
  {
    CountAbsent(WhileGlue(), Position("POSIF2"));
    CountAbsent(ForGlue(), Position("POSIF2"));
  }

  // ---------------------------------------------------------------------------
  // Frame-word reservations

  /** The frame words a statement's lowering reserves: those of the expressions it lowers, and nothing of its own. */
  function StmtSlots(s: Stmt): nat
  {
    match s
    case BlockStmt(b) => BlockSlots(b)
    case If(c, t, e) => Slots(c) + BlockSlots(t) + BlockSlots(e)
    case While(c, body) => Slots(c) + BlockSlots(body)
    case For(init, c, step, body) => Slots(init) + Slots(c) + BlockSlots(body) + Slots(step)
    case Return(_) => 0
    case Continue => 0
    case Break => 0
    case ExprStmt(e) => Slots(e)
  }

  function BlockSlots(b: Block): nat
  {
    StmtsSlots(b.stmts)
  }

  function StmtsSlots(ss: seq<Stmt>): nat
  {
    if |ss| == 0 then 0 else StmtSlots(ss[0]) + StmtsSlots(ss[1..])
  }

  /** A statement reserves exactly the words its lowered expressions reserve; `return` reserves none. */
  lemma {:induction false} StmtReservations(s: Stmt, gt: GlobalTable)
    ensures Reservations(CodeStmt(s, gt).code) == StmtSlots(s)
    decreases s, 1
  {
    match s
    case BlockStmt(b) => BlockReservations(b, gt);
    case If(c, t, e) =>
      var cc := CodeExpr(c, gt);
      ExprReservations(c, gt);
      BlockReservations(t, cc.globals);
      BlockReservations(e, CodeBlock(t, cc.globals).globals);
      IfReservations(c, t, e, gt);
    case While(_, _) => WhileReservations(s, gt);
    case For(init, c, step, body) =>
      ForReservations(s, gt);
    case Return(_) => EpilogueCounts();
    case Continue =>
    case Break =>
    case ExprStmt(e) => ExprReservations(e, gt);
  }

  lemma IfReservations(c: Expr, t: Block, e: Block, gt: GlobalTable)
    requires Reservations(CodeExpr(c, gt).code) == Slots(c)
    requires Reservations(CodeBlock(t, CodeExpr(c, gt).globals).code) == BlockSlots(t)
    requires Reservations(CodeBlock(e, CodeBlock(t, CodeExpr(c, gt).globals).globals).code) == BlockSlots(e)
    ensures Reservations(CodeStmt(If(c, t, e), gt).code) == StmtSlots(If(c, t, e))
  {
    var cc := CodeExpr(c, gt);
    var ct := CodeBlock(t, cc.globals);
    IfLayoutCount(cc.code, ct.code, CodeBlock(e, ct.globals).code, SubRsp);
    GlueReservesNothing();
  }

  lemma {:induction false} WhileReservations(s: Stmt, gt: GlobalTable)
    requires s.While?
    ensures Reservations(CodeStmt(s, gt).code) == StmtSlots(s)
    decreases s, 0
  {
    var cc := CodeExpr(s.condition, gt);
    var bc := CodeBlock(s.body, cc.globals).code;
    ExprReservations(s.condition, gt);
    BlockReservations(s.body, cc.globals);
    WhileSlots(cc.code, bc);
  }

  lemma WhileSlots(cond: seq<Instr>, body: seq<Instr>)
    ensures Reservations(WhileLayout(cond, body)) == Reservations(cond) + Reservations(body)
  {
    WhileLayoutCount(cond, body, SubRsp);
    GlueReservesNothing();
  }

  lemma {:induction false} ForReservations(s: Stmt, gt: GlobalTable)
    requires s.For?
    ensures Reservations(CodeStmt(s, gt).code) == StmtSlots(s)
    decreases s, 0
  {
    var ci := CodeExpr(s.init, gt);
    var cc := CodeExpr(s.condition, ci.globals);
    var cb := CodeBlock(s.body, cc.globals);
    var cs := CodeExpr(s.step, cb.globals);
    ExprReservations(s.init, gt);
    ExprReservations(s.condition, ci.globals);
    BlockReservations(s.body, cc.globals);
    ExprReservations(s.step, cb.globals);
    ForLayoutCount(ci.code, cc.code, cb.code, cs.code, SubRsp);
    GlueReservesNothing();
  }

  lemma {:induction false} BlockReservations(b: Block, gt: GlobalTable)
    ensures Reservations(CodeBlock(b, gt).code) == BlockSlots(b)
    decreases b, 2
  {
    StmtsReservations(b.stmts, gt);
  }

  lemma {:induction false} StmtsReservations(ss: seq<Stmt>, gt: GlobalTable)
    ensures Reservations(CodeStmts(ss, gt).code) == StmtsSlots(ss)
    decreases ss, 2
  {
    if |ss| > 0 {
      var first := CodeStmt(ss[0], gt);
      StmtReservations(ss[0], gt);
      StmtsReservations(ss[1..], first.globals);
      CountConcat(first.code, CodeStmts(ss[1..], first.globals).code, SubRsp);
    }
  }

  // ---------------------------------------------------------------------------
  // Every `ret` is preceded by the full epilogue

  /** Every `ret` in `code` ends a copy of the epilogue. */
  ghost predicate ReturnsRestore(code: seq<Instr>)
  {
    forall i :: 0 <= i < |code| && code[i] == Ret ==> 8 <= i && code[i - 8..i + 1] == Epilogue()
  }

  lemma RestoreConcat(a: seq<Instr>, b: seq<Instr>)
    requires ReturnsRestore(a) && ReturnsRestore(b)
    ensures ReturnsRestore(a + b)
  {
    var ab := a + b;
    forall i | 0 <= i < |ab| && ab[i] == Ret
      ensures 8 <= i && ab[i - 8..i + 1] == Epilogue()
    {
      if i < |a| {
        assert a[i] == Ret;
        assert 8 <= i && a[i - 8..i + 1] == Epilogue();
        assert ab[i - 8..i + 1] == a[i - 8..i + 1];
      } else {
        var j := i - |a|;
        assert b[j] == Ret;
        assert 8 <= j && b[j - 8..j + 1] == Epilogue();
        assert ab[i - 8..i + 1] == b[j - 8..j + 1];
      }
    }
  }

  lemma RestoreWithoutRet(code: seq<Instr>)
    requires Ret !in code
    ensures ReturnsRestore(code)
  {
  }

  lemma EpilogueRestores()
    ensures ReturnsRestore(Epilogue())
  {
    var e := Epilogue();
    assert forall i :: 0 <= i < 8 ==> e[i] == e[..8][i];
    assert e[0..9] == e;
  }

  lemma ExprRestores(e: Expr, gt: GlobalTable)
    ensures ReturnsRestore(CodeExpr(e, gt).code)
  {
    ExprCodeShape(e, gt);
    RestoreWithoutRet(CodeExpr(e, gt).code);
  }

  lemma IfRestores(a: seq<Instr>, b: seq<Instr>, c: seq<Instr>)
    requires ReturnsRestore(a) && ReturnsRestore(b) && ReturnsRestore(c)
    ensures ReturnsRestore(IfLayout(a, b, c))
  {
    RestoreWithoutRet(TestResult("POSIF2"));
    RestoreWithoutRet([Jump(Always, "POS ifEND"), Position("POSIF2")]);
    RestoreWithoutRet([Marker("POS ifEND")]);
    RestoreConcat(a, TestResult("POSIF2"));
    RestoreConcat(a + TestResult("POSIF2"), b);
    RestoreConcat(a + TestResult("POSIF2") + b, [Jump(Always, "POS ifEND"), Position("POSIF2")]);
    RestoreConcat(a + TestResult("POSIF2") + b + [Jump(Always, "POS ifEND"), Position("POSIF2")], c);
    RestoreConcat(a + TestResult("POSIF2") + b + [Jump(Always, "POS ifEND"), Position("POSIF2")] + c,
                  [Marker("POS ifEND")]);
  }

  lemma WhileRestores(a: seq<Instr>, b: seq<Instr>)
    requires ReturnsRestore(a) && ReturnsRestore(b)
    ensures ReturnsRestore(WhileLayout(a, b))
  {
    var head := [Marker("POS condition")];
    var tail := [Jump(Always, "POS condition"), Marker("POS whileEND")];
    RestoreWithoutRet(head);
    RestoreWithoutRet(TestResult("POS whileEND"));
    RestoreWithoutRet(tail);
    RestoreConcat(head, a);
    RestoreConcat(head + a, TestResult("POS whileEND"));
    RestoreConcat(head + a + TestResult("POS whileEND"), b);
    RestoreConcat(head + a + TestResult("POS whileEND") + b, tail);
  }

  lemma ForRestores(a: seq<Instr>, b: seq<Instr>, c: seq<Instr>, d: seq<Instr>)
    requires ReturnsRestore(a) && ReturnsRestore(b) && ReturnsRestore(c) && ReturnsRestore(d)
    ensures ReturnsRestore(ForLayout(a, b, c, d))
  {
    var cond := [Position("POS condition")];
    var act := [Position("POS loopact")];
    var tail := [Jump(Always, "POS condition"), Marker("POS forEND")];
    RestoreWithoutRet(cond);
    RestoreWithoutRet(TestResult("POS ForEND"));
    RestoreWithoutRet(act);
    RestoreWithoutRet(tail);
    RestoreConcat(a, cond);
    RestoreConcat(a + cond, b);
    RestoreConcat(a + cond + b, TestResult("POS ForEND"));
    RestoreConcat(a + cond + b + TestResult("POS ForEND"), c);
    RestoreConcat(a + cond + b + TestResult("POS ForEND") + c, act);
    RestoreConcat(a + cond + b + TestResult("POS ForEND") + c + act, d);
    RestoreConcat(a + cond + b + TestResult("POS ForEND") + c + act + d, tail);
  }

  /** On every return path of a statement's lowering, the seven pops, `leave` and `ret` come together. */
  lemma {:induction false} StmtReturnsRestore(s: Stmt, gt: GlobalTable)
    ensures ReturnsRestore(CodeStmt(s, gt).code)
  {
    match s
    case BlockStmt(b) => BlockReturnsRestore(b, gt);
    case If(c, t, e) =>
      var cc := CodeExpr(c, gt);
      var ct := CodeBlock(t, cc.globals);
      ExprRestores(c, gt);
      BlockReturnsRestore(t, cc.globals);
      BlockReturnsRestore(e, ct.globals);
      IfRestores(cc.code, ct.code, CodeBlock(e, ct.globals).code);
    case While(c, body) =>
      var cc := CodeExpr(c, gt);
      ExprRestores(c, gt);
      BlockReturnsRestore(body, cc.globals);
      WhileRestores(cc.code, CodeBlock(body, cc.globals).code);
    case For(init, c, step, body) =>
      var ci := CodeExpr(init, gt);
      var cc := CodeExpr(c, ci.globals);
      var cb := CodeBlock(body, cc.globals);
      ExprRestores(init, gt);
      ExprRestores(c, ci.globals);
      BlockReturnsRestore(body, cc.globals);
      ExprRestores(step, cb.globals);
      ForRestores(ci.code, cc.code, cb.code, CodeExpr(step, cb.globals).code);
    case Return(_) => EpilogueRestores();
    case Continue =>
    case Break =>
    case ExprStmt(e) => ExprRestores(e, gt);
  }

  lemma {:induction false} BlockReturnsRestore(b: Block, gt: GlobalTable)
    ensures ReturnsRestore(CodeBlock(b, gt).code)
  {
    StmtsReturnsRestore(b.stmts, gt);
  }

  lemma {:induction false} StmtsReturnsRestore(ss: seq<Stmt>, gt: GlobalTable)
    ensures ReturnsRestore(CodeStmts(ss, gt).code)
  {
    if |ss| == 0 {
      RestoreWithoutRet([]);
    } else {
      var first := CodeStmt(ss[0], gt);
      StmtReturnsRestore(ss[0], gt);
      StmtsReturnsRestore(ss[1..], first.globals);
      RestoreConcat(first.code, CodeStmts(ss[1..], first.globals).code);
    }
  }

  // ---------------------------------------------------------------------------
  // Fixed label text

  /** The number of `If` statements in a statement, counting nested ones. */
  function StmtIfs(s: Stmt): nat
  {
    match s
    case BlockStmt(b) => BlockIfs(b)
    case If(_, t, e) => 1 + BlockIfs(t) + BlockIfs(e)
    case While(_, body) => BlockIfs(body)
    case For(_, _, _, body) => BlockIfs(body)
    case _ => 0
  }

  function BlockIfs(b: Block): nat
  {
    StmtsIfs(b.stmts)
  }

  function StmtsIfs(ss: seq<Stmt>): nat
  {
    if |ss| == 0 then 0 else StmtIfs(ss[0]) + StmtsIfs(ss[1..])
  }

  lemma ExprNoIfLabel(e: Expr, gt: GlobalTable)
    ensures Count(CodeExpr(e, gt).code, Position("POSIF2")) == 0
  {
    ExprCodeShape(e, gt);
    NoIfLabelIn(CodeExpr(e, gt).code);
  }

  lemma NoIfLabelIn(code: seq<Instr>)
    requires AllExprInstrs(code)
    ensures Count(code, Position("POSIF2")) == 0
  {
    assert !ExprInstr(Position("POSIF2"));
    CountAbsent(code, Position("POSIF2"));
  }

  /**
    Every `If` defines the same label `POSIF2`, once: a statement holding two or more `If`s
    defines that label more than once.
   */
  lemma {:induction false} IfLabelPerIf(s: Stmt, gt: GlobalTable)
    ensures Count(CodeStmt(s, gt).code, Position("POSIF2")) == StmtIfs(s)
    decreases s, 1
  {
    match s
    case BlockStmt(b) => BlockIfLabels(b, gt);
    case If(_, _, _) => IfIfLabels(s, gt);
    case While(_, _) => WhileIfLabels(s, gt);
    case For(_, _, _, _) => ForIfLabels(s, gt);
    case Return(_) => EpilogueCounts();
    case Continue =>
    case Break =>
    case ExprStmt(e) => ExprNoIfLabel(e, gt);
  }

  lemma {:induction false} IfIfLabels(s: Stmt, gt: GlobalTable)
    requires s.If?
    ensures Count(CodeStmt(s, gt).code, Position("POSIF2")) == StmtIfs(s)
    decreases s, 0
  {
    var cc := CodeExpr(s.condition, gt);
    var ct := CodeBlock(s.thenBlock, cc.globals);
    var ce := CodeBlock(s.elseBlock, ct.globals);
    ExprNoIfLabel(s.condition, gt);
    BlockIfLabels(s.thenBlock, cc.globals);
    BlockIfLabels(s.elseBlock, ct.globals);
    IfLayoutCount(cc.code, ct.code, ce.code, Position("POSIF2"));
    IfGlueLabel();
  }

  lemma {:induction false} WhileIfLabels(s: Stmt, gt: GlobalTable)
    requires s.While?
    ensures Count(CodeStmt(s, gt).code, Position("POSIF2")) == StmtIfs(s)
    decreases s, 0
  {
    var cc := CodeExpr(s.condition, gt);
    var cb := CodeBlock(s.body, cc.globals);
    ExprNoIfLabel(s.condition, gt);
    BlockIfLabels(s.body, cc.globals);
    WhileLayoutCount(cc.code, cb.code, Position("POSIF2"));
    LoopGlueLabels();
  }

  lemma {:induction false} ForIfLabels(s: Stmt, gt: GlobalTable)
    requires s.For?
    ensures Count(CodeStmt(s, gt).code, Position("POSIF2")) == StmtIfs(s)
    decreases s, 0
  {
    var ci := CodeExpr(s.init, gt);
    var cc := CodeExpr(s.condition, ci.globals);
    var cb := CodeBlock(s.body, cc.globals);
    var cs := CodeExpr(s.step, cb.globals);
    ExprNoIfLabel(s.init, gt);
    ExprNoIfLabel(s.condition, ci.globals);
    BlockIfLabels(s.body, cc.globals);
    ExprNoIfLabel(s.step, cb.globals);
    ForLayoutCount(ci.code, cc.code, cb.code, cs.code, Position("POSIF2"));
    LoopGlueLabels();
  }

  lemma {:induction false} BlockIfLabels(b: Block, gt: GlobalTable)
    ensures Count(CodeBlock(b, gt).code, Position("POSIF2")) == BlockIfs(b)
    decreases b, 2
  {
    StmtsIfLabels(b.stmts, gt);
  }

  lemma {:induction false} StmtsIfLabels(ss: seq<Stmt>, gt: GlobalTable)
    ensures Count(CodeStmts(ss, gt).code, Position("POSIF2")) == StmtsIfs(ss)
    decreases ss, 2
  {
    if |ss| > 0 {
      var first := CodeStmt(ss[0], gt);
      IfLabelPerIf(ss[0], gt);
      StmtsIfLabels(ss[1..], first.globals);
      CountConcat(first.code, CodeStmts(ss[1..], first.globals).code, Position("POSIF2"));
    }
  }

  /** Two `If`s in sequence define `POSIF2` twice. */
  lemma TwoIfsShareLabel(c1: Expr, c2: Expr, gt: GlobalTable)
    ensures var s := BlockStmt(Block([], [If(c1, Block([], []), Block([], [])), If(c2, Block([], []), Block([], []))]));
      Count(CodeStmt(s, gt).code, Position("POSIF2")) == 2
  {
    var s := BlockStmt(Block([], [If(c1, Block([], []), Block([], [])), If(c2, Block([], []), Block([], []))]));
    IfLabelPerIf(s, gt);
    var ss := [If(c1, Block([], []), Block([], [])), If(c2, Block([], []), Block([], []))];
    assert BlockIfs(Block([], [])) == 0;
    assert StmtIfs(ss[0]) == 1 && StmtIfs(ss[1]) == 1;
    assert ss[1..] == [ss[1]] && ss[1..][1..] == [];
    assert StmtsIfs(ss[1..][1..]) == 0;
    assert StmtsIfs(ss[1..]) == 1;
    assert StmtsIfs(ss) == 2;
    assert s.block.stmts == ss;
  }

  // ---------------------------------------------------------------------------
  // Statement code stays in the text section

  /** Every line of `code` may sit in a function's text. */
  ghost predicate AllTextLines(code: seq<Instr>)
  {
    forall x :: x in code ==> IsTextLine(x)
  }

  lemma ExprTextLines(e: Expr, gt: GlobalTable)
    ensures AllTextLines(CodeExpr(e, gt).code)
  {
    ExprCodeShape(e, gt);
    forall x | x in CodeExpr(e, gt).code
      ensures IsTextLine(x)
    {
      assert ExprInstr(x);
    }
  }

  lemma GlueTextLines()
    ensures AllTextLines(IfGlue()) && AllTextLines(WhileGlue()) && AllTextLines(ForGlue())
    ensures AllTextLines(Epilogue())
  {
    IfGlueText();
    WhileGlueText();
    ForGlueText();
    EpilogueText();
  }

  lemma IfGlueText()
    ensures AllTextLines(IfGlue())
  {
  }

  lemma WhileGlueText()
    ensures AllTextLines(WhileGlue())
  {
  }

  lemma ForGlueText()
    ensures AllTextLines(ForGlue())
  {
  }

  lemma EpilogueText()
    ensures AllTextLines(Epilogue())
  {
  }

  /** A statement's lowering holds no section header, data line, string or comment. */
  lemma {:induction false} StmtTextLines(s: Stmt, gt: GlobalTable)
    ensures AllTextLines(CodeStmt(s, gt).code)
    decreases s, 1
  {
    match s
    case BlockStmt(b) => BlockTextLines(b, gt);
    case If(c, t, e) =>
      var cc := CodeExpr(c, gt);
      var ct := CodeBlock(t, cc.globals);
      ExprTextLines(c, gt);
      BlockTextLines(t, cc.globals);
      BlockTextLines(e, ct.globals);
      GlueTextLines();
      LayoutTextLines(cc.code, ct.code, CodeBlock(e, ct.globals).code, []);
    case While(c, body) =>
      var cc := CodeExpr(c, gt);
      ExprTextLines(c, gt);
      BlockTextLines(body, cc.globals);
      GlueTextLines();
      LayoutTextLines(cc.code, CodeBlock(body, cc.globals).code, [], []);
    case For(_, _, _, _) => ForTextLines(s, gt);
    case Return(_) => GlueTextLines();
    case Continue =>
    case Break =>
    case ExprStmt(e) => ExprTextLines(e, gt);
  }

  /** The layouts keep text lines text lines. */
  lemma LayoutTextLines(a: seq<Instr>, b: seq<Instr>, c: seq<Instr>, d: seq<Instr>)
    requires AllTextLines(a) && AllTextLines(b) && AllTextLines(c) && AllTextLines(d)
    ensures AllTextLines(IfLayout(a, b, c))
    ensures AllTextLines(WhileLayout(a, b))
    ensures AllTextLines(ForLayout(a, b, c, d))
  {
    GlueTextLines();
  }

  lemma {:induction false} ForTextLines(s: Stmt, gt: GlobalTable)
    requires s.For?
    ensures AllTextLines(CodeStmt(s, gt).code)
    decreases s, 0
  {
    var ci := CodeExpr(s.init, gt);
    var cc := CodeExpr(s.condition, ci.globals);
    var cb := CodeBlock(s.body, cc.globals);
    ExprTextLines(s.init, gt);
    ExprTextLines(s.condition, ci.globals);
    BlockTextLines(s.body, cc.globals);
    ExprTextLines(s.step, cb.globals);
    LayoutTextLines(ci.code, cc.code, cb.code, CodeExpr(s.step, cb.globals).code);
  }

  lemma {:induction false} BlockTextLines(b: Block, gt: GlobalTable)
    ensures AllTextLines(CodeBlock(b, gt).code)
    decreases b, 2
  {
    StmtsTextLines(b.stmts, gt);
  }

  lemma {:induction false} StmtsTextLines(ss: seq<Stmt>, gt: GlobalTable)
    ensures AllTextLines(CodeStmts(ss, gt).code)
    decreases ss, 2
  {
    if |ss| > 0 {
      var first := CodeStmt(ss[0], gt);
      StmtTextLines(ss[0], gt);
      StmtsTextLines(ss[1..], first.globals);
    }
  }

  // ---------------------------------------------------------------------------
  // The global table only gains null entries

  /** Lowering a statement keeps every global-table entry and adds only null ones. */
  lemma {:induction false} StmtGlobalsGrowth(s: Stmt, gt: GlobalTable)
    ensures GrowsByNulls(gt, CodeStmt(s, gt).globals)
    decreases s, 1
  {
    match s
    case BlockStmt(b) => BlockGlobalsGrowth(b, gt);
    case If(c, t, e) =>
      var cc := CodeExpr(c, gt);
      var ct := CodeBlock(t, cc.globals);
      ExprGlobalsGrowth(c, gt);
      BlockGlobalsGrowth(t, cc.globals);
      BlockGlobalsGrowth(e, ct.globals);
      GrowsByNullsTransitive(gt, cc.globals, ct.globals);
      GrowsByNullsTransitive(gt, ct.globals, CodeBlock(e, ct.globals).globals);
    case While(c, body) =>
      var cc := CodeExpr(c, gt);
      ExprGlobalsGrowth(c, gt);
      BlockGlobalsGrowth(body, cc.globals);
      GrowsByNullsTransitive(gt, cc.globals, CodeBlock(body, cc.globals).globals);
    case For(_, _, _, _) => ForGlobalsGrowth(s, gt);
    case Return(_) =>
    case Continue =>
    case Break =>
    case ExprStmt(e) => ExprGlobalsGrowth(e, gt);
  }

  lemma {:induction false} ForGlobalsGrowth(s: Stmt, gt: GlobalTable)
    requires s.For?
    ensures GrowsByNulls(gt, CodeStmt(s, gt).globals)
    decreases s, 0
  {
    var ci := CodeExpr(s.init, gt);
    var cc := CodeExpr(s.condition, ci.globals);
    var cb := CodeBlock(s.body, cc.globals);
    ExprGlobalsGrowth(s.init, gt);
    ExprGlobalsGrowth(s.condition, ci.globals);
    BlockGlobalsGrowth(s.body, cc.globals);
    ExprGlobalsGrowth(s.step, cb.globals);
    GrowsByNullsTransitive(gt, ci.globals, cc.globals);
    GrowsByNullsTransitive(gt, cc.globals, cb.globals);
    GrowsByNullsTransitive(gt, cb.globals, CodeExpr(s.step, cb.globals).globals);
  }

  lemma {:induction false} BlockGlobalsGrowth(b: Block, gt: GlobalTable)
    ensures GrowsByNulls(gt, CodeBlock(b, gt).globals)
    decreases b, 2
  {
    StmtsGlobalsGrowth(b.stmts, gt);
  }

  lemma {:induction false} StmtsGlobalsGrowth(ss: seq<Stmt>, gt: GlobalTable)
    ensures GrowsByNulls(gt, CodeStmts(ss, gt).globals)
    decreases ss, 2
  {
    if |ss| > 0 {
      var first := CodeStmt(ss[0], gt);
      StmtGlobalsGrowth(ss[0], gt);
      StmtsGlobalsGrowth(ss[1..], first.globals);
      GrowsByNullsTransitive(gt, first.globals, CodeStmts(ss[1..], first.globals).globals);
    }
  }
}
