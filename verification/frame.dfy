/**
  Function lowering (`CallDecl_class::code`): the function's visibility and
  type lines and its label, the prologue, the capture of the first six
  parameters, one frame word per local of the body's outermost block, the
  body, and the closing size directive. Alongside the code the function
  builds its variable table, numbering parameters from 1 and the body's
  locals after them, and stores it in the function table under its name.

  Parameter capture is modelled as the source writes it: `sub $8, %rbp`
  followed by `mov %reg, %rbp`, so it moves the frame pointer and
  reserves nothing on the stack.
 */
module Frame {
  import opened Ast
  import opened Asm
  import opened Tables
  import opened Convention
  import opened StmtCode

  // ---------------------------------------------------------------------------
  // Slot numbering

  /** The variable table after `vartab[name] = num; num++` for each of `vars` in order, `num` starting at `first`. */
  function NumberSlots(vt: VariableTable, vars: seq<Variable>, first: int): VariableTable
  {
    if |vars| == 0 then vt
    else NumberSlots(vt, vars[..|vars| - 1], first)[vars[|vars| - 1].name := first + |vars| - 1]
  }

  /** The names declared by `vars`. */
  function VarNames(vars: seq<Variable>): set<Symbol>
  {
    set i | 0 <= i < |vars| :: vars[i].name
  }

  /** `vars[i]` is the last declaration of its name in `vars`. */
  predicate LastOf(vars: seq<Variable>, i: int)
    requires 0 <= i < |vars|
  {
    forall j :: i < j < |vars| ==> vars[j].name != vars[i].name
  }

  /** No name is declared twice in `vars`. */
  predicate DistinctNames(vars: seq<Variable>)
  {
    forall i, j :: 0 <= i < j < |vars| ==> vars[i].name != vars[j].name
  }

  /** Numbering adds exactly the declared names and keeps the entries of every other name. */
  lemma {:induction false} NumberSlotsKeys(vt: VariableTable, vars: seq<Variable>, first: int)
    ensures NumberSlots(vt, vars, first).Keys == vt.Keys + VarNames(vars)
    ensures forall k :: k in vt && k !in VarNames(vars) ==> NumberSlots(vt, vars, first)[k] == vt[k]
  {
    if |vars| > 0 {
      var init := vars[..|vars| - 1];
      NumberSlotsKeys(vt, init, first);
      assert forall i :: 0 <= i < |init| ==> init[i] == vars[i];
      assert VarNames(vars) == VarNames(init) + {vars[|vars| - 1].name};
    }
  }

  /** A name gets the number of its last declaration: `first` plus that declaration's position. */
  lemma {:induction false} NumberSlotsLast(vt: VariableTable, vars: seq<Variable>, first: int)
    ensures forall i :: 0 <= i < |vars| && LastOf(vars, i) ==>
      vars[i].name in NumberSlots(vt, vars, first) && NumberSlots(vt, vars, first)[vars[i].name] == first + i
  {
    if |vars| > 0 {
      var n := |vars| - 1;
      var init := vars[..n];
      NumberSlotsLast(vt, init, first);
      var m := NumberSlots(vt, init, first);
      assert NumberSlots(vt, vars, first) == m[vars[n].name := first + n];
      forall i | 0 <= i < n && LastOf(vars, i)
        ensures vars[i].name in NumberSlots(vt, vars, first) && NumberSlots(vt, vars, first)[vars[i].name] == first + i
      {
        LastOfPrefix(vars, i);
        assert vars[i].name != vars[n].name;
      }
    }
  }

  /** The last declaration of a name before the final one is still last once the final one is dropped. */
  lemma LastOfPrefix(vars: seq<Variable>, i: int)
    requires 0 <= i < |vars| - 1 && LastOf(vars, i)
    ensures vars[..|vars| - 1][i] == vars[i] && LastOf(vars[..|vars| - 1], i)
  {
    var init := vars[..|vars| - 1];
    forall j | i < j < |init|
      ensures init[j].name != init[i].name
    {
      assert init[j] == vars[j];
    }
  }

  /** Numbering one more declaration updates the entry of its name only. */
  lemma NumberSlotsPrefix(vt: VariableTable, vars: seq<Variable>, i: int, first: int)
    requires 0 <= i < |vars|
    ensures NumberSlots(vt, vars[..i + 1], first) == NumberSlots(vt, vars[..i], first)[vars[i].name := first + i]
  {
    assert vars[..i + 1][..i] == vars[..i];
  }

  /** Numbering `a` and then `b` from where `a` stopped numbers `a + b` in one pass. */
  lemma {:induction false} NumberSlotsAppend(vt: VariableTable, a: seq<Variable>, b: seq<Variable>, first: int)
    ensures NumberSlots(NumberSlots(vt, a, first), b, first + |a|) == NumberSlots(vt, a + b, first)
  {
    if |b| == 0 {
      assert a + b == a;
    } else {
      var b' := b[..|b| - 1];
      NumberSlotsAppend(vt, a, b', first);
      assert (a + b)[..|a + b| - 1] == a + b';
      assert (a + b)[|a + b| - 1] == b[|b| - 1];
    }
  }

  /** The table `functab[name]` receives: parameters numbered from 1, then the body's locals. */
  function FrameTable(params: seq<Variable>, locals: seq<Variable>): VariableTable
  {
    NumberSlots(NumberSlots(map[], params, 1), locals, 1 + |params|)
  }

  /**
    A function's table holds exactly its parameter and local names, and each name's slot is
    one more than the position of its last declaration among the parameters followed by the locals.
   */
  lemma FrameSlotIsLastDeclaration(params: seq<Variable>, locals: seq<Variable>)
    ensures FrameTable(params, locals).Keys == VarNames(params + locals)
    ensures forall i :: 0 <= i < |params + locals| && LastOf(params + locals, i) ==>
      FrameTable(params, locals)[(params + locals)[i].name] == i + 1
  {
    NumberSlotsAppend(map[], params, locals, 1);
    NumberSlotsKeys(map[], params + locals, 1);
    NumberSlotsLast(map[], params + locals, 1);
  }

  /** With distinct names, parameter `i` gets slot `i + 1` and local `j` gets slot `n + j + 1` for `n` parameters. */
  lemma SlotNumbering(params: seq<Variable>, locals: seq<Variable>)
    requires DistinctNames(params + locals)
    ensures FrameTable(params, locals).Keys == VarNames(params) + VarNames(locals)
    ensures forall i :: 0 <= i < |params| ==> FrameTable(params, locals)[params[i].name] == i + 1
    ensures forall j :: 0 <= j < |locals| ==> FrameTable(params, locals)[locals[j].name] == |params| + j + 1
  {
    var all := params + locals;
    var ft := FrameTable(params, locals);
    FrameSlotIsLastDeclaration(params, locals);
    VarNamesConcat(params, locals);
    DistinctIsLast(all);
    forall i | 0 <= i < |params|
      ensures ft[params[i].name] == i + 1
    {
      assert all[i] == params[i];
      assert LastOf(all, i);
    }
    forall j | 0 <= j < |locals|
      ensures ft[locals[j].name] == |params| + j + 1
    {
      assert all[|params| + j] == locals[j];
      assert LastOf(all, |params| + j);
    }
  }

  lemma VarNamesConcat(a: seq<Variable>, b: seq<Variable>)
    ensures VarNames(a + b) == VarNames(a) + VarNames(b)
  {
    var all := a + b;
    forall k | k in VarNames(all)
      ensures k in VarNames(a) + VarNames(b)
    {
      var i :| 0 <= i < |all| && all[i].name == k;
      if i >= |a| {
        assert b[i - |a|].name == k;
      }
    }
    forall k | k in VarNames(a) + VarNames(b)
      ensures k in VarNames(all)
    {
      if k in VarNames(a) {
        var i :| 0 <= i < |a| && a[i].name == k;
        assert all[i].name == k;
      } else {
        var j :| 0 <= j < |b| && b[j].name == k;
        assert all[|a| + j].name == k;
      }
    }
  }

  /** With distinct names every declaration is the last of its name. */
  lemma DistinctIsLast(vars: seq<Variable>)
    requires DistinctNames(vars)
    ensures forall i :: 0 <= i < |vars| ==> LastOf(vars, i)
  {
  }

  // ---------------------------------------------------------------------------
  // Parameter capture

  function Min(a: int, b: int): int
  {
    if a < b then a else b
  }

  /** The two lines that capture argument register `CallRegs[k]`. */
  function CaptureOne(k: nat): seq<Instr>
    requires k < |CallRegs|
  {
    [Sub(Imm("8"), R(RBP)), Mov(R(CallRegs[k]), R(RBP))]
  }

  /** The capture of `n` parameters: the first six, each from its argument register in order; the rest capture nothing. */
  function Capture(n: nat): (r: seq<Instr>)
    ensures |r| == 2 * Min(n, 6)
    ensures forall k :: 0 <= k < Min(n, 6) ==>
      r[2 * k] == Sub(Imm("8"), R(RBP)) && r[2 * k + 1] == Mov(R(CallRegs[k]), R(RBP))
  {
    if n == 0 then []
    else if n > 6 then Capture(6)
    else Capture(n - 1) + CaptureOne(n - 1)
  }

  /** Capturing moves RBP and writes through it only: it neither reserves a stack word nor returns. */
  lemma {:induction false} CaptureLeavesStack(n: nat)
    ensures SubRsp !in Capture(n) && Ret !in Capture(n)
  {
    if n > 6 {
      CaptureLeavesStack(6);
    } else if n > 0 {
      CaptureLeavesStack(n - 1);
    }
  }

  lemma {:induction false} CaptureTextLines(n: nat)
    ensures AllTextLines(Capture(n))
  {
    if n > 6 {
      CaptureTextLines(6);
    } else if n > 0 {
      CaptureTextLines(n - 1);
    }
  }

  /** The source's `switch (order)`: cases 1 to 6 capture one register and advance `order`; any other order does nothing. */
  function CaptureCase(order: int): (r: (seq<Instr>, int))
    ensures 1 <= order <= 6 ==> r.0 == CaptureOne(order - 1) && r.1 == order + 1
    ensures !(1 <= order <= 6) ==> r.0 == [] && r.1 == order
  {
    match order
    case 1 => ([Sub(Imm("8"), R(RBP)), Mov(R(RDI), R(RBP))], order + 1)
    case 2 => ([Sub(Imm("8"), R(RBP)), Mov(R(RSI), R(RBP))], order + 1)
    case 3 => ([Sub(Imm("8"), R(RBP)), Mov(R(RDX), R(RBP))], order + 1)
    case 4 => ([Sub(Imm("8"), R(RBP)), Mov(R(RCX), R(RBP))], order + 1)
    case 5 => ([Sub(Imm("8"), R(RBP)), Mov(R(R8), R(RBP))], order + 1)
    case 6 => ([Sub(Imm("8"), R(RBP)), Mov(R(R9), R(RBP))], order + 1)
    case _ => ([], order)
  }

  lemma CaptureStep(n: nat)
    ensures Capture(n + 1) == Capture(n) + (if n < 6 then CaptureOne(n) else [])
  {
    if n >= 6 {
      assert Capture(n) == Capture(6);
    }
  }

  /** One turn of the parameter loop, from `order == Min(i, 6) + 1`, extends the capture by parameter `i`. */
  lemma CaptureLoopStep(i: nat)
    ensures Capture(i) + CaptureCase(Min(i, 6) + 1).0 == Capture(i + 1)
    ensures CaptureCase(Min(i, 6) + 1).1 == Min(i + 1, 6) + 1
  {
    CaptureStep(i);
  }

  /** The source's parameter loop: each parameter gets the next slot number, and the switch captures the first six. */
  method CaptureParams(params: seq<Variable>) returns (code: seq<Instr>, vartab: VariableTable, num: int)
    ensures code == Capture(|params|)
    ensures vartab == NumberSlots(map[], params, 1)
    ensures num == |params| + 1
  {
    code := [];
    vartab := map[];
    num := 1;
    var order := 1;
    var i := 0;
    while i < |params|
      invariant 0 <= i <= |params|
      invariant num == i + 1 && order == Min(i, 6) + 1
      invariant code == Capture(i)
      invariant vartab == NumberSlots(map[], params[..i], 1)
    {
      NumberSlotsPrefix(map[], params, i, 1);
      vartab := vartab[params[i].name := num];
      num := num + 1;
      var step := CaptureCase(order);
      CaptureLoopStep(i);
      code := code + step.0;
      order := step.1;
      i := i + 1;
    }
    assert params[..i] == params;
  }

  // ---------------------------------------------------------------------------
  // Local reservations

  /** `n` frame-word reservations. */
  function Reserve(n: nat): (r: seq<Instr>)
    ensures |r| == n
    ensures forall i :: 0 <= i < n ==> r[i] == SubRsp
  {
    if n == 0 then [] else Reserve(n - 1) + [SubRsp]
  }

  /** The source's locals loop: each local of the body's outermost block gets the next slot and one frame word. */
  method ReserveLocals(locals: seq<Variable>, vt: VariableTable, first: int)
    returns (code: seq<Instr>, vartab: VariableTable, num: int)
    ensures code == Reserve(|locals|)
    ensures vartab == NumberSlots(vt, locals, first)
    ensures num == first + |locals|
  {
    code := [];
    vartab := vt;
    num := first;
    var i := 0;
    while i < |locals|
      invariant 0 <= i <= |locals|
      invariant num == first + i
      invariant code == Reserve(i)
      invariant vartab == NumberSlots(vt, locals[..i], first)
    {
      assert locals[..i + 1][..i] == locals[..i];
      vartab := vartab[locals[i].name := num];
      num := num + 1;
      code := code + [SubRsp];
      i := i + 1;
    }
    assert locals[..i] == locals;
  }

  // ---------------------------------------------------------------------------
  // The whole function

  /** The visibility, symbol-type and label lines that open a function. */
  function FunctionHeader(name: Symbol): seq<Instr>
  {
    [Global(name), TypeOf(name, FunctionKind), Position(name)]
  }

  /** Everything a function writes before its body. */
  function FunctionEntry(name: Symbol, params: seq<Variable>, locals: seq<Variable>): seq<Instr>
  {
    FunctionHeader(name) + Prologue() + Capture(|params|) + Reserve(|locals|)
  }

  /** What `CallDecl_class::code` emits for a function, and the global table its body leaves. */
  function CallCode(name: Symbol, params: seq<Variable>, body: Block, gt: GlobalTable): Emitted
  {
    var cb := CodeBlock(body, gt);
    Emitted(FunctionEntry(name, params, body.decls) + cb.code + [SizeToHere(name)], cb.globals)
  }

  /** The source's function lowering step by step, ending with `functab[name] = vartab`. */
  method CodeCallDecl(name: Symbol, params: seq<Variable>, body: Block, gt: GlobalTable, funcs: FunctionTable)
    returns (code: seq<Instr>, globals: GlobalTable, funcs': FunctionTable)
    ensures code == CallCode(name, params, body, gt).code
    ensures globals == CallCode(name, params, body, gt).globals
    ensures funcs' == funcs[name := FrameTable(params, body.decls)]
  {
    code := FunctionHeader(name) + Prologue();
    var capture, vartab, num := CaptureParams(params);
    code := code + capture;
    var reserve;
    reserve, vartab, num := ReserveLocals(body.decls, vartab, num);
    code := code + reserve;
    funcs' := funcs[name := vartab];
    var cb := CodeBlock(body, gt);
    code := code + cb.code + [SizeToHere(name)];
    globals := cb.globals;
  }

  /**
    A function's code opens with its header and the prologue, captures its first six parameters,
    reserves one word per local, and closes with its size directive.
   */
  lemma FunctionLayout(name: Symbol, params: seq<Variable>, body: Block, gt: GlobalTable)
    ensures var code := CallCode(name, params, body, gt).code;
      var c := 12 + 2 * Min(|params|, 6);
      && |code| >= c + |body.decls| + 1
      && code[..3] == [Global(name), TypeOf(name, FunctionKind), Position(name)]
      && code[3..12] == Prologue()
      && code[12..c] == Capture(|params|)
      && (forall j :: c <= j < c + |body.decls| ==> code[j] == SubRsp)
      && code[c + |body.decls|..|code| - 1] == CodeBlock(body, gt).code
      && code[|code| - 1] == SizeToHere(name)
  {
    EntryThenBody(name, params, body.decls, CodeBlock(body, gt).code);
  }

  /** The layout of `FunctionLayout` for any body code `b`. */
  lemma EntryThenBody(name: Symbol, params: seq<Variable>, locals: seq<Variable>, b: seq<Instr>)
    ensures var code := FunctionEntry(name, params, locals) + b + [SizeToHere(name)];
      var c := 12 + 2 * Min(|params|, 6);
      && |code| >= c + |locals| + 1
      && code[..3] == [Global(name), TypeOf(name, FunctionKind), Position(name)]
      && code[3..12] == Prologue()
      && code[12..c] == Capture(|params|)
      && (forall j :: c <= j < c + |locals| ==> code[j] == SubRsp)
      && code[c + |locals|..|code| - 1] == b
      && code[|code| - 1] == SizeToHere(name)
  {
    var e := FunctionEntry(name, params, locals);
    var t := b + [SizeToHere(name)];
    var c := 12 + 2 * Min(|params|, 6);
    EntryLayout(name, params, locals);
    Associate(e, b, [SizeToHere(name)]);
    PrefixSlice(e, t, 0, 3);
    PrefixSlice(e, t, 3, 12);
    PrefixSlice(e, t, 12, c);
    MiddleSlice(e, b, [SizeToHere(name)]);
  }

  /** Where the header, the prologue, the capture and the reservations sit in a function's entry. */
  lemma EntryLayout(name: Symbol, params: seq<Variable>, locals: seq<Variable>)
    ensures var e := FunctionEntry(name, params, locals);
      var c := 12 + 2 * Min(|params|, 6);
      && |e| == c + |locals|
      && e[..3] == FunctionHeader(name) && e[3..12] == Prologue() && e[12..c] == Capture(|params|)
      && (forall j :: c <= j < |e| ==> e[j] == SubRsp)
  {
    Slices(FunctionHeader(name), Prologue(), Capture(|params|), Reserve(|locals|), []);
    assert FunctionEntry(name, params, locals) + [] == FunctionEntry(name, params, locals);
  }

  /** The middle part of `e + b + t` is `b`. */
  lemma MiddleSlice(e: seq<Instr>, b: seq<Instr>, t: seq<Instr>)
    ensures (e + b + t)[|e|..|e| + |b|] == b
  {
  }

  lemma PrefixSlice(e: seq<Instr>, t: seq<Instr>, i: int, j: int)
    requires 0 <= i <= j <= |e|
    ensures (e + t)[i..j] == e[i..j]
  {
  }

  /** Where the parts of `h + p + c + r + t` sit. */
  lemma Slices(h: seq<Instr>, p: seq<Instr>, c: seq<Instr>, r: seq<Instr>, t: seq<Instr>)
    ensures var all := h + p + c + r + t;
      var i := |h| + |p| + |c|;
      && all[..|h|] == h && all[|h|..|h| + |p|] == p && all[|h| + |p|..i] == c
      && (forall j :: i <= j < i + |r| ==> all[j] == r[j - i])
      && (|t| > 0 ==> all[|all| - 1] == t[|t| - 1])
  {
  }

  /** The frame words a function reserves: one per local, plus those of its body; capturing parameters reserves none. */
  lemma FunctionReservations(name: Symbol, params: seq<Variable>, body: Block, gt: GlobalTable)
    ensures Reservations(CallCode(name, params, body, gt).code) == |body.decls| + BlockSlots(body)
  {
    EntryReservations(name, params, body.decls, CodeBlock(body, gt).code);
    BlockReservations(body, gt);
  }

  /** The entry reserves one word per local, and the size directive none. */
  lemma EntryReservations(name: Symbol, params: seq<Variable>, locals: seq<Variable>, b: seq<Instr>)
    ensures Reservations(FunctionEntry(name, params, locals) + b + [SizeToHere(name)]) == |locals| + Reservations(b)
  {
    var head := FunctionHeader(name) + Prologue();
    var cap := Capture(|params|);
    var res := Reserve(|locals|);
    assert SubRsp !in head;
    CountAbsent(head, SubRsp);
    CaptureLeavesStack(|params|);
    CountAbsent(cap, SubRsp);
    ReserveCount(|locals|);
    CountAbsent([SizeToHere(name)], SubRsp);
    CountFive(head, cap, res, b, [SizeToHere(name)], SubRsp);
  }

  lemma {:induction false} ReserveCount(n: nat)
    ensures Reservations(Reserve(n)) == n
  {
    if n > 0 {
      ReserveCount(n - 1);
      CountConcat(Reserve(n - 1), [SubRsp], SubRsp);
    }
  }

  /** Every `ret` in a function's code ends the full epilogue, which pops the registers the prologue pushed, in reverse order. */
  lemma FunctionReturnsRestore(name: Symbol, params: seq<Variable>, body: Block, gt: GlobalTable)
    ensures ReturnsRestore(CallCode(name, params, body, gt).code)
  {
    BlockReturnsRestore(body, gt);
    EntryRestores(name, params, body.decls, CodeBlock(body, gt).code);
  }

  lemma EntryRestores(name: Symbol, params: seq<Variable>, locals: seq<Variable>, b: seq<Instr>)
    requires ReturnsRestore(b)
    ensures ReturnsRestore(FunctionEntry(name, params, locals) + b + [SizeToHere(name)])
  {
    var entry := FunctionEntry(name, params, locals);
    CaptureLeavesStack(|params|);
    assert Ret !in FunctionHeader(name) + Prologue();
    assert Ret !in Reserve(|locals|);
    assert Ret !in entry;
    RestoreWithoutRet(entry);
    RestoreWithoutRet([SizeToHere(name)]);
    RestoreConcat(entry, b);
    RestoreConcat(entry + b, [SizeToHere(name)]);
  }

  /** A function's code holds no section header, data line, string or comment. */
  lemma FunctionTextLines(name: Symbol, params: seq<Variable>, body: Block, gt: GlobalTable)
    ensures AllTextLines(CallCode(name, params, body, gt).code)
  {
    BlockTextLines(body, gt);
    EntryTextLines(name, params, body.decls, CodeBlock(body, gt).code);
  }

  lemma EntryTextLines(name: Symbol, params: seq<Variable>, locals: seq<Variable>, b: seq<Instr>)
    requires AllTextLines(b)
    ensures AllTextLines(FunctionEntry(name, params, locals) + b + [SizeToHere(name)])
  {
    CaptureTextLines(|params|);
    assert AllTextLines(FunctionHeader(name) + Prologue());
    assert AllTextLines(Reserve(|locals|));
  }
}
