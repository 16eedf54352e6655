/**
  The generator's top level: `Program_class::cgen` writes the start
  comment, runs `code` (through `cgen_helper`), and writes the end comment;
  `code` writes the global data and then `code_calls`, which writes the
  read-only data header, the string table, the text header and the code of
  every function declaration in declaration order. The global table and the
  function table start empty and are threaded through in that order, so
  every function body sees every global of the program.

  The string table's contents and order are decided by code that is not
  part of this model; it is taken as a parameter, one entry per string
  constant with its index and text.
 */
module Program {
  import opened Ast
  import opened Asm
  import opened Tables
  import opened ExprCode
  import opened StmtCode
  import opened GlobalData
  import opened Frame

  /** A string-table entry: its index (the `LC<index>` label) and its text. */
  datatype StringEntry = StringEntry(index: nat, text: string)

  /** Generated code together with the global and function tables as they were left. */
  datatype Generated = Generated(code: seq<Instr>, globals: GlobalTable, funcs: FunctionTable)

  /** `code_string_table`: one definition per entry, in table order. */
  function StringTable(strings: seq<StringEntry>): (r: seq<Instr>)
    ensures |r| == |strings|
    ensures forall i :: 0 <= i < |strings| ==> r[i] == StringDef(strings[i].index, strings[i].text)
  {
    if |strings| == 0 then []
    else StringTable(strings[..|strings| - 1]) + [StringDef(strings[|strings| - 1].index, strings[|strings| - 1].text)]
  }

  /** The code of the function declarations of `decls`, in order, and the tables they leave; globals are skipped. */
  function CallDecls(decls: seq<Decl>, gt: GlobalTable, funcs: FunctionTable): Generated
  {
    if |decls| == 0 then Generated([], gt, funcs)
    else
      var p := CallDecls(decls[..|decls| - 1], gt, funcs);
      var d := decls[|decls| - 1];
      if d.CallDecl? then
        var c := CallCode(d.name, d.params, d.body, p.globals);
        Generated(p.code + c.code, c.globals, p.funcs[d.name := FrameTable(d.params, d.body.decls)])
      else p
  }

  /** The section headers and string table that `code_calls` writes before the functions. */
  function CallsHeader(strings: seq<StringEntry>): seq<Instr>
  {
    [RodataSection] + StringTable(strings) + [TextSection]
  }

  /** What `code_calls` writes and leaves in the tables. */
  function Calls(decls: seq<Decl>, strings: seq<StringEntry>, gt: GlobalTable, funcs: FunctionTable): Generated
  {
    var c := CallDecls(decls, gt, funcs);
    Generated(CallsHeader(strings) + c.code, c.globals, c.funcs)
  }

  /** The source's `code_calls` loop. */
  method CodeCalls(decls: seq<Decl>, strings: seq<StringEntry>, gt: GlobalTable, funcs: FunctionTable)
    returns (code: seq<Instr>, globals: GlobalTable, funcs': FunctionTable)
    ensures code == Calls(decls, strings, gt, funcs).code
    ensures globals == Calls(decls, strings, gt, funcs).globals
    ensures funcs' == Calls(decls, strings, gt, funcs).funcs
  {
    code := CallsHeader(strings);
    globals := gt;
    funcs' := funcs;
    ghost var done: seq<Decl> := [];
    var i := 0;
    while i < |decls|
      invariant 0 <= i <= |decls| && done == decls[..i]
      invariant code == CallsHeader(strings) + CallDecls(done, gt, funcs).code
      invariant globals == CallDecls(done, gt, funcs).globals
      invariant funcs' == CallDecls(done, gt, funcs).funcs
    {
      var d := decls[i];
      CallDeclsSnoc(done, d, gt, funcs);
      if d.CallDecl? {
        var c;
        c, globals, funcs' := CodeCallDecl(d.name, d.params, d.body, globals, funcs');
        Associate(CallsHeader(strings), CallDecls(done, gt, funcs).code, c);
        code := code + c;
      }
      assert decls[..i + 1] == done + [d];
      done := done + [d];
      i := i + 1;
    }
    assert decls[..i] == decls;
  }

  /** Lowering one more declaration: a function appends its code and its table entry; a global changes nothing. */
  lemma CallDeclsSnoc(done: seq<Decl>, d: Decl, gt: GlobalTable, funcs: FunctionTable)
    ensures var p := CallDecls(done, gt, funcs);
      CallDecls(done + [d], gt, funcs) ==
        if d.CallDecl? then
          var c := CallCode(d.name, d.params, d.body, p.globals);
          Generated(p.code + c.code, c.globals, p.funcs[d.name := FrameTable(d.params, d.body.decls)])
        else p
  {
    assert (done + [d])[..|done|] == done;
  }

  /** What `code` writes: the global data, then the calls, with the tables threaded from one to the other. */
  function Code(decls: seq<Decl>, strings: seq<StringEntry>, gt: GlobalTable, funcs: FunctionTable): Generated
  {
    var g := GlobalSection(decls, gt);
    var c := Calls(decls, strings, g.globals, funcs);
    Generated(g.code + c.code, c.globals, c.funcs)
  }

  /** The source's `code`, calling the two loops in turn. */
  method CodeProgram(decls: seq<Decl>, strings: seq<StringEntry>, gt: GlobalTable, funcs: FunctionTable)
    returns (code: seq<Instr>, globals: GlobalTable, funcs': FunctionTable)
    ensures code == Code(decls, strings, gt, funcs).code
    ensures globals == Code(decls, strings, gt, funcs).globals
    ensures funcs' == Code(decls, strings, gt, funcs).funcs
  {
    var data;
    data, globals := CodeGlobalData(decls, gt);
    var calls;
    calls, globals, funcs' := CodeCalls(decls, strings, globals, funcs);
    code := data + calls;
  }

  const StartComment: Instr := Comment("start of generated code")
  const EndComment: Instr := Comment("end of generated code")

  /** `Program_class::cgen`: the whole output for a program, starting from empty tables. */
  function Cgen(decls: seq<Decl>, strings: seq<StringEntry>): Generated
  {
    var c := Code(decls, strings, map[], map[]);
    Generated([StartComment] + c.code + [EndComment], c.globals, c.funcs)
  }

  // ---------------------------------------------------------------------------
  // Functions in declaration order

  /** Lowering `a + b` lowers `a`, then lowers `b` from the tables `a` left. */
  lemma {:induction false} CallDeclsAppend(a: seq<Decl>, b: seq<Decl>, gt: GlobalTable, funcs: FunctionTable)
    ensures var p := CallDecls(a, gt, funcs);
      var q := CallDecls(b, p.globals, p.funcs);
      CallDecls(a + b, gt, funcs) == Generated(p.code + q.code, q.globals, q.funcs)
  {
    if |b| == 0 {
      assert a + b == a;
    } else {
      var b' := b[..|b| - 1];
      CallDeclsAppend(a, b', gt, funcs);
      assert (a + b)[..|a + b| - 1] == a + b';
      assert (a + b)[|a + b| - 1] == b[|b| - 1];
      var p := CallDecls(a, gt, funcs);
      var q := CallDecls(b', p.globals, p.funcs);
      var d := b[|b| - 1];
      if d.CallDecl? {
        Associate(p.code, q.code, CallCode(d.name, d.params, d.body, q.globals).code);
      }
    }
  }

  /** A global declaration anywhere among the declarations changes nothing in the functions' code or tables. */
  lemma GlobalsDoNotAffectCalls(a: seq<Decl>, v: Variable, b: seq<Decl>, gt: GlobalTable, funcs: FunctionTable)
    ensures CallDecls(a + [VarDecl(v)] + b, gt, funcs) == CallDecls(a + b, gt, funcs)
  {
    CallDeclsAppend(a, [VarDecl(v)], gt, funcs);
    CallDeclsAppend(a + [VarDecl(v)], b, gt, funcs);
    CallDeclsAppend(a, b, gt, funcs);
    assert [VarDecl(v)][..0] == [];
  }

  // ---------------------------------------------------------------------------
  // The function table

  /** The names of the functions declared in `decls`. */
  function CallNames(decls: seq<Decl>): set<Symbol>
  {
    set i | 0 <= i < |decls| && decls[i].CallDecl? :: decls[i].name
  }

  /** `decls[i]` is the last function declaration of its name. */
  predicate LastCall(decls: seq<Decl>, i: int)
    requires 0 <= i < |decls| && decls[i].CallDecl?
  {
    forall j :: i < j < |decls| && decls[j].CallDecl? ==> decls[j].name != decls[i].name
  }

  /** The function table after `functab[name] = vartab` for each function of `decls`, in order. */
  function FuncTable(decls: seq<Decl>, funcs: FunctionTable): FunctionTable
  {
    if |decls| == 0 then funcs
    else
      var prev := FuncTable(decls[..|decls| - 1], funcs);
      var d := decls[|decls| - 1];
      if d.CallDecl? then prev[d.name := FrameTable(d.params, d.body.decls)] else prev
  }

  /** The function table that lowering leaves depends on the declarations only, not on the code or the globals. */
  lemma {:induction false} CallDeclsFuncTable(decls: seq<Decl>, gt: GlobalTable, funcs: FunctionTable)
    ensures CallDecls(decls, gt, funcs).funcs == FuncTable(decls, funcs)
  {
    if |decls| > 0 {
      CallDeclsFuncTable(decls[..|decls| - 1], gt, funcs);
    }
  }

  /** The function table gains exactly the declared function names and keeps every other entry. */
  lemma {:induction false} FuncTableKeys(decls: seq<Decl>, funcs: FunctionTable)
    ensures FuncTable(decls, funcs).Keys == funcs.Keys + CallNames(decls)
    ensures forall k :: k in funcs && k !in CallNames(decls) ==> FuncTable(decls, funcs)[k] == funcs[k]
  {
    if |decls| > 0 {
      var init := decls[..|decls| - 1];
      var last := decls[|decls| - 1];
      FuncTableKeys(init, funcs);
      assert forall i :: 0 <= i < |init| ==> init[i] == decls[i];
      assert CallNames(decls) == CallNames(init) + (if last.CallDecl? then {last.name} else {});
    }
  }

  /** Each function's entry is the frame table of its last declaration: its parameters, then its body's locals. */
  lemma FuncTableEntries(decls: seq<Decl>, funcs: FunctionTable)
    ensures FuncTable(decls, funcs).Keys == funcs.Keys + CallNames(decls)
    ensures forall i :: 0 <= i < |decls| && decls[i].CallDecl? && LastCall(decls, i) ==>
      FuncTable(decls, funcs)[decls[i].name] == FrameTable(decls[i].params, decls[i].body.decls)
  {
    FuncTableKeys(decls, funcs);
    forall i | 0 <= i < |decls| && decls[i].CallDecl? && LastCall(decls, i)
      ensures FuncTable(decls, funcs)[decls[i].name] == FrameTable(decls[i].params, decls[i].body.decls)
    {
      FuncTableLast(decls, funcs, i);
    }
  }

  lemma FuncTableLast(decls: seq<Decl>, funcs: FunctionTable, i: int)
    requires 0 <= i < |decls| && decls[i].CallDecl? && LastCall(decls, i)
    ensures decls[i].name in FuncTable(decls, funcs)
    ensures FuncTable(decls, funcs)[decls[i].name] == FrameTable(decls[i].params, decls[i].body.decls)
  {
    var a := decls[..i + 1];
    var b := decls[i + 1..];
    assert decls == a + b;
    assert a[..i] == decls[..i];
    FuncTableAppend(a, b, funcs);
    FuncTableKeys(b, FuncTable(a, funcs));
    assert decls[i].name !in CallNames(b) by {
      forall j | 0 <= j < |b| && b[j].CallDecl?
        ensures b[j].name != decls[i].name
      {
        assert b[j] == decls[i + 1 + j];
      }
    }
  }

  lemma {:induction false} FuncTableAppend(a: seq<Decl>, b: seq<Decl>, funcs: FunctionTable)
    ensures FuncTable(a + b, funcs) == FuncTable(b, FuncTable(a, funcs))
  {
    if |b| == 0 {
      assert a + b == a;
    } else {
      var b' := b[..|b| - 1];
      FuncTableAppend(a, b', funcs);
      assert (a + b)[..|a + b| - 1] == a + b';
      assert (a + b)[|a + b| - 1] == b[|b| - 1];
    }
  }

  /** After `cgen`, the function table holds exactly the program's functions, each with its frame table. */
  lemma CgenFunctionTable(decls: seq<Decl>, strings: seq<StringEntry>)
    ensures Cgen(decls, strings).funcs.Keys == CallNames(decls)
    ensures forall i :: 0 <= i < |decls| && decls[i].CallDecl? && LastCall(decls, i) ==>
      Cgen(decls, strings).funcs[decls[i].name] == FrameTable(decls[i].params, decls[i].body.decls)
  {
    CallDeclsFuncTable(decls, GlobalSection(decls, map[]).globals, map[]);
    FuncTableEntries(decls, map[]);
  }

  // ---------------------------------------------------------------------------
  // Section order

  lemma {:induction false} CallDeclsTextLines(decls: seq<Decl>, gt: GlobalTable, funcs: FunctionTable)
    ensures AllTextLines(CallDecls(decls, gt, funcs).code)
  {
    if |decls| > 0 {
      var p := CallDecls(decls[..|decls| - 1], gt, funcs);
      CallDeclsTextLines(decls[..|decls| - 1], gt, funcs);
      var d := decls[|decls| - 1];
      if d.CallDecl? {
        FunctionTextLines(d.name, d.params, d.body, p.globals);
      }
    }
  }

  /**
    The output opens and closes with its comments; it has one read-only data header and one text
    header; every data-section line comes before the read-only header, every string lies between the
    two headers, and every instruction comes after the text header.
   */
  lemma SectionOrder(decls: seq<Decl>, strings: seq<StringEntry>)
    ensures SectionsInOrder(Cgen(decls, strings).code)
  {
    var g := GlobalSection(decls, map[]);
    var c := CallDecls(decls, g.globals, map[]).code;
    GlobalDataLines(decls, map[]);
    CallDeclsTextLines(decls, g.globals, map[]);
    Layout(g.code, StringTable(strings), c);
    CgenParts(decls, strings);
  }

  /** The output is the start comment, the global data, the calls' headers and functions, and the end comment. */
  lemma CgenParts(decls: seq<Decl>, strings: seq<StringEntry>)
    ensures var g := GlobalSection(decls, map[]);
      Cgen(decls, strings).code == [StartComment] + g.code + [RodataSection] + StringTable(strings) + [TextSection]
        + CallDecls(decls, g.globals, map[]).code + [EndComment]
  {
    var g := GlobalSection(decls, map[]);
    var c := CallDecls(decls, g.globals, map[]).code;
    var cl := Calls(decls, strings, g.globals, map[]);
    assert cl.code == [RodataSection] + StringTable(strings) + [TextSection] + c;
    assert Cgen(decls, strings).code == [StartComment] + (g.code + cl.code) + [EndComment];
    Regroup(StartComment, g.code, RodataSection, StringTable(strings), TextSection, c, EndComment);
  }

  lemma Regroup(s: Instr, g: seq<Instr>, r: Instr, t: seq<Instr>, x: Instr, c: seq<Instr>, e: Instr)
    ensures [s] + (g + ([r] + t + [x] + c)) + [e] == [s] + g + [r] + t + [x] + c + [e]
  {
  }

  /** The section order of an output: see `SectionOrder`. */
  ghost predicate SectionsInOrder(code: seq<Instr>)
  {
    && |code| >= 4 && code[0] == StartComment && code[|code| - 1] == EndComment
    && Count(code, RodataSection) == 1 && Count(code, TextSection) == 1
    && (forall i, j :: 0 <= i < |code| && 0 <= j < |code| && IsDataLine(code[i]) && code[j] == RodataSection ==> i < j)
    && (forall i, j :: 0 <= i < |code| && 0 <= j < |code| && code[i].StringDef? && code[j] == RodataSection ==> j < i)
    && (forall i, j :: 0 <= i < |code| && 0 <= j < |code| && code[i].StringDef? && code[j] == TextSection ==> i < j)
    && (forall i, j :: 0 <= i < |code| && 0 <= j < |code| && IsInstruction(code[i]) && code[j] == TextSection ==> j < i)
  }

  lemma Layout(g: seq<Instr>, t: seq<Instr>, c: seq<Instr>)
    requires forall x :: x in g ==> IsGlobalLine(x)
    requires forall i :: 0 <= i < |t| ==> t[i].StringDef?
    requires AllTextLines(c)
    ensures SectionsInOrder([StartComment] + g + [RodataSection] + t + [TextSection] + c + [EndComment])
  {
    var code := [StartComment] + g + [RodataSection] + t + [TextSection] + c + [EndComment];
    var r := 1 + |g|;
    var x := r + 1 + |t|;
    Placement(g, t, c, code);
    assert code[r] == RodataSection && code[x] == TextSection;
    PlacedOnce(code, r, RodataSection);
    PlacedOnce(code, x, TextSection);
  }

  /** Where each kind of line can sit in `[start] + g + [rodata] + t + [text] + c + [end]`. */
  lemma Placement(g: seq<Instr>, t: seq<Instr>, c: seq<Instr>, code: seq<Instr>)
    requires forall x :: x in g ==> IsGlobalLine(x)
    requires forall i :: 0 <= i < |t| ==> t[i].StringDef?
    requires AllTextLines(c)
    requires code == [StartComment] + g + [RodataSection] + t + [TextSection] + c + [EndComment]
    ensures forall i :: 0 <= i < |code| && code[i] == RodataSection ==> i == 1 + |g|
    ensures forall i :: 0 <= i < |code| && code[i] == TextSection ==> i == 2 + |g| + |t|
    ensures forall i :: 0 <= i < |code| && IsDataLine(code[i]) ==> i < 1 + |g|
    ensures forall i :: 0 <= i < |code| && code[i].StringDef? ==> 1 + |g| < i < 2 + |g| + |t|
    ensures forall i :: 0 <= i < |code| && IsInstruction(code[i]) ==> 2 + |g| + |t| < i
  {
    var r := 1 + |g|;
    var x := r + 1 + |t|;
    forall i | 0 <= i < |code|
      ensures 1 <= i < r ==> code[i] == g[i - 1]
      ensures r < i < x ==> code[i] == t[i - r - 1]
      ensures x < i < |code| - 1 ==> code[i] == c[i - x - 1]
    {
    }
    forall i | 0 <= i < |code|
      ensures 1 <= i < r ==> IsGlobalLine(code[i])
      ensures x < i < |code| - 1 ==> IsTextLine(code[i])
    {
      if 1 <= i < r {
        assert g[i - 1] in g;
      }
      if x < i < |code| - 1 {
        assert c[i - x - 1] in c;
      }
    }
  }

  /** A line found only at index `k` occurs once. */
  lemma PlacedOnce(code: seq<Instr>, k: int, x: Instr)
    requires 0 <= k < |code| && code[k] == x
    requires forall i :: 0 <= i < |code| && code[i] == x ==> i == k
    ensures Count(code, x) == 1
  {
    assert code == code[..k] + [x] + code[k + 1..];
    assert x !in code[..k] by {
      forall i | 0 <= i < k
        ensures code[..k][i] != x
      {
        assert code[..k][i] == code[i];
      }
    }
    var tail := code[k + 1..];
    assert x !in tail by {
      forall i | 0 <= i < |tail|
        ensures tail[i] != x
      {
        assert tail[i] == code[k + 1 + i];
      }
    }
    CountAbsent(code[..k], x);
    CountAbsent(code[k + 1..], x);
    CountConcat(code[..k], [x], x);
    CountConcat(code[..k] + [x], code[k + 1..], x);
  }

  // ---------------------------------------------------------------------------
  // Every function sees every global

  lemma {:induction false} CallDeclsGlobalsGrowth(decls: seq<Decl>, gt: GlobalTable, funcs: FunctionTable)
    ensures GrowsByNulls(gt, CallDecls(decls, gt, funcs).globals)
  {
    if |decls| > 0 {
      var p := CallDecls(decls[..|decls| - 1], gt, funcs);
      CallDeclsGlobalsGrowth(decls[..|decls| - 1], gt, funcs);
      var d := decls[|decls| - 1];
      if d.CallDecl? {
        BlockGlobalsGrowth(d.body, p.globals);
        GrowsByNullsTransitive(gt, p.globals, CallCode(d.name, d.params, d.body, p.globals).globals);
      }
    }
  }

  /** The global table the body of the function declared at `decls[k]` is lowered from. */
  function TableAtFunction(decls: seq<Decl>, k: int): GlobalTable
    requires 0 <= k < |decls|
  {
    CallDecls(decls[..k], GlobalSection(decls, map[]).globals, map[]).globals
  }

  /**
    Global data is written before any function, so inside every function body every global of the
    program is non-null in the table, one declared after the function included; an assignment to it
    at the start of the body stores through RIP.
   */
  lemma GlobalsVisibleInEveryFunction(decls: seq<Decl>, k: int)
    requires 0 <= k < |decls| && decls[k].CallDecl?
    ensures forall x :: x in GlobalNames(decls) ==> IsGlobal(TableAtFunction(decls, k), x)
    ensures forall x, e :: x in GlobalNames(decls) ==>
      var r := CodeExpr(Assign(x, e), TableAtFunction(decls, k)).code;
      |r| >= 3 && r[|r| - 1] == Mov(R(RAX), R(RIP))
  {
    var g := GlobalSection(decls, map[]).globals;
    RecordMakesGlobal(map[], decls);
    CallDeclsGlobalsGrowth(decls[..k], g, map[]);
    forall x, e | x in GlobalNames(decls)
      ensures var r := CodeExpr(Assign(x, e), TableAtFunction(decls, k)).code;
        |r| >= 3 && r[|r| - 1] == Mov(R(RAX), R(RIP))
    {
      AssignStoreTarget(x, e, TableAtFunction(decls, k));
    }
  }
}
