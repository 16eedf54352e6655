/**
  Global-data emission (`code_global_data`, `emit_global_int`,
  `emit_global_float`, `emit_global_bool`): one storage definition per
  global of a scalar type, the data-section header before the first global,
  and the global table filled with every global's declared type.
 */
module GlobalData {
  import opened Ast
  import opened Asm
  import opened Tables

  /** The types that get storage: Int, Bool and Float. */
  predicate IsScalar(typ: Symbol)
  {
    typ == IntType || typ == BoolType || typ == FloatType
  }

  /** The storage directive of a scalar type's zero words. */
  function TagOf(typ: Symbol): DataTag
  {
    if typ == FloatType then FloatTag else if typ == BoolType then BoolTag else IntTag
  }

  /** How many zero words a global of type `typ` occupies: two for Float, one for Int and Bool, none otherwise. */
  function ZeroWords(typ: Symbol): nat
  {
    if typ == FloatType then 2 else if IsScalar(typ) then 1 else 0
  }

  /** The lines every storage definition starts with: visibility, 8-byte alignment, object type, 8-byte size, label. */
  function DefHeader(name: Symbol): seq<Instr>
  {
    [Global(name), Align(8), TypeOf(name, ObjectKind), Size(name, 8), Position(name)]
  }

  /** The zero words that follow the header: one for Int and Bool, two for Float. */
  function ZeroData(typ: Symbol): (r: seq<Instr>)
    ensures forall i :: 0 <= i < |r| ==> r[i] == Word(TagOf(typ), 0)
    ensures |r| == (if typ == FloatType then 2 else 1)
  {
    if typ == FloatType then [Word(FloatTag, 0), Word(FloatTag, 0)]
    else if typ == BoolType then [Word(BoolTag, 0)]
    else [Word(IntTag, 0)]
  }

  /** The storage definition of one global, or nothing for a type that is not scalar. */
  function GlobalDef(name: Symbol, typ: Symbol): (r: seq<Instr>)
    ensures |r| == (if IsScalar(typ) then 5 + ZeroWords(typ) else 0)
    ensures r != [] ==> r[0] == Global(name) && r[1] == Align(8) && r[3] == Size(name, 8)
    ensures r != [] ==> r[2] == TypeOf(name, ObjectKind) && r[4] == Position(name)
    ensures forall i :: 0 <= i < |r| && r[i].Word? ==> r[i] == Word(TagOf(typ), 0)
    ensures DataSection !in r
  {
    if IsScalar(typ) then DefHeader(name) + ZeroData(typ) else []
  }

  /** A scalar global's definition is 8-aligned once and holds `ZeroWords(typ)` zero words of its type. */
  lemma GlobalDefCounts(name: Symbol, typ: Symbol)
    ensures Count(GlobalDef(name, typ), Align(8)) == (if IsScalar(typ) then 1 else 0)
    ensures Count(GlobalDef(name, typ), Word(TagOf(typ), 0)) == ZeroWords(typ)
  {
    if IsScalar(typ) {
      assert GlobalDef(name, typ) == DefHeader(name) + ZeroData(typ);
      HeaderCounts(name, typ);
      ZeroWordCount(ZeroData(typ), Word(TagOf(typ), 0));
      assert Align(8) !in ZeroData(typ);
      CountAbsent(ZeroData(typ), Align(8));
      CountConcat(DefHeader(name), ZeroData(typ), Align(8));
      CountConcat(DefHeader(name), ZeroData(typ), Word(TagOf(typ), 0));
    }
  }

  /** A definition's header aligns once and holds no data word. */
  lemma HeaderCounts(name: Symbol, typ: Symbol)
    ensures Count(DefHeader(name), Align(8)) == 1
    ensures Count(DefHeader(name), Word(TagOf(typ), 0)) == 0
  {
    var a, b, c, d, e := [Global(name)], [Align(8)], [TypeOf(name, ObjectKind)], [Size(name, 8)], [Position(name)];
    assert DefHeader(name) == a + b + c + d + e;
    var w := Word(TagOf(typ), 0);
    CountFive(a, b, c, d, e, Align(8));
    CountFive(a, b, c, d, e, w);
    CountSingle(Global(name), Align(8));
    CountSingle(Align(8), Align(8));
    CountSingle(TypeOf(name, ObjectKind), Align(8));
    CountSingle(Size(name, 8), Align(8));
    CountSingle(Position(name), Align(8));
    CountSingle(Global(name), w);
    CountSingle(Align(8), w);
    CountSingle(TypeOf(name, ObjectKind), w);
    CountSingle(Size(name, 8), w);
    CountSingle(Position(name), w);
  }

  lemma {:induction false} ZeroWordCount(z: seq<Instr>, w: Instr)
    requires forall i :: 0 <= i < |z| ==> z[i] == w
    ensures Count(z, w) == |z|
  {
    if |z| > 0 {
      ZeroWordCount(z[1..], w);
      assert z == [z[0]] + z[1..];
      CountConcat([z[0]], z[1..], w);
    }
  }

  /** Some declaration of `decls` is not a function. */
  predicate HasGlobals(decls: seq<Decl>)
  {
    exists i :: 0 <= i < |decls| && decls[i].VarDecl?
  }

  /** The names of the global variables declared in `decls`. */
  function GlobalNames(decls: seq<Decl>): set<Symbol>
  {
    set i | 0 <= i < |decls| && decls[i].VarDecl? :: decls[i].variable.name
  }

  /** `decls[i]` is the last global declaration of its name. */
  predicate LastGlobal(decls: seq<Decl>, i: int)
    requires 0 <= i < |decls| && decls[i].VarDecl?
  {
    forall j :: i < j < |decls| && decls[j].VarDecl? ==> decls[j].variable.name != decls[i].variable.name
  }

  /** The storage definitions of the globals of `decls`, in declaration order. */
  function Defs(decls: seq<Decl>): seq<Instr>
  {
    if |decls| == 0 then []
    else
      var last := decls[|decls| - 1];
      Defs(decls[..|decls| - 1]) + (if last.VarDecl? then GlobalDef(last.variable.name, last.variable.typ) else [])
  }

  /** The global table after `globalTab[name] = type` for each global of `decls`, in order. */
  function Record(gt: GlobalTable, decls: seq<Decl>): GlobalTable
  {
    if |decls| == 0 then gt
    else
      var last := decls[|decls| - 1];
      var prev := Record(gt, decls[..|decls| - 1]);
      if last.VarDecl? then prev[last.variable.name := Some(last.variable.typ)] else prev
  }

  /**
    Every global enters the table with its declared type, whatever that type is: the table gains exactly
    the declared names, a name declared more than once keeps the type of its last declaration, and no
    other entry changes.
   */
  lemma RecordContents(gt: GlobalTable, decls: seq<Decl>)
    ensures Record(gt, decls).Keys == gt.Keys + GlobalNames(decls)
    ensures forall i :: 0 <= i < |decls| && decls[i].VarDecl? && LastGlobal(decls, i) ==>
      Record(gt, decls)[decls[i].variable.name] == Some(decls[i].variable.typ)
    ensures forall k :: k in gt && k !in GlobalNames(decls) ==> Record(gt, decls)[k] == gt[k]
  {
    RecordKeys(gt, decls);
    RecordLast(gt, decls);
  }

  /** Recording adds exactly the declared names and keeps the entries of every other name. */
  lemma {:induction false} RecordKeys(gt: GlobalTable, decls: seq<Decl>)
    ensures Record(gt, decls).Keys == gt.Keys + GlobalNames(decls)
    ensures forall k :: k in gt && k !in GlobalNames(decls) ==> Record(gt, decls)[k] == gt[k]
  {
    if |decls| > 0 {
      var init := decls[..|decls| - 1];
      var last := decls[|decls| - 1];
      RecordKeys(gt, init);
      assert forall i :: 0 <= i < |init| ==> init[i] == decls[i];
      assert GlobalNames(decls) == GlobalNames(init) + (if last.VarDecl? then {last.variable.name} else {});
    }
  }

  /** A global's entry holds the type of its last declaration. */
  lemma {:induction false} RecordLast(gt: GlobalTable, decls: seq<Decl>)
    ensures forall i :: 0 <= i < |decls| && decls[i].VarDecl? && LastGlobal(decls, i) ==>
      decls[i].variable.name in Record(gt, decls) && Record(gt, decls)[decls[i].variable.name] == Some(decls[i].variable.typ)
  {
    if |decls| > 0 {
      var n := |decls| - 1;
      var init := decls[..n];
      var last := decls[n];
      RecordLast(gt, init);
      var m := Record(gt, init);
      assert Record(gt, decls) == if last.VarDecl? then m[last.variable.name := Some(last.variable.typ)] else m;
      forall i | 0 <= i < n && decls[i].VarDecl? && LastGlobal(decls, i)
        ensures decls[i].variable.name in Record(gt, decls)
        ensures Record(gt, decls)[decls[i].variable.name] == Some(decls[i].variable.typ)
      {
        LastGlobalPrefix(decls, i);
        if last.VarDecl? {
          assert last.variable.name != decls[i].variable.name;
        }
      }
    }
  }

  /** The last declaration of a global before the final declaration is still last once that one is dropped. */
  lemma LastGlobalPrefix(decls: seq<Decl>, i: int)
    requires 0 <= i < |decls| - 1 && decls[i].VarDecl? && LastGlobal(decls, i)
    ensures decls[..|decls| - 1][i] == decls[i] && LastGlobal(decls[..|decls| - 1], i)
  {
    var init := decls[..|decls| - 1];
    forall j | i < j < |init| && init[j].VarDecl?
      ensures init[j].variable.name != init[i].variable.name
    {
      assert init[j] == decls[j];
    }
  }

  /** What `code_global_data` emits and leaves in the global table. */
  function GlobalSection(decls: seq<Decl>, gt: GlobalTable): Emitted
  {
    Emitted((if HasGlobals(decls) then [DataSection] else []) + Defs(decls), Record(gt, decls))
  }

  /** The generator's loop: it counts globals and writes the data header when the count first reaches one. */
  method CodeGlobalData(decls: seq<Decl>, gt: GlobalTable) returns (code: seq<Instr>, globals: GlobalTable)
    ensures code == GlobalSection(decls, gt).code
    ensures globals == GlobalSection(decls, gt).globals
  {
    var count := 0;
    code := [];
    globals := gt;
    ghost var done: seq<Decl> := [];
    var i := 0;
    while i < |decls|
      invariant 0 <= i <= |decls| && done == decls[..i]
      invariant count == 0 <==> !HasGlobals(done)
      invariant code == GlobalSection(done, gt).code
      invariant globals == GlobalSection(done, gt).globals
    {
      SectionStep(done, decls[i], gt);
      if decls[i].VarDecl? {
        var v := decls[i].variable;
        count := count + 1;
        if count == 1 {
          code := code + [DataSection];
        }
        globals := globals[v.name := Some(v.typ)];
        code := code + GlobalDef(v.name, v.typ);
      }
      assert decls[..i + 1] == done + [decls[i]];
      done := done + [decls[i]];
      i := i + 1;
    }
    assert decls[..i] == decls;
  }

  /** One turn of the loop: a global adds its definition, preceded by the data header if it is the first. */
  lemma SectionStep(done: seq<Decl>, d: Decl, gt: GlobalTable)
    ensures HasGlobals(done + [d]) <==> HasGlobals(done) || d.VarDecl?
    ensures !d.VarDecl? ==> GlobalSection(done + [d], gt) == GlobalSection(done, gt)
    ensures d.VarDecl? && !HasGlobals(done) ==>
      GlobalSection(done + [d], gt).code == GlobalSection(done, gt).code + [DataSection] + GlobalDef(d.variable.name, d.variable.typ)
    ensures d.VarDecl? && HasGlobals(done) ==>
      GlobalSection(done + [d], gt).code == GlobalSection(done, gt).code + GlobalDef(d.variable.name, d.variable.typ)
    ensures d.VarDecl? ==>
      GlobalSection(done + [d], gt).globals == GlobalSection(done, gt).globals[d.variable.name := Some(d.variable.typ)]
  {
    HasGlobalsSnoc(done, d);
    DefsRecordSnoc(done, d, gt);
    if d.VarDecl? {
      var g := GlobalDef(d.variable.name, d.variable.typ);
      if HasGlobals(done) {
        Associate([DataSection], Defs(done), g);
      } else {
        NoDefsWithoutGlobals(done);
        assert GlobalSection(done, gt).code == [];
      }
    }
  }

  lemma HasGlobalsSnoc(done: seq<Decl>, d: Decl)
    ensures HasGlobals(done + [d]) <==> HasGlobals(done) || d.VarDecl?
  {
    var next := done + [d];
    assert next[|done|] == d;
    if HasGlobals(done) {
      var k :| 0 <= k < |done| && done[k].VarDecl?;
      assert next[k] == done[k];
    }
    if HasGlobals(next) {
      var k :| 0 <= k < |next| && next[k].VarDecl?;
      if k < |done| {
        assert done[k] == next[k];
      }
    }
  }

  lemma DefsRecordSnoc(done: seq<Decl>, d: Decl, gt: GlobalTable)
    ensures Defs(done + [d]) == Defs(done) + (if d.VarDecl? then GlobalDef(d.variable.name, d.variable.typ) else [])
    ensures Record(gt, done + [d]) == if d.VarDecl? then Record(gt, done)[d.variable.name := Some(d.variable.typ)] else Record(gt, done)
  {
    assert (done + [d])[..|done|] == done;
  }

  lemma {:induction false} NoDataHeaderInDefs(decls: seq<Decl>)
    ensures DataSection !in Defs(decls)
  {
    if |decls| > 0 {
      NoDataHeaderInDefs(decls[..|decls| - 1]);
    }
  }

  /** The data header is written exactly once when some global is declared, and first; otherwise never. */
  lemma DataHeaderOnce(decls: seq<Decl>, gt: GlobalTable)
    ensures Count(GlobalSection(decls, gt).code, DataSection) == (if HasGlobals(decls) then 1 else 0)
    ensures HasGlobals(decls) ==> GlobalSection(decls, gt).code[0] == DataSection
    ensures !HasGlobals(decls) ==> GlobalSection(decls, gt).code == []
  {
    NoDataHeaderInDefs(decls);
    CountConcat(if HasGlobals(decls) then [DataSection] else [], Defs(decls), DataSection);
    if !HasGlobals(decls) {
      NoDefsWithoutGlobals(decls);
    }
  }

  lemma {:induction false} NoDefsWithoutGlobals(decls: seq<Decl>)
    requires !HasGlobals(decls)
    ensures Defs(decls) == []
  {
    if |decls| > 0 {
      var init := decls[..|decls| - 1];
      assert forall i :: 0 <= i < |init| ==> init[i] == decls[i];
      NoDefsWithoutGlobals(init);
      assert !decls[|decls| - 1].VarDecl?;
    }
  }

  /** The number of globals of `decls` whose type is scalar. */
  function ScalarGlobals(decls: seq<Decl>): nat
  {
    if |decls| == 0 then 0
    else
      var last := decls[|decls| - 1];
      ScalarGlobals(decls[..|decls| - 1]) + (if last.VarDecl? && IsScalar(last.variable.typ) then 1 else 0)
  }

  /** Exactly one 8-aligned storage definition per global of type Int, Bool or Float, and none for any other. */
  lemma {:induction false} OneDefinitionPerScalarGlobal(decls: seq<Decl>, gt: GlobalTable)
    ensures Count(GlobalSection(decls, gt).code, Align(8)) == ScalarGlobals(decls)
  {
    CountConcat(if HasGlobals(decls) then [DataSection] else [], Defs(decls), Align(8));
    DefsAlignCount(decls);
  }

  lemma {:induction false} DefsAlignCount(decls: seq<Decl>)
    ensures Count(Defs(decls), Align(8)) == ScalarGlobals(decls)
  {
    if |decls| > 0 {
      var last := decls[|decls| - 1];
      DefsAlignCount(decls[..|decls| - 1]);
      if last.VarDecl? {
        GlobalDefCounts(last.variable.name, last.variable.typ);
      }
      CountConcat(Defs(decls[..|decls| - 1]),
                  if last.VarDecl? then GlobalDef(last.variable.name, last.variable.typ) else [],
                  Align(8));
    }
  }

  /** The lines global data is made of: the data header, the directives of a definition, its label and its words. */
  predicate IsGlobalLine(i: Instr)
  {
    match i
    case DataSection => true
    case Global(_) => true
    case Align(_) => true
    case TypeOf(_, _) => true
    case Size(_, _) => true
    case Position(_) => true
    case Word(_, _) => true
    case _ => false
  }

  lemma GlobalDefLines(name: Symbol, typ: Symbol)
    ensures forall x :: x in GlobalDef(name, typ) ==> IsGlobalLine(x)
  {
    if IsScalar(typ) {
      var h := DefHeader(name);
      var z := ZeroData(typ);
      assert GlobalDef(name, typ) == h + z;
      forall x | x in h + z
        ensures IsGlobalLine(x)
      {
        if x !in h {
          assert x in z;
        }
      }
    }
  }

  lemma {:induction false} DefsLines(decls: seq<Decl>)
    ensures forall x :: x in Defs(decls) ==> IsGlobalLine(x)
  {
    if |decls| > 0 {
      var prev := decls[..|decls| - 1];
      DefsLines(prev);
      var last := decls[|decls| - 1];
      var r := if last.VarDecl? then GlobalDef(last.variable.name, last.variable.typ) else [];
      if last.VarDecl? {
        GlobalDefLines(last.variable.name, last.variable.typ);
      }
      assert Defs(decls) == Defs(prev) + r;
    }
  }

  /** Global data holds no instruction, no rodata or text header, no string and no comment. */
  lemma GlobalDataLines(decls: seq<Decl>, gt: GlobalTable)
    ensures forall x :: x in GlobalSection(decls, gt).code ==> IsGlobalLine(x)
  {
    DefsLines(decls);
  }

  /** After recording, every declared global has a non-null entry. */
  lemma {:induction false} RecordMakesGlobal(gt: GlobalTable, decls: seq<Decl>)
    ensures forall x :: x in GlobalNames(decls) ==> IsGlobal(Record(gt, decls), x)
  {
    if |decls| > 0 {
      var init := decls[..|decls| - 1];
      var last := decls[|decls| - 1];
      RecordMakesGlobal(gt, init);
      RecordContents(gt, init);
      assert forall i :: 0 <= i < |init| ==> init[i] == decls[i];
      assert GlobalNames(decls) == GlobalNames(init) + (if last.VarDecl? then {last.variable.name} else {});
    }
  }
}
