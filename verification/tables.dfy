/**
  The generator's two symbol tables, and the value a lowering step produces.

  The global table maps a global variable's name to its declared type. The
  source keeps it in a `std::map<Symbol, Symbol>` whose `operator[]` inserts
  a null entry for a name it does not hold, so an entry here is an
  `Option`: `None` is that null entry. The function table maps a function's
  name to its variable table, which maps a parameter or local name to its
  frame slot.
 */
module Tables {
  import opened Ast
  import opened Asm

  datatype Option<T> = None | Some(value: T)

  type GlobalTable = map<Symbol, Option<Symbol>>

  type VariableTable = map<Symbol, int>

  type FunctionTable = map<Symbol, VariableTable>

  /** Lowered code together with the global table as the lowering left it. */
  datatype Emitted = Emitted(code: seq<Instr>, globals: GlobalTable)

  /** Reading `globalTab[name]`: the table after the read, which holds `name` (as a null entry if it was absent). */
  function Touch(gt: GlobalTable, name: Symbol): (r: GlobalTable)
    ensures r.Keys == gt.Keys + {name}
    ensures forall k :: k in gt ==> r[k] == gt[k]
    ensures name !in gt ==> r[name] == None
  {
    if name in gt then gt else gt[name := None]
  }

  /** `globalTab[name] != NULL`. */
  predicate IsGlobal(gt: GlobalTable, name: Symbol)
  {
    name in gt && gt[name].Some?
  }

  /** `gt'` extends `gt` with null entries only: every old entry is kept and every new one is null. */
  ghost predicate GrowsByNulls(gt: GlobalTable, gt': GlobalTable)
  {
    && gt.Keys <= gt'.Keys
    && (forall k :: k in gt ==> gt'[k] == gt[k])
    && (forall k :: k in gt' && k !in gt ==> gt'[k] == None)
  }

  lemma GrowsByNullsTransitive(a: GlobalTable, b: GlobalTable, c: GlobalTable)
    requires GrowsByNulls(a, b) && GrowsByNulls(b, c)
    ensures GrowsByNulls(a, c)
  {
  }
}
