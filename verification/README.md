# Seal code generator — lowering model

This project models the lowering logic of the Seal compiler's x86-64 code
generator (`code-generate/cgen.cc`), which turns a type-checked program
tree into assembly. Up to text formatting, every line the generator writes
is an abstract `Instr`: an instruction with its operands, a label, a bare
text line, or a directive. Every `code` method becomes a pure function from a tree node to
a sequence of `Instr`. The generator's two process-wide tables are
explicit values threaded through those functions:

- the global table `globalTab` maps a global's name to its type;
- the function table `functab` maps a function's name to its variable
  table, which maps a name to its frame slot.

Modules, in dependency order:

- `Asm`: registers, operands and the `Instr` datatype, plus occurrence counting.
- `Ast`: declarations, statements and expressions. Most node classes get a
  constructor of their own. The arithmetic, relational and two-operand
  logical/bitwise classes share `Arith`, `Rel` and `Bitwise`, each with an
  operator tag. `ExprStmt` wraps an expression used as a statement.
- `Tables`: both tables. A `globalTab` entry is an `Option`, because the
  source's `operator[]` inserts a null entry for a name it does not hold.
- `GlobalData`: `code_global_data` and the `emit_global_*` helpers.
- `ExprCode`: `Assign` and the arithmetic, relational, logical, bitwise and constant nodes.
- `Convention`: the argument registers, the prologue and the epilogue.
- `StmtCode`: blocks, `if`, `while`, `for`, `return`, `break` and `continue`.
- `Frame`: `CallDecl_class::code`, which builds a function's frame.
- `Program`: `code_calls`, `code` and `Program_class::cgen`.

The model follows the code as written, quirks included:

- Labels are fixed text, so two `if`s in one program define `POSIF2` twice.
- `for` jumps to `POS ForEND` but writes the line `POS forEND`.
- Several label lines are written without their colon. These become `Marker` lines rather than label definitions.
- Relational, logical and bitwise nodes never lower their operands.
- `Const_int` reserves no frame word.
- `return` ignores its value and writes only the epilogue.
- The epilogue's pops name the registers the prologue pushed, in reverse order. But nothing ever releases the words reserved for locals and expressions, so the pops reach the saved registers only when nothing was reserved before the `return`.
- Parameter capture writes `sub $8, %rbp` then `mov %reg, %rbp`. It moves the frame pointer and does not reserve a stack word.
- Only a function body's outermost declarations get slots. Declarations in a nested block are ignored.

## Model

| member | source | states |
|---|---|---|
| GlobalData.ZeroData | code-generate/cgen.cc:411-437 | A Float global's storage is two zero words, an Int's or Bool's one, each tagged with the type's storage directive |
| GlobalData.GlobalDef | code-generate/cgen.cc:411-437 | A global of type Int, Bool or Float gets visibility, 8-byte alignment, object type, size 8 and its label, then only zero words of its type; any other type gets no output; no definition holds the data header |
| GlobalData.GlobalDefCounts | code-generate/cgen.cc:411-437 | A scalar global's definition is 8-aligned exactly once and holds exactly `ZeroWords(typ)` zero words; other types are never aligned |
| GlobalData.RecordContents | code-generate/cgen.cc:439-457 | Every non-function declaration enters the global table with its declared type, whatever the type; a name declared twice keeps its last type; other entries are untouched |
| GlobalData.RecordMakesGlobal | code-generate/cgen.cc:439-457 | After global data, every declared global's entry is non-null |
| GlobalData.CodeGlobalData | code-generate/cgen.cc:439-457 | The counting loop, with the data header written when the count first reaches one, produces exactly the global-data code and table of `GlobalSection` |
| GlobalData.DataHeaderOnce | code-generate/cgen.cc:439-444 | The data header occurs exactly once and first when some global is declared; with no globals nothing at all is written |
| GlobalData.OneDefinitionPerScalarGlobal | code-generate/cgen.cc:439-457 | The number of 8-aligned definitions equals the number of globals of type Int, Bool or Float |
| GlobalData.GlobalDataLines | code-generate/cgen.cc:411-457 | Global data holds only data-section lines: no instruction, no rodata or text header, no string, no comment |
| ExprCode.ExprReservations | code-generate/cgen.cc:678-923 | An expression reserves exactly `Slots(e)` words: an assignment one plus its value's, arithmetic one plus both operands', `Neg` one plus its operand's, every relational, logical or bitwise node and string or boolean constant exactly one, `Const_int` and the empty kinds none |
| ExprCode.AssignStoreTarget | code-generate/cgen.cc:678-697 | An assignment reserves first, loads RAX, and stores through RIP if and only if the global table held a non-null entry for the target, and through RBP if and only if not; the table afterwards holds the target |
| ExprCode.ExprGlobalsGrowth | code-generate/cgen.cc:678-697 | Lowering an expression adds to the global table exactly the assignment targets it lowers, as null entries, and changes no existing entry |
| ExprCode.DivideModTwins | code-generate/cgen.cc:729-749 | `Divide` and `Mod` emit the same code, `cqto` and `div %rbx` included, except the final store: RAX for `Divide`, RDX for `Mod` |
| ExprCode.OperandsNotLowered | code-generate/cgen.cc:759-896 | Relational, logical and bitwise nodes produce the same code and table whatever their operands |
| ExprCode.ExprCodeShape | code-generate/cgen.cc:678-931 | Expression code holds only data-moving, arithmetic and comparison instructions and the relational labels; it holds no push, pop, return or directive |
| Convention.Prologue | code-generate/cgen.cc:524-532 | The prologue pushes RBP, sets RBP from RSP, then pushes seven registers other than RBP and RSP; it never returns |
| Convention.Epilogue | code-generate/cgen.cc:636-646 | The epilogue's seven pops name exactly the registers the prologue pushed after RBP, in reverse order, then `leave` and `ret`, with `ret` only at the end |
| StmtCode.StmtReservations | code-generate/cgen.cc:592-654 | A statement reserves exactly the words of the expressions it lowers; control flow, `return`, `break` and `continue` reserve none |
| StmtCode.StmtReturnsRestore | code-generate/cgen.cc:636-646 | In any statement's code, every `ret` is the last line of a complete epilogue |
| StmtCode.IfLabelPerIf | code-generate/cgen.cc:599-609 | A statement's code defines the label `POSIF2` exactly once per `if` it contains, nested ones included |
| StmtCode.IfGlueLabel | code-generate/cgen.cc:599-609 | The lines an `if` writes of its own define `POSIF2` exactly once |
| StmtCode.TwoIfsShareLabel | code-generate/cgen.cc:599-609 | Two `if`s in a row define the same label `POSIF2` twice |
| StmtCode.StmtTextLines | code-generate/cgen.cc:592-654 | Statement code holds no section header, data line, string or comment |
| StmtCode.StmtGlobalsGrowth | code-generate/cgen.cc:592-654 | Lowering a statement keeps every global-table entry and adds only null ones |
| Frame.NumberSlotsKeys | code-generate/cgen.cc:536-584 | Numbering adds exactly the declared names to the variable table and keeps every other entry |
| Frame.NumberSlotsLast | code-generate/cgen.cc:536-584 | A name's slot is the counter value at its last declaration |
| Frame.NumberSlotsAppend | code-generate/cgen.cc:535-584 | Numbering the parameters and then the locals, with the counter carried over, is one numbering of parameters followed by locals |
| Frame.FrameSlotIsLastDeclaration | code-generate/cgen.cc:534-586 | The table stored for a function holds exactly its parameter and local names; each name's slot is one plus the position of its last declaration among the parameters followed by the locals |
| Frame.SlotNumbering | code-generate/cgen.cc:534-586 | With distinct names, parameter i gets slot i+1 and local j gets slot n+j+1 for n parameters |
| Frame.Capture | code-generate/cgen.cc:542-573 | Capturing n parameters writes 2·min(n,6) lines; for k < min(n,6), line 2k is `sub $8, %rbp` and line 2k+1 moves argument register k (RDI, RSI, RDX, RCX, R8, R9) into RBP |
| Frame.CaptureCase | code-generate/cgen.cc:542-573 | Switch cases 1 to 6 write the capture of the matching argument register and advance the order; any other order writes nothing and leaves it unchanged |
| Frame.CaptureLeavesStack | code-generate/cgen.cc:542-573 | Parameter capture neither reserves a stack word nor returns |
| Frame.CaptureParams | code-generate/cgen.cc:534-574 | The parameter loop numbers parameters from 1, captures the first six and none beyond, and leaves the counter at n+1 |
| Frame.ReserveLocals | code-generate/cgen.cc:576-584 | The locals loop numbers each local of the body's outermost block from where the parameters stopped, with one `sub $8, %rsp` per local |
| Frame.CodeCallDecl | code-generate/cgen.cc:512-590 | Lowering a function writes `CallCode`'s lines, and stores the frame table of its parameters and locals under its name in the function table |
| Frame.FunctionLayout | code-generate/cgen.cc:512-590 | A function's code is its visibility, type and label lines, the prologue, the capture, one reservation per local, then exactly the body block's code, then its size directive last |
| Frame.FunctionReservations | code-generate/cgen.cc:534-590 | A function reserves one word per local plus the words of its body; capturing parameters reserves none |
| Frame.FunctionReturnsRestore | code-generate/cgen.cc:512-590 | In a function's code every `ret` is the last line of a complete epilogue |
| Frame.FunctionTextLines | code-generate/cgen.cc:512-590 | A function's code holds no section header, data line, string or comment |
| Program.StringTable | code-generate/cgen.cc:388-392 | The string table writes one definition per entry, in table order |
| Program.CodeCalls | code-generate/cgen.cc:459-468 | The calls loop writes the rodata header, the string table and the text header, then lowers each function declaration in order and skips globals |
| Program.CodeProgram | code-generate/cgen.cc:493-500 | `code` writes global data, then the calls, from the table the global data left |
| Program.CallDeclsAppend | code-generate/cgen.cc:463-467 | Lowering `a + b` writes `a`'s functions and then `b`'s, from the tables `a` left |
| Program.GlobalsDoNotAffectCalls | code-generate/cgen.cc:463-467 | A global declaration anywhere among the declarations changes neither the functions' code nor the tables |
| Program.CallDeclsFuncTable | code-generate/cgen.cc:586 | The function table the calls leave depends only on the declarations |
| Program.FuncTableKeys | code-generate/cgen.cc:586 | The function table gains exactly the declared function names and keeps every other entry |
| Program.FuncTableEntries | code-generate/cgen.cc:586 | Each function's entry is the frame table of its last declaration |
| Program.CgenFunctionTable | code-generate/cgen.cc:84-93 | After generation, the function table holds exactly the program's functions, each with its frame table |
| Program.SectionOrder | code-generate/cgen.cc:84-93 | The output starts and ends with its comments. It has one rodata header and one text header. Every data-section line precedes the rodata header, every string lies between the two headers, and every instruction follows the text header |
| Program.CgenParts | code-generate/cgen.cc:84-93 | The output is the start comment, global data, the rodata header, the strings, the text header, the functions, and the end comment |
| Program.CallDeclsGlobalsGrowth | code-generate/cgen.cc:459-468 | Lowering the functions keeps every global-table entry and adds only null ones |
| Program.GlobalsVisibleInEveryFunction | code-generate/cgen.cc:493-500 | Every global of the program is non-null in the table a function body starts from, including one declared after the function, so an assignment to it there stores through RIP |

## Left out

- Text formatting: the `emit_*` helpers format lines from opcode, register and directive macros defined in headers that are not part of this model. Each line is an abstract `Instr`, not its exact text. Two places do not map one line to one `Instr`: a string constant's label line and its data line (code-generate/cgen.cc:379-380) become a single `StringDef`, and the blank line written before the closing `# end of generated code` comment (code-generate/cgen.cc:92) is not modelled.
- String constants: `emit_string_constant` is defined outside this file, and the string table's order and interning live in code not shown. `Program.StringTable` takes the entries as a parameter. `StringEntry::code_ref` and the unused `IntEntry::code_def`/`FloatEntry::code_ref` are not modelled.
- Floating point: `Const_float` writes nothing, and the SSE helpers and `CALL_XMM` are never called. No float semantics is modelled.
- Empty stubs: `Call`, `Actual`, `Object`, `No_expr`, `break` and `continue` write nothing and are modelled as empty code. No call marshalling or loop exit is invented.
- Label uniqueness: the generator does not provide it, so no lemma claims it. `StmtCode.TwoIfsShareLabel` shows the repetition. The `POS ForEND` jump with its `POS forEND` line is recorded as written.
- Debug output: the `cgen_debug` console lines are left out.
- Symbol interning: `initialize_constants` is left out. The predefined type names are text constants, and symbol identity is text equality.
- Runtime behaviour: nothing about running the emitted assembly is modelled.
- Process-wide tables: the source keeps `globalTab` and `functab` as globals. `Program.Cgen` starts both empty, as a single run of the generator does.
- Frame.SlotNumbering: requires distinct parameter and local names. `Frame.FrameSlotIsLastDeclaration` covers repeated names: the last declaration's slot wins.
