/**
  The type-checked Seal program the code generator consumes: declarations,
  statements and expressions. Most node classes of the tree have a constructor of
  their own; the arithmetic, relational and two-operand logical/bitwise classes share
  `Arith`, `Rel` and `Bitwise` with an operator tag, and `ExprStmt` wraps an
  expression used as a statement.
 */
module Ast {

  /** An interned identifier, type name or literal text. Interned symbols compare by identity, modelled as text equality. */
  type Symbol = string

  /** The predefined type symbols. */
  const IntType: Symbol := "Int"
  const FloatType: Symbol := "Float"
  const BoolType: Symbol := "Bool"

  /** A formal parameter or a variable declaration: a name and its declared type. */
  datatype Variable = Variable(name: Symbol, typ: Symbol)

  datatype ArithOp = Add | Minus | Multi | Divide | Mod

  datatype RelOp = Lt | Le | Equ | Neq | Ge | Gt

  /** The two-operand logical and bitwise nodes. */
  datatype BitOp = And | Or | Xor | Bitand | Bitor

  datatype Expr =
    | Assign(lvalue: Symbol, value: Expr)
    | Arith(aop: ArithOp, e1: Expr, e2: Expr)
    | Neg(e1: Expr)
    | Rel(rop: RelOp, e1: Expr, e2: Expr)
    | Bitwise(bop: BitOp, e1: Expr, e2: Expr)
    | Not(e1: Expr)
    | Bitnot(e1: Expr)
    | ConstInt(digits: Symbol)
    | ConstFloat(digits: Symbol)
    | ConstString(text: Symbol)
    | ConstBool(flag: bool)
    | Call(callee: Symbol, actuals: seq<Expr>)
    | Actual(expr: Expr)
    | Object(ident: Symbol)
    | NoExpr

  /** A statement block: its local variable declarations and its statements. */
  datatype Block = Block(decls: seq<Variable>, stmts: seq<Stmt>)

  datatype Stmt =
    | BlockStmt(block: Block)
    | If(condition: Expr, thenBlock: Block, elseBlock: Block)
    | While(condition: Expr, body: Block)
    | For(init: Expr, condition: Expr, step: Expr, body: Block)
    | Return(value: Expr)
    | Continue
    | Break
    | ExprStmt(expr: Expr)

  /** A top-level declaration: a global variable, or a function with its parameters and body. */
  datatype Decl =
    | VarDecl(variable: Variable)
    | CallDecl(name: Symbol, returnType: Symbol, params: seq<Variable>, body: Block)
}
