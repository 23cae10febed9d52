/** The abstract syntax of REIR programs, as built by the parser and walked by
    the analyzer and the code generator. */
module Ast {

  datatype BinOp =
    | Plus | Minus | Multiple | Division | Modulo
    | Equal | NotEqual | LessThan | LessEqual | MoreThan | MoreEqual
    | CondAnd | CondOr
  {
    predicate IsArith() { Plus? || Minus? || Multiple? || Division? || Modulo? }
    predicate IsCompare() { Equal? || NotEqual? || LessThan? || LessEqual? || MoreThan? || MoreEqual? }
    predicate IsCond() { CondAnd? || CondOr? }
  }

  datatype Expr =
    | Num(n: int)
    | Str(s: string)
    | Var(name: string)
    | Binary(op: BinOp, lhs: Expr, rhs: Expr)
    | Assign(target: Expr, value: Expr)
    | Call(callee: Expr, args: seq<Expr>)
    | Index(parent: MaybeExpr, idx: Expr)
    | Member(base: Expr, member: string)
    | Row(elements: seq<Expr>)
    | Array(elements: seq<Expr>)
    | PointerOf(pointee: Expr)

  /** A possibly null expression pointer. */
  datatype MaybeExpr = NoExpr | JustExpr(e: Expr)

  datatype Props = Props(key: bool, nullable: bool, unique: bool)

  datatype MaybeParam = NoParam | JustParam(p: int)

  /** One column of a tuple type: `typeName(param):name props`. */
  datatype Column = Column(typeName: string, param: MaybeParam, name: string, props: Props)

  /** An array type keeps only the type id of its elements. */
  datatype Type = IntType | ArrayType(elem: TypeId) | TupleType(columns: seq<Column>) {
    function Id(): TypeId {
      match this
      case IntType => IntegerId
      case ArrayType(id) => id
      case TupleType(_) => TupleId
    }
  }

  datatype TypeId = IntegerId | TupleId

  datatype MaybeType = NoType | JustType(t: Type)

  datatype JumpKind = BreakJump | ContinueJump

  datatype Stmt =
    | Block(stmts: seq<Stmt>)
    | Transaction(isolation: string, stmts: seq<Stmt>)
    | Let(ty: MaybeType, name: string, value: Expr)
    | If(cond: Expr, thn: seq<Stmt>, els: Else)
    | For(init: MaybeStmt, test: MaybeExpr, every: MaybeExpr, body: seq<Stmt>)
    | Jump(kind: JumpKind)
    | Emit(value: Expr)
    | ExprStmt(value: Expr)
    | Define(schema: MaybeType, name: string)
    | DefineTuple(name: string, tuple: Type)
    | Insert(table: string, value: Expr)
    | Scan(table: string, row: string, body: seq<Stmt>)

  datatype Else = NoElse | ElseBlock(stmts: seq<Stmt>)

  datatype MaybeStmt = NoStmt | JustStmt(s: Stmt)

  /** Success, or the exception the program throws. */
  datatype Result<+T> = Ok(value: T) | Err(error: string) {
    predicate IsFailure() { Err? }
    function PropagateFailure<U>(): Result<U> requires Err? { Err(error) }
    function Extract(): T requires Ok? { value }
  }

  datatype Option<+T> = None | Some(value: T) {
    predicate IsFailure() { None? }
    function PropagateFailure<U>(): Option<U> requires None? { None }
    function Extract(): T requires Some? { value }
  }
}
