/** What a program of the integer fragment means: a big-step interpreter over
    named variables. `fuel` bounds loop iterations along any path, so `Timeout`
    only says that the bound was too small. */
module Semantics {
  import opened Ast
  import opened Values
  import opened Rows

  /** How often each element of an emitted row is evaluated: once, as the program
      says, or twice in a row with the second value used, as its code does. */
  datatype RowMode = Once | Twice

  /** The variables and the events so far; `rows` never changes. */
  datatype State = State(vars: map<string, Value>, out: seq<Event>, rows: RowMode)

  datatype Signal = Normal | Broke | Continued

  datatype Outcome = Done(sig: Signal, st: State) | Stuck | Timeout

  function Truth(v: Value): Option<bool> {
    match v
    case IntVal(n) => Some(n != 0)
    case BoolVal(b) => Some(b)
    case UnitVal => None
  }

  function Eval(e: Expr, st: State): Option<(Value, State)> {
    match e
    case Num(n) => Some((IntVal(n), st))
    case Var(x) => if x in st.vars then Some((st.vars[x], st)) else None
    case Binary(op, l, r) =>
      var (x, st1) :- Eval(l, st);
      if op.IsCond() then
        var t :- Truth(x);
        if t == op.CondOr? then Some((BoolVal(t), st1))
        else
          var (y, st2) :- Eval(r, st1);
          var u :- Truth(y);
          Some((BoolVal(u), st2))
      else
        var (y, st2) :- Eval(r, st1);
        var z :- Operate(op, x, y);
        Some((z, st2))
    case Assign(Var(x), e1) =>
      var (v, st1) :- Eval(e1, st);
      if v.UnitVal? then None else Some((v, st1.(vars := st1.vars[x := v])))
    case Call(Var(f), args) =>
      if f == "print_int" && |args| == 1 then
        var (v, st1) :- Eval(args[0], st);
        if v.IntVal? then Some((UnitVal, st1.(out := st1.out + [Printed(v.n)]))) else None
      else None
    case _ => None
  }

  function EvalElement(e: Expr, st: State): Option<(Value, State)> {
    var (v, st1) :- Eval(e, st);
    if st.rows.Once? then Some((v, st1)) else Eval(e, st1)
  }

  /** The elements of a row, left to right. */
  function EvalRow(es: seq<Expr>, st: State): Option<(seq<int>, State)> {
    if es == [] then Some(([], st))
    else
      var (v, st1) :- EvalElement(es[0], st);
      if !v.IntVal? then None else
        var (vs, st2) :- EvalRow(es[1..], st1);
        Some(([v.n] + vs, st2))
  }

  function Exec(s: Stmt, st: State, fuel: nat): Outcome
    decreases fuel, s, 1
  {
    match s
    case Block(ss) => ExecSeq(ss, st, fuel)
    case Transaction(_, ss) =>
      var r := ExecSeq(ss, st.(out := st.out + [BeganTxn]), fuel);
      if r.Done? && r.sig.Normal? then r.(st := r.st.(out := r.st.out + [Committed])) else r
    case Let(_, x, e) =>
      (match Eval(e, st)
       case None => Stuck
       case Some((v, st1)) =>
         if v.UnitVal? then Stuck else Done(Normal, st1.(vars := st1.vars[x := v])))
    case If(e, thn, els) =>
      (match Eval(e, st)
       case None => Stuck
       case Some((v, st1)) =>
         match Truth(v)
         case None => Stuck
         case Some(b) =>
           if b then ExecSeq(thn, st1, fuel)
           else match els
             case NoElse => Done(Normal, st1)
             case ElseBlock(ss) => ExecSeq(ss, st1, fuel))
    case For(init, _, _, _) =>
      var r := match init case NoStmt => Done(Normal, st) case JustStmt(s0) => Exec(s0, st, fuel);
      if r.Done? && r.sig.Normal? then Loop(s, r.st, fuel) else r
    case Jump(BreakJump) => Done(Broke, st)
    case Jump(ContinueJump) => Done(Continued, st)
    case Emit(Row(es)) =>
      (match EvalRow(es, st)
       case None => Stuck
       case Some((row, st1)) => Done(Normal, st1.(out := st1.out + [Emitted(row)])))
    case Insert(t, Row(es)) =>
      (match EvalRow(es, st)
       case None => Stuck
       case Some((row, st1)) => Done(Normal, st1.(out := st1.out + [Inserted(NameBytes(t), row)])))
    case Define(_, _) => Done(Normal, st)
    case ExprStmt(e) =>
      (match Eval(e, st)
       case None => Stuck
       case Some((_, st1)) => Done(Normal, st1))
    case _ => Stuck
  }

  function ExecSeq(ss: seq<Stmt>, st: State, fuel: nat): Outcome
    decreases fuel, ss, 0
  {
    if ss == [] then Done(Normal, st)
    else
      var r := Exec(ss[0], st, fuel);
      if r.Done? && r.sig.Normal? then ExecSeq(ss[1..], r.st, fuel) else r
  }

  /** A loop condition; an absent one holds. */
  function EvalTest(e: MaybeExpr, st: State): Option<(bool, State)> {
    match e
    case NoExpr => Some((true, st))
    case JustExpr(e) =>
      var (v, st1) :- Eval(e, st);
      var b :- Truth(v);
      Some((b, st1))
  }

  function EvalEvery(e: MaybeExpr, st: State): Option<State> {
    match e
    case NoExpr => Some(st)
    case JustExpr(e) =>
      var (_, st1) :- Eval(e, st);
      Some(st1)
  }

  /** A For statement after its initializer. */
  function Loop(s: Stmt, st: State, fuel: nat): Outcome
    requires s.For?
    decreases fuel, s, 0
  {
    if fuel == 0 then Timeout
    else match EvalTest(s.test, st)
      case None => Stuck
      case Some((false, st1)) => Done(Normal, st1)
      case Some((true, st1)) =>
        match ExecSeq(s.body, st1, fuel - 1)
        case Done(Broke, st2) => Done(Normal, st2)
        case Done(_, st2) =>
          (match EvalEvery(s.every, st2)
           case None => Stuck
           case Some(st3) => Loop(s, st3, fuel - 1))
        case Stuck => Stuck
        case Timeout => Timeout
  }
}
