/** Statements: every outcome of the source interpreter is matched by the
    emitted blocks. */
module StmtSimulation {
  import opened Ast
  import opened Values
  import opened Rows
  import opened Machine
  import opened Semantics
  import opened Codegen
  import opened Growth
  import opened Lowerable
  import opened Simulation

  /** Where control ends up: at the end of the emitted code, or at the block a
      jump of the innermost enclosing loop goes to. */
  ghost predicate Arrives(k: Conf, c: Ctx, c1: Ctx, sig: Signal) {
    match sig
    case Normal => At(k, c1)
    case Broke => c.loops != [] && AtStart(k, c.loops[0].finish)
    case Continued => c.loops != [] && AtStart(k, c.loops[0].every)
  }

  ghost predicate StmtSim(p: Program, c: Ctx, c1: Ctx, k: Conf, n: nat, k1: Conf, r: Outcome, fuel: nat) {
    && Run(p, k, n) == Some(k1)
    && match r
       case Done(sig, st1) => Arrives(k1, c, c1, sig) && Rel(k1.mem, k1.out, st1, c.vars)
       case Stuck => Faulted(p, k1)
       case Timeout => n >= fuel
  }

  /** The element of a row is evaluated twice in a row. */
  lemma {:induction false} SimTwice(p: Program, c: Ctx, e: Expr, k: Conf, st: State) returns (n: nat, k1: Conf)
    requires Open(c) && GenExpr(c, e).Ok? && GenExpr(GenExpr(c, e).value.0, e).Ok?
    requires LowerableExpr(e) && KindOf(e) == IntKind && st.rows.Twice?
    requires Embeds(p, GenExpr(GenExpr(c, e).value.0, e).value.0.blocks) && At(k, c) && Rel(k.mem, k.out, st, c.vars)
    ensures Run(p, k, n) == Some(k1)
    ensures EvalElement(e, st).None? ==> Faulted(p, k1)
    ensures EvalElement(e, st).Some? ==>
              var (c2, v) := GenExpr(GenExpr(c, e).value.0, e).value;
              var (x, st1) := EvalElement(e, st).value;
              && x.IntVal? && At(k1, c2) && Rel(k1.mem, k1.out, st1, c.vars) && SameRegs(k, k1, c.next)
              && Read(v, k1.regs) == Some(x) && Below(v, c2.next)
  {
    hide Run, Rel, Embeds, Eval, GenExpr, LowerableExpr;
    var c1 := GenExpr(c, e).value.0;
    ExprGrows(c, e); ExprGrows(c1, e); ExprShape(c1, e);
    EmbedsBack(p, c1, GenExpr(c1, e).value.0);
    n, k1 := SimExpr(p, c, e, k, st);
    if Eval(e, st).Some? {
      var n2, k2 := SimExpr(p, c1, e, k1, Eval(e, st).value.1);
      RunThen(p, k, n, k1, n2, k2);
      n, k1 := n + n2, k2;
    }
  }

  lemma RelTwice(mem: map<nat, int>, out: seq<Event>, st: State, vars: map<string, nat>)
    requires Rel(mem, out, st, vars)
    ensures st.rows.Twice?
  {
  }

  lemma {:induction false} SimRow(p: Program, c: Ctx, es: seq<Expr>, k: Conf, st: State) returns (n: nat, k1: Conf)
    requires Open(c) && GenRow(c, es).Ok? && WidthsOkRow(es)
    requires Embeds(p, GenRow(c, es).value.0.blocks) && At(k, c) && Rel(k.mem, k.out, st, c.vars)
    ensures Run(p, k, n) == Some(k1)
    ensures EvalRow(es, st).None? ==> Faulted(p, k1)
    ensures EvalRow(es, st).Some? ==>
              var (c1, vs) := GenRow(c, es).value;
              && At(k1, c1) && Rel(k1.mem, k1.out, EvalRow(es, st).value.1, c.vars) && SameRegs(k, k1, c.next)
              && ReadInts(vs, k1.regs) == Some(EvalRow(es, st).value.0)
    decreases es
  {
    hide Run, Rel, Embeds, EvalElement, GenExpr, LowerableExpr;
    if es == [] {
      n, k1 := 0, k;
      assert Run(p, k, 0) == Some(k) by { RunZero(p, k); }
    } else {
      var c1 := GenExpr(c, es[0]).value.0;
      var (c2, v) := GenExpr(c1, es[0]).value;
      var (c3, vs) := GenRow(c2, es[1..]).value;
      ExprGrows(c, es[0]); ExprGrows(c1, es[0]); RowGrows(c2, es[1..]);
      EmbedsBack(p, c2, c3);
      RelTwice(k.mem, k.out, st, c.vars);
      n, k1 := SimTwice(p, c, es[0], k, st);
      if EvalElement(es[0], st).Some? {
        var (x, st1) := EvalElement(es[0], st).value;
        var n2, k2 := SimRow(p, c2, es[1..], k1, st1);
        RunThen(p, k, n, k1, n2, k2);
        if EvalRow(es[1..], st1).Some? {
          assert Read(v, k2.regs) == Some(x);
          assert ([v] + vs)[1..] == vs;
        }
        n, k1 := n + n2, k2;
      }
    }
  }

  lemma RunZero(p: Program, k: Conf)
    ensures Run(p, k, 0) == Some(k)
  {
  }

  /** One instruction that logs an event. */
  lemma StepLog(p: Program, c: Ctx, i: Instr, k: Conf, st: State, ev: Event)
    requires Open(c) && Embeds(p, Append(c, i).blocks) && At(k, c) && Rel(k.mem, k.out, st, c.vars)
    requires Execute(i, k) == Some(Log(k, ev))
    ensures Step(p, k) == Some(Log(k, ev)) && At(Log(k, ev), Append(c, i))
    ensures Rel(Log(k, ev).mem, Log(k, ev).out, st.(out := st.out + [ev]), c.vars)
  {
    NextInstr(p, c, i, k);
    RelOut(k.mem, k.out, st, c.vars);
    LogEvent(k.mem, st, c.vars, ev);
  }

  /** One jump. */
  lemma StepBr(p: Program, c: Ctx, b: nat, k: Conf)
    requires Open(c) && Embeds(p, Append(c, Br(b)).blocks) && At(k, c)
    ensures Step(p, k) == Some(Goto(k, b))
  {
    NextInstr(p, c, Br(b), k);
  }

  /** Every outcome of a statement is matched by its code. */
  lemma {:induction false} SimStmt(p: Program, c: Ctx, s: Stmt, k: Conf, st: State, fuel: nat)
      returns (n: nat, k1: Conf)
    requires Open(c) && GenStmt(c, s).Ok? && WidthsOk(s)
    requires Embeds(p, GenStmt(c, s).value.blocks) && At(k, c) && Rel(k.mem, k.out, st, c.vars)
    ensures StmtSim(p, c, GenStmt(c, s).value, k, n, k1, Exec(s, st, fuel), fuel)
    decreases fuel, s, 3
  {
    hide Run, Rel, Embeds, Eval, GenExpr, LowerableExpr;
    match s
    case Block(ss) => n, k1 := SimSeq(p, c, ss, k, st, fuel);
    case Transaction(_, _) => n, k1 := SimTxn(p, c, s, k, st, fuel);
    case Let(_, _, _) => n, k1 := SimLet(p, c, s, k, st, fuel);
    case If(_, _, _) => n, k1 := SimIf(p, c, s, k, st, fuel);
    case For(_, _, _, _) => n, k1 := SimFor(p, c, s, k, st, fuel);
    case Jump(_) => n, k1 := SimJump(p, c, s, k, st, fuel);
    case Emit(Row(_)) => n, k1 := SimEmit(p, c, s, k, st, fuel);
    case Insert(_, Row(_)) => n, k1 := SimInsert(p, c, s, k, st, fuel);
    case Define(_, _) => n, k1 := 0, k; RunZero(p, k);
    case ExprStmt(e) => n, k1 := SimExpr(p, c, e, k, st);
  }

  lemma {:induction false} SimSeq(p: Program, c: Ctx, ss: seq<Stmt>, k: Conf, st: State, fuel: nat)
      returns (n: nat, k1: Conf)
    requires Open(c) && GenSeq(c, ss).Ok? && WidthsOkSeq(ss)
    requires Embeds(p, GenSeq(c, ss).value.blocks) && At(k, c) && Rel(k.mem, k.out, st, c.vars)
    ensures StmtSim(p, c, GenSeq(c, ss).value, k, n, k1, ExecSeq(ss, st, fuel), fuel)
    decreases fuel, ss, 0
  {
    hide Run, Rel, Embeds, GenStmt, Exec, WidthsOk;
    if ss == [] {
      n, k1 := 0, k;
      RunZero(p, k);
    } else {
      var c1 := GenStmt(c, ss[0]).value;
      StmtGrows(c, ss[0]);
      SeqGrows(c1, ss[1..]);
      EmbedsBack(p, c1, GenSeq(c1, ss[1..]).value);
      n, k1 := SimStmt(p, c, ss[0], k, st, fuel);
      var r := Exec(ss[0], st, fuel);
      if r.Done? && r.sig.Normal? {
        var n2, k2 := SimSeq(p, c1, ss[1..], k1, r.st, fuel);
        RunThen(p, k, n, k1, n2, k2);
        n, k1 := n + n2, k2;
      }
    }
  }

  lemma {:induction false} SimTxn(p: Program, c: Ctx, s: Stmt, k: Conf, st: State, fuel: nat) returns (n: nat, k1: Conf)
    requires Open(c) && s.Transaction? && GenStmt(c, s).Ok? && WidthsOk(s)
    requires Embeds(p, GenStmt(c, s).value.blocks) && At(k, c) && Rel(k.mem, k.out, st, c.vars)
    ensures StmtSim(p, c, GenStmt(c, s).value, k, n, k1, Exec(s, st, fuel), fuel)
    decreases fuel, s, 2
  {
    hide Run, Rel, Embeds;
    var c1 := Append(c, CallBegin);
    var c2 := GenSeq(c1, s.stmts).value;
    GrowsSelf(c); AppendGrows(c, c, CallBegin);
    SeqGrows(c1, s.stmts);
    GrowsSelf(c2); AppendGrows(c2, c2, CallCommit);
    EmbedsBack(p, c2, Append(c2, CallCommit));
    EmbedsBack(p, c1, c2);
    StepLog(p, c, CallBegin, k, st, BeganTxn);
    RunZero(p, k);
    RunStep(p, k, 0, k, Log(k, BeganTxn));
    var st1 := st.(out := st.out + [BeganTxn]);
    n, k1 := SimSeq(p, c1, s.stmts, Log(k, BeganTxn), st1, fuel);
    var r := ExecSeq(s.stmts, st1, fuel);
    RunThen(p, k, 1, Log(k, BeganTxn), n, k1);
    n := n + 1;
    if r.Done? && r.sig.Normal? {
      StepLog(p, c2, CallCommit, k1, r.st, Committed);
      RunStep(p, k, n, k1, Log(k1, Committed));
      n, k1 := n + 1, Log(k1, Committed);
    }
  }

  lemma {:induction false} SimLet(p: Program, c: Ctx, s: Stmt, k: Conf, st: State, fuel: nat) returns (n: nat, k1: Conf)
    requires Open(c) && s.Let? && GenStmt(c, s).Ok? && WidthsOk(s)
    requires Embeds(p, GenStmt(c, s).value.blocks) && At(k, c) && Rel(k.mem, k.out, st, c.vars)
    ensures StmtSim(p, c, GenStmt(c, s).value, k, n, k1, Exec(s, st, fuel), fuel)
  {
    hide Run, Rel, Embeds, Eval, GenExpr, LowerableExpr;
    var (c1, v) := GenExpr(c, s.value).value;
    ExprGrows(c, s.value); ExprShape(c, s.value);
    GrowsSelf(c1); AppendGrows(c1, c1, Store(v, c.vars[s.name]));
    EmbedsBack(p, c1, Append(c1, Store(v, c.vars[s.name])));
    n, k1 := SimExpr(p, c, s.value, k, st);
    if Eval(s.value, st).Some? {
      var (x, st1) := Eval(s.value, st).value;
      var k2 := StepStore(p, c1, v, s.name, k1, st1, x.n);
      RunStep(p, k, n, k1, k2);
      n, k1 := n + 1, k2;
    }
  }

  lemma SimJump(p: Program, c: Ctx, s: Stmt, k: Conf, st: State, fuel: nat) returns (n: nat, k1: Conf)
    requires Open(c) && s.Jump? && GenStmt(c, s).Ok?
    requires Embeds(p, GenStmt(c, s).value.blocks) && At(k, c) && Rel(k.mem, k.out, st, c.vars)
    ensures StmtSim(p, c, GenStmt(c, s).value, k, n, k1, Exec(s, st, fuel), fuel)
  {
    hide Run, Rel, Embeds;
    var b := if s.kind.BreakJump? then c.loops[0].finish else c.loops[0].every;
    StepBr(p, c, b, k);
    RunZero(p, k);
    RunStep(p, k, 0, k, Goto(k, b));
    n, k1 := 1, Goto(k, b);
  }

  lemma SimEmit(p: Program, c: Ctx, s: Stmt, k: Conf, st: State, fuel: nat) returns (n: nat, k1: Conf)
    requires Open(c) && s.Emit? && s.value.Row? && GenStmt(c, s).Ok? && WidthsOk(s)
    requires Embeds(p, GenStmt(c, s).value.blocks) && At(k, c) && Rel(k.mem, k.out, st, c.vars)
    ensures StmtSim(p, c, GenStmt(c, s).value, k, n, k1, Exec(s, st, fuel), fuel)
  {
    hide Run, Rel, Embeds, Eval, GenExpr, LowerableExpr;
    var (c1, row) := GenRow(c, s.value.elements).value;
    RowGrows(c, s.value.elements);
    GrowsSelf(c1); AppendGrows(c1, c1, CallEmit(row));
    EmbedsBack(p, c1, Append(c1, CallEmit(row)));
    n, k1 := SimRow(p, c, s.value.elements, k, st);
    if EvalRow(s.value.elements, st).Some? {
      var ev := Emitted(EvalRow(s.value.elements, st).value.0);
      StepLog(p, c1, CallEmit(row), k1, EvalRow(s.value.elements, st).value.1, ev);
      RunStep(p, k, n, k1, Log(k1, ev));
      n, k1 := n + 1, Log(k1, ev);
    }
  }

  lemma SimInsert(p: Program, c: Ctx, s: Stmt, k: Conf, st: State, fuel: nat) returns (n: nat, k1: Conf)
    requires Open(c) && s.Insert? && s.value.Row? && GenStmt(c, s).Ok? && WidthsOk(s)
    requires Embeds(p, GenStmt(c, s).value.blocks) && At(k, c) && Rel(k.mem, k.out, st, c.vars)
    ensures StmtSim(p, c, GenStmt(c, s).value, k, n, k1, Exec(s, st, fuel), fuel)
  {
    hide Run, Rel, Embeds, Eval, GenExpr, LowerableExpr;
    var (c1, row) := GenRow(c, s.value.elements).value;
    RowGrows(c, s.value.elements);
    GrowsSelf(c1); AppendGrows(c1, c1, CallInsert(NameBytes(s.table), row));
    EmbedsBack(p, c1, Append(c1, CallInsert(NameBytes(s.table), row)));
    n, k1 := SimRow(p, c, s.value.elements, k, st);
    if EvalRow(s.value.elements, st).Some? {
      var ev := Inserted(NameBytes(s.table), EvalRow(s.value.elements, st).value.0);
      StepLog(p, c1, CallInsert(NameBytes(s.table), row), k1, EvalRow(s.value.elements, st).value.1, ev);
      RunStep(p, k, n, k1, Log(k1, ev));
      n, k1 := n + 1, Log(k1, ev);
    }
  }

  /** The builder contexts that `GenIf` goes through: at the branch, at the start
      and end of both arms. */
  datatype IfStages = IfStages(head: Ctx, v: Operand, thn: Ctx, thnEnd: Ctx, els: Ctx, elsEnd: Ctx)

  ghost function IfStagesOf(c: Ctx, s: Stmt): (g: IfStages)
    requires Open(c) && s.If? && GenIf(c, s).Ok?
    ensures Open(g.head) && Open(g.thn) && Open(g.thnEnd) && Open(g.els) && Open(g.elsEnd)
    ensures GenIf(c, s).value == Append(g.elsEnd, Br(|c.blocks| + 2)).(cur := |c.blocks| + 2)
  {
    var t, f, fin := |c.blocks|, |c.blocks| + 1, |c.blocks| + 2;
    var (c1, v) := GenExpr(c.(blocks := c.blocks + [[], [], []]), s.cond).value;
    var (c2, v1) := ToI1(c1, v);
    var c3 := Append(c2, CondBr(v1, t, f)).(cur := t);
    var c4 := GenSeq(c3, s.thn).value;
    var c5 := Append(c4, Br(fin)).(cur := f);
    var c6 := match s.els case NoElse => c5 case ElseBlock(ss) => GenSeq(c5, ss).value;
    IfStages(c2, v1, c3, c4, c5, c6)
  }

  lemma IfGrow(c: Ctx, s: Stmt)
    requires Open(c) && s.If? && GenIf(c, s).Ok?
    ensures var g := IfStagesOf(c, s);
            var c0 := c.(blocks := c.blocks + [[], [], []]);
            && Grows(GenExpr(c0, s.cond).value.0, g.head)
            && Grows(c0, Append(g.head, CondBr(g.v, |c.blocks|, |c.blocks| + 1)))
            && Grows(g.thn, Append(g.thnEnd, Br(|c.blocks| + 2)))
            && Grows(g.els, Append(g.elsEnd, Br(|c.blocks| + 2)))
  {
    hide GenExpr, GenSeq;
    var g := IfStagesOf(c, s);
    var c0 := c.(blocks := c.blocks + [[], [], []]);
    var (c1, v) := GenExpr(c0, s.cond).value;
    ExprGrows(c0, s.cond);
    ToI1Grows(c0, c1, v);
    AppendGrows(c0, g.head, CondBr(g.v, |c.blocks|, |c.blocks| + 1));
    SeqGrows(g.thn, s.thn);
    AppendGrows(g.thn, g.thnEnd, Br(|c.blocks| + 2));
    GrowsSelf(g.els);
    if s.els.ElseBlock? { SeqGrows(g.els, s.els.stmts); }
    AppendGrows(g.els, g.elsEnd, Br(|c.blocks| + 2));
  }

  lemma IfThenFresh(c: Ctx, s: Stmt)
    requires Open(c) && s.If? && GenIf(c, s).Ok?
    ensures var g := IfStagesOf(c, s);
            && g.thn.cur == |c.blocks| && |c.blocks| + 3 <= |g.thn.blocks| && g.thn.vars == c.vars
            && g.thn.blocks[|c.blocks|] == g.thn.blocks[|c.blocks| + 1] == g.thn.blocks[|c.blocks| + 2] == []
  {
    hide GenExpr, GenSeq, ToI1, GenIf, GenStmt;
    IfGrow(c, s);
    var g := IfStagesOf(c, s);
    var n := |c.blocks|;
    var c0 := c.(blocks := c.blocks + [[], [], []]);
    var c2 := Append(g.head, CondBr(g.v, n, n + 1));
    assert Untouched(c0, c2, n) && Untouched(c0, c2, n + 1) && Untouched(c0, c2, n + 2);
  }

  lemma IfFresh(c: Ctx, s: Stmt)
    requires Open(c) && s.If? && GenIf(c, s).Ok?
    ensures var g := IfStagesOf(c, s);
            && g.thn.cur == |c.blocks| && g.thn.blocks[|c.blocks|] == []
            && g.els.cur == |c.blocks| + 1 && g.els.blocks[|c.blocks| + 1] == []
            && At(Goto(Start(), |c.blocks| + 2), GenIf(c, s).value)
            && g.thn.vars == g.els.vars == c.vars
  {
    hide GenExpr, GenSeq, ToI1, GenIf, GenStmt;
    IfGrow(c, s); IfThenFresh(c, s);
    var g := IfStagesOf(c, s);
    var n := |c.blocks|;
    var c4 := Append(g.thnEnd, Br(n + 2));
    assert Untouched(g.thn, c4, n + 1) && Untouched(g.thn, c4, n + 2);
    assert Untouched(g.els, Append(g.elsEnd, Br(n + 2)), n + 2);
  }

  lemma IfEmbed(p: Program, c: Ctx, s: Stmt)
    requires Open(c) && s.If? && GenIf(c, s).Ok? && Embeds(p, GenIf(c, s).value.blocks)
    ensures var g := IfStagesOf(c, s);
            && Embeds(p, Append(g.elsEnd, Br(|c.blocks| + 2)).blocks) && Embeds(p, g.elsEnd.blocks)
            && Embeds(p, Append(g.thnEnd, Br(|c.blocks| + 2)).blocks) && Embeds(p, g.thnEnd.blocks)
            && Embeds(p, Append(g.head, CondBr(g.v, |c.blocks|, |c.blocks| + 1)).blocks) && Embeds(p, g.head.blocks)
            && Embeds(p, GenExpr(c.(blocks := c.blocks + [[], [], []]), s.cond).value.0.blocks)
  {
    hide GenExpr, GenSeq, Grows, Embeds;
    IfGrow(c, s);
    var g := IfStagesOf(c, s);
    var n := |c.blocks|;
    GrowsSelf(g.elsEnd); AppendGrows(g.elsEnd, g.elsEnd, Br(n + 2));
    EmbedsBack(p, g.elsEnd, Append(g.elsEnd, Br(n + 2)));
    EmbedsBack(p, g.els, Append(g.elsEnd, Br(n + 2)));
    GrowsSelf(g.thnEnd); AppendGrows(g.thnEnd, g.thnEnd, Br(n + 2));
    EmbedsBack(p, g.thnEnd, Append(g.thnEnd, Br(n + 2)));
    EmbedsBack(p, g.thn, Append(g.thnEnd, Br(n + 2)));
    GrowsSelf(g.head); AppendGrows(g.head, g.head, CondBr(g.v, n, n + 1));
    EmbedsBack(p, g.head, Append(g.head, CondBr(g.v, n, n + 1)));
    EmbedsBack(p, GenExpr(c.(blocks := c.blocks + [[], [], []]), s.cond).value.0, g.head);
  }

  /** One arm, entered at its start and left at `fin` or by a jump. */
  lemma {:induction false} SimArm(p: Program, c: Ctx, ss: seq<Stmt>, fin: nat, k: Conf, st: State, fuel: nat)
      returns (n: nat, k1: Conf)
    requires Open(c) && GenSeq(c, ss).Ok? && WidthsOkSeq(ss)
    requires Embeds(p, GenSeq(c, ss).value.blocks) && Embeds(p, Append(GenSeq(c, ss).value, Br(fin)).blocks)
    requires At(k, c) && Rel(k.mem, k.out, st, c.vars)
    ensures Run(p, k, n) == Some(k1)
    ensures match ExecSeq(ss, st, fuel)
            case Done(sig, st1) =>
              && (if sig.Normal? then AtStart(k1, fin) else Arrives(k1, c, c, sig))
              && Rel(k1.mem, k1.out, st1, c.vars)
            case Stuck => Faulted(p, k1)
            case Timeout => n >= fuel
    decreases fuel, ss, 1
  {
    hide Run, Rel, Embeds, GenSeq, ExecSeq, WidthsOkSeq;
    var c1 := GenSeq(c, ss).value;
    n, k1 := SimSeq(p, c, ss, k, st, fuel);
    var r := ExecSeq(ss, st, fuel);
    if r.Done? && r.sig.Normal? {
      StepBr(p, c1, fin, k1);
      RunStep(p, k, n, k1, Goto(k1, fin));
      n, k1 := n + 1, Goto(k1, fin);
    }
  }

  lemma {:induction false} SimIf(p: Program, c: Ctx, s: Stmt, k: Conf, st: State, fuel: nat) returns (n: nat, k1: Conf)
    requires Open(c) && s.If? && GenIf(c, s).Ok? && WidthsOk(s)
    requires Embeds(p, GenIf(c, s).value.blocks) && At(k, c) && Rel(k.mem, k.out, st, c.vars)
    ensures StmtSim(p, c, GenIf(c, s).value, k, n, k1, Exec(s, st, fuel), fuel)
    decreases fuel, s, 2
  {
    hide Run, Rel, Embeds, Eval, GenExpr, LowerableExpr, GenSeq, ExecSeq, WidthsOkSeq;
    IfEmbed(p, c, s); IfFresh(c, s);
    var g := IfStagesOf(c, s);
    n, k1 := SimTruth(p, c.(blocks := c.blocks + [[], [], []]), s.cond, k, st);
    if Eval(s.cond, st).Some? {
      var (x, st1) := Eval(s.cond, st).value;
      var t := Truth(x).value;
      NextInstr(p, g.head, CondBr(g.v, |c.blocks|, |c.blocks| + 1), k1);
      var k2 := Goto(k1, if t then |c.blocks| else |c.blocks| + 1);
      RunStep(p, k, n, k1, k2);
      n, k1 := n + 1, k2;
      if t {
        var m, k3 := SimArm(p, g.thn, s.thn, |c.blocks| + 2, k2, st1, fuel);
        RunThen(p, k, n, k2, m, k3);
        n, k1 := n + m, k3;
      } else if s.els.ElseBlock? {
        var m, k3 := SimArm(p, g.els, s.els.stmts, |c.blocks| + 2, k2, st1, fuel);
        RunThen(p, k, n, k2, m, k3);
        n, k1 := n + m, k3;
      } else {
        StepBr(p, g.els, |c.blocks| + 2, k2);
        RunStep(p, k, n, k2, Goto(k2, |c.blocks| + 2));
        n, k1 := n + 1, Goto(k2, |c.blocks| + 2);
      }
    }
  }

  /** The builder contexts that `GenLoop` goes through. */
  datatype LoopStages = LoopStages(begin: Ctx, test: Ctx, body: Ctx, bodyEnd: Ctx, every: Ctx, everyEnd: Ctx)

  ghost function LoopStagesOf(c: Ctx, s: Stmt): (g: LoopStages)
    requires Open(c) && s.For? && GenLoop(c, s).Ok?
    ensures Open(g.begin) && Open(g.test) && Open(g.body) && Open(g.bodyEnd) && Open(g.every) && Open(g.everyEnd)
    ensures g.begin.loops == g.body.loops && |g.body.loops| > 0
            && g.body.loops[0] == LoopBlocks(|c.blocks|, |c.blocks| + 1, |c.blocks| + 2, |c.blocks| + 3)
    ensures GenLoop(c, s).value.blocks == Append(g.everyEnd, Br(|c.blocks|)).blocks
    ensures GenLoop(c, s).value.cur == |c.blocks| + 3
  {
    var c1 := EnterLoop(c);
    var loop := c1.loops[0];
    var c2 := GenTest(c1, loop, s.test).value;
    var c3 := GenSeq(c2.(cur := loop.body), s.body).value;
    var c4 := Append(c3, Br(loop.every)).(cur := loop.every);
    LoopStages(c1, c2, c2.(cur := loop.body), c3, c4, GenEvery(c4, s.every).value)
  }

  lemma LoopGrow(c: Ctx, s: Stmt)
    requires Open(c) && s.For? && GenLoop(c, s).Ok?
    ensures var g := LoopStagesOf(c, s);
            && Grows(g.begin, g.test)
            && Grows(g.body, g.bodyEnd) && Grows(g.body, Append(g.bodyEnd, Br(|c.blocks| + 2)))
            && Grows(g.every, g.everyEnd) && Grows(g.every, Append(g.everyEnd, Br(|c.blocks|)))
  {
    hide GenExpr, GenSeq;
    var g := LoopStagesOf(c, s);
    TestGrows(g.begin, g.begin.loops[0], s.test);
    SeqGrows(g.body, s.body);
    AppendGrows(g.body, g.bodyEnd, Br(|c.blocks| + 2));
    EveryGrows(g.every, s.every);
    AppendGrows(g.every, g.everyEnd, Br(|c.blocks|));
  }

  lemma LoopFresh(c: Ctx, s: Stmt)
    requires Open(c) && s.For? && GenLoop(c, s).Ok?
    ensures var g := LoopStagesOf(c, s);
            && g.begin.cur == |c.blocks| && g.begin.blocks[|c.blocks|] == []
            && g.body.cur == |c.blocks| + 1 && g.body.blocks[|c.blocks| + 1] == []
            && g.every.cur == |c.blocks| + 2 && g.every.blocks[|c.blocks| + 2] == []
            && At(Goto(Start(), |c.blocks| + 3), GenLoop(c, s).value)
            && g.begin.vars == g.body.vars == g.every.vars == c.vars
  {
    hide GenExpr, GenSeq, GenTest, GenEvery;
    hide Grows, GenLoop, LoopStagesOf, EnterLoop;
    LoopStagesAre(c, s);
    LoopGrow(c, s);
    var g := LoopStagesOf(c, s);
    var n := |c.blocks|;
    EnterFresh(c);
    StaysEmpty(g.begin, g.test, n + 1);
    StaysEmpty(g.begin, g.test, n + 2);
    StaysEmpty(g.begin, g.test, n + 3);
    StaysEmpty(g.body, Append(g.bodyEnd, Br(n + 2)), n + 2);
    StaysEmpty(g.body, Append(g.bodyEnd, Br(n + 2)), n + 3);
    StaysEmpty(g.every, Append(g.everyEnd, Br(n)), n + 3);
    GrowsVars(g.begin, g.test);
    GrowsVars(g.body, g.bodyEnd);
  }

  /** What the stages are. */
  lemma LoopStagesAre(c: Ctx, s: Stmt)
    requires Open(c) && s.For? && GenLoop(c, s).Ok?
    ensures var g, n := LoopStagesOf(c, s), |c.blocks|;
            && g.begin == EnterLoop(c) && g.body == g.test.(cur := n + 1)
            && g.every == Append(g.bodyEnd, Br(n + 2)).(cur := n + 2)
  {
    hide GenExpr, GenSeq, GenTest, GenEvery;
  }

  lemma EnterFresh(c: Ctx)
    requires Open(c)
    ensures var c1, n := EnterLoop(c), |c.blocks|;
            c1.cur == n && c1.vars == c.vars
                && c1.blocks[n] == c1.blocks[n + 1] == c1.blocks[n + 2] == c1.blocks[n + 3] == []
  {
  }

  lemma StaysEmpty(c: Ctx, c1: Ctx, b: nat)
    requires Grows(c, c1) && b < |c.blocks| && b != c.cur && c.blocks[b] == []
    ensures b < |c1.blocks| && c1.blocks[b] == []
  {
    assert Untouched(c, c1, b);
  }

  lemma GrowsVars(c: Ctx, c1: Ctx)
    requires Grows(c, c1)
    ensures c1.vars == c.vars
  {
  }

  lemma LoopEmbed(p: Program, c: Ctx, s: Stmt)
    requires Open(c) && s.For? && GenLoop(c, s).Ok? && Embeds(p, GenLoop(c, s).value.blocks)
    ensures var g := LoopStagesOf(c, s);
            && Embeds(p, Append(g.everyEnd, Br(|c.blocks|)).blocks) && Embeds(p, g.everyEnd.blocks)
            && Embeds(p, Append(g.bodyEnd, Br(|c.blocks| + 2)).blocks) && Embeds(p, g.bodyEnd.blocks)
            && Embeds(p, g.test.blocks) && Embeds(p, g.begin.blocks)
  {
    hide GenExpr, GenSeq, GenTest, GenEvery, Grows, Embeds;
    LoopGrow(c, s);
    var g := LoopStagesOf(c, s);
    var n := |c.blocks|;
    GrowsSelf(g.everyEnd); AppendGrows(g.everyEnd, g.everyEnd, Br(n));
    EmbedsBack(p, g.everyEnd, Append(g.everyEnd, Br(n)));
    EmbedsBack(p, g.every, g.everyEnd);
    GrowsSelf(g.bodyEnd); AppendGrows(g.bodyEnd, g.bodyEnd, Br(n + 2));
    EmbedsBack(p, g.bodyEnd, Append(g.bodyEnd, Br(n + 2)));
    EmbedsBack(p, g.body, g.bodyEnd);
    EmbedsBack(p, g.begin, g.test);
  }

  /** The condition and the branch it controls. */
  lemma {:induction false} SimTest(p: Program, c: Ctx, loop: LoopBlocks, e: Expr, k: Conf, st: State)
      returns (n: nat, k1: Conf)
    requires Open(c) && GenTest(c, loop, JustExpr(e)).Ok? && LowerableExpr(e) && KindOf(e) == BoolKind
    requires Embeds(p, GenTest(c, loop, JustExpr(e)).value.blocks) && At(k, c) && Rel(k.mem, k.out, st, c.vars)
    ensures Run(p, k, n) == Some(k1)
    ensures EvalTest(JustExpr(e), st).None? ==> Faulted(p, k1)
    ensures EvalTest(JustExpr(e), st).Some? ==>
              var (b, st1) := EvalTest(JustExpr(e), st).value;
              n >= 1 && AtStart(k1, if b then loop.body else loop.finish) && Rel(k1.mem, k1.out, st1, c.vars)
  {
    hide Run, Rel, Embeds, Eval, GenExpr, LowerableExpr;
    var (c1, v) := GenExpr(c, e).value;
    ExprGrows(c, e); ExprShape(c, e);
    GrowsSelf(c1); AppendGrows(c1, c1, CondBr(v, loop.body, loop.finish));
    EmbedsBack(p, c1, Append(c1, CondBr(v, loop.body, loop.finish)));
    n, k1 := SimExpr(p, c, e, k, st);
    if Eval(e, st).Some? {
      NextInstr(p, c1, CondBr(v, loop.body, loop.finish), k1);
      var k2 := Goto(k1, if Eval(e, st).value.0.b then loop.body else loop.finish);
      RunStep(p, k, n, k1, k2);
      n, k1 := n + 1, k2;
    }
  }

  /** The step expression and the jump back. */
  lemma {:induction false} SimEvery(p: Program, c: Ctx, every: MaybeExpr, begin: nat, k: Conf, st: State)
      returns (n: nat, k1: Conf)
    requires Open(c) && GenEvery(c, every).Ok? && (every.JustExpr? ==> LowerableExpr(every.e))
    requires Embeds(p, GenEvery(c, every).value.blocks) && Embeds(p, Append(GenEvery(c, every).value, Br(begin)).blocks)
    requires At(k, c) && Rel(k.mem, k.out, st, c.vars)
    ensures Run(p, k, n) == Some(k1)
    ensures EvalEvery(every, st).None? ==> Faulted(p, k1)
    ensures EvalEvery(every, st).Some? ==>
              n >= 1 && AtStart(k1, begin) && Rel(k1.mem, k1.out, EvalEvery(every, st).value, c.vars)
  {
    hide Run, Rel, Embeds, Eval, GenExpr, LowerableExpr;
    RunZero(p, k);
    n, k1 := 0, k;
    if every.JustExpr? { n, k1 := SimExpr(p, c, every.e, k, st); }
    if EvalEvery(every, st).Some? {
      StepBr(p, GenEvery(c, every).value, begin, k1);
      RunStep(p, k, n, k1, Goto(k1, begin));
      n, k1 := n + 1, Goto(k1, begin);
    }
  }

  /** One iteration at least costs one step, so running out of `fuel`
      iterations means `fuel` machine steps. */
  lemma {:induction false} SimLoop(p: Program, c: Ctx, s: Stmt, k: Conf, st: State, fuel: nat)
      returns (n: nat, k1: Conf)
    requires Open(c) && s.For? && GenLoop(c, s).Ok? && WidthsOk(s)
    requires Embeds(p, GenLoop(c, s).value.blocks) && AtStart(k, |c.blocks|) && Rel(k.mem, k.out, st, c.vars)
    ensures StmtSim(p, c, GenLoop(c, s).value, k, n, k1, Loop(s, st, fuel), fuel)
    decreases fuel, s, 0
  {
    hide Run, Rel, Embeds, Eval, GenExpr, LowerableExpr, GenSeq, ExecSeq, WidthsOkSeq, EvalTest, EvalEvery, GenTest,
         GenEvery;
    RunZero(p, k);
    n, k1 := 0, k;
    if fuel > 0 {
      LoopEmbed(p, c, s); LoopFresh(c, s);
      var g := LoopStagesOf(c, s);
      n, k1 := SimTest(p, g.begin, g.begin.loops[0], s.test.e, k, st);
      if EvalTest(s.test, st).Some? && EvalTest(s.test, st).value.0 {
        var m, k2 := SimIteration(p, c, s, k1, EvalTest(s.test, st).value.1, fuel);
        RunThen(p, k, n, k1, m, k2);
        n, k1 := n + m, k2;
      }
    }
  }

  /** The body, the step expression and the rest of the loop. */
  lemma {:induction false} SimIteration(p: Program, c: Ctx, s: Stmt, k: Conf, st: State, fuel: nat)
      returns (n: nat, k1: Conf)
    requires Open(c) && s.For? && GenLoop(c, s).Ok? && WidthsOk(s) && fuel > 0
    requires Embeds(p, GenLoop(c, s).value.blocks) && AtStart(k, |c.blocks| + 1) && Rel(k.mem, k.out, st, c.vars)
    ensures Run(p, k, n) == Some(k1)
    ensures match ExecSeq(s.body, st, fuel - 1)
            case Done(sig, st1) =>
              if sig.Broke? then At(k1, GenLoop(c, s).value) && Rel(k1.mem, k1.out, st1, c.vars)
              else if EvalEvery(s.every, st1).None? then Faulted(p, k1)
              else StmtSim(p, c, GenLoop(c, s).value, k, n, k1, Loop(s, EvalEvery(s.every, st1).value, fuel - 1), fuel)
            case Stuck => Faulted(p, k1)
            case Timeout => n >= fuel - 1
    decreases fuel - 1, s, 1
  {
    hide Run, Rel, Embeds, GenSeq, ExecSeq, WidthsOkSeq, EvalEvery, GenTest, GenEvery, LowerableExpr;
    LoopEmbed(p, c, s); LoopFresh(c, s);
    var g := LoopStagesOf(c, s);
    n, k1 := SimArm(p, g.body, s.body, |c.blocks| + 2, k, st, fuel - 1);
    var r := ExecSeq(s.body, st, fuel - 1);
    if r.Done? && !r.sig.Broke? {
      var m, k2 := SimEvery(p, g.every, s.every, |c.blocks|, k1, r.st);
      RunThen(p, k, n, k1, m, k2);
      n, k1 := n + m, k2;
      if EvalEvery(s.every, r.st).Some? {
        var l, k3 := SimLoop(p, c, s, k2, EvalEvery(s.every, r.st).value, fuel - 1);
        RunThen(p, k, n, k2, l, k3);
        n, k1 := n + l, k3;
      }
    }
  }

  lemma {:induction false} SimFor(p: Program, c: Ctx, s: Stmt, k: Conf, st: State, fuel: nat) returns (n: nat, k1: Conf)
    requires Open(c) && s.For? && GenStmt(c, s).Ok? && WidthsOk(s)
    requires Embeds(p, GenStmt(c, s).value.blocks) && At(k, c) && Rel(k.mem, k.out, st, c.vars)
    ensures StmtSim(p, c, GenStmt(c, s).value, k, n, k1, Exec(s, st, fuel), fuel)
    decreases fuel, s, 2
  {
    hide Run, Rel, Embeds, GenSeq, ExecSeq, WidthsOkSeq, LowerableExpr, Loop, GenLoop;
    var c1 := match s.init case NoStmt => c case JustStmt(s0) => GenStmt(c, s0).value;
    LoopGrows(c1, s);
    EmbedsBack(p, c1, GenLoop(c1, s).value);
    RunZero(p, k);
    n, k1 := 0, k;
    var r := Done(Normal, st);
    if s.init.JustStmt? {
      StmtGrows(c, s.init.s);
      n, k1 := SimStmt(p, c, s.init.s, k, st, fuel);
      r := Exec(s.init.s, st, fuel);
    }
    if r.Done? && r.sig.Normal? {
      var m, k2 := SimEnter(p, c1, s, k1, r.st, fuel);
      RunThen(p, k, n, k1, m, k2);
      n, k1 := n + m, k2;
    }
  }

  lemma {:induction false} SimEnter(p: Program, c: Ctx, s: Stmt, k: Conf, st: State, fuel: nat)
      returns (n: nat, k1: Conf)
    requires Open(c) && s.For? && GenLoop(c, s).Ok? && WidthsOk(s)
    requires Embeds(p, GenLoop(c, s).value.blocks) && At(k, c) && Rel(k.mem, k.out, st, c.vars)
    ensures StmtSim(p, c, GenLoop(c, s).value, k, n, k1, Loop(s, st, fuel), fuel)
    decreases fuel, s, 1
  {
    hide Run, Rel, Embeds, GenSeq, WidthsOk, Loop, GenTest, GenEvery;
    LoopEmbed(p, c, s);
    var c0 := c.(blocks := c.blocks + [[], [], [], []], loops := EnterLoop(c).loops);
    StepBr(p, c0, |c.blocks|, k);
    RunZero(p, k);
    RunStep(p, k, 0, k, Goto(k, |c.blocks|));
    n, k1 := SimLoop(p, c, s, Goto(k, |c.blocks|), st, fuel);
    RunThen(p, k, 1, Goto(k, |c.blocks|), n, k1);
    n := n + 1;
  }
}
