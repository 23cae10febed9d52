/** The emitted blocks run exactly as the source program means: each completed
    evaluation reaches the end of the emitted code with the same variables and
    events, each fault faults, and each loop iteration takes a step. */
module Simulation {
  import opened Ast
  import opened Values
  import opened Machine
  import opened Semantics
  import opened Codegen
  import opened Growth
  import opened Lowerable

  /** The final program contains all blocks emitted so far. */
  ghost predicate Embeds(p: Program, blocks: Program) {
    && |blocks| <= |p|
    && forall b: nat :: b < |blocks| ==> BlockIn(p, blocks, b)
  }

  ghost predicate BlockIn(p: Program, blocks: Program, b: nat) {
    b < |blocks| && b < |p| && blocks[b] <= p[b]
  }

  /** Control is where `c` would append next. */
  ghost predicate At(k: Conf, c: Ctx) {
    Open(c) && k.blk == c.cur && k.idx == |c.blocks[c.cur]|
  }

  ghost predicate AtStart(k: Conf, b: nat) { k.blk == b && k.idx == 0 }

  ghost predicate Injective(vars: map<string, nat>) {
    forall x, y :: x in vars && y in vars && vars[x] == vars[y] ==> x == y
  }

  /** Slots hold exactly the assigned variables, and the events agree. */
  ghost predicate Rel(mem: map<nat, int>, out: seq<Event>, st: State, vars: map<string, nat>) {
    && st.rows.Twice?
    && Injective(vars)
    && st.vars.Keys <= vars.Keys
    && (forall x :: x in vars ==> SlotAgrees(mem, st, vars, x))
    && out == st.out
  }

  ghost predicate SlotAgrees(mem: map<nat, int>, st: State, vars: map<string, nat>, x: string)
    requires x in vars
  {
    if x in st.vars then vars[x] in mem && st.vars[x] == IntVal(mem[vars[x]]) else vars[x] !in mem
  }

  ghost predicate SameRegs(k: Conf, k1: Conf, n: nat) {
    forall i: nat :: i < n && i in k.regs ==> i in k1.regs && k1.regs[i] == k.regs[i]
  }

  lemma EmbedsBack(p: Program, c: Ctx, c1: Ctx)
    requires Grows(c, c1) && Embeds(p, c1.blocks)
    ensures Embeds(p, c.blocks)
  {
    forall b: nat | b < |c.blocks|
      ensures BlockIn(p, c.blocks, b)
    {
      assert BlockIn(p, c1.blocks, b);
      if b != c.cur { assert Untouched(c, c1, b); }
    }
  }

  lemma NextInstr(p: Program, c: Ctx, i: Instr, k: Conf)
    requires Open(c) && Embeds(p, Append(c, i).blocks) && At(k, c)
    ensures InCode(p, k) && p[k.blk][k.idx] == i
  {
    assert BlockIn(p, Append(c, i).blocks, c.cur);
  }

  lemma SetVar(mem: map<nat, int>, st: State, vars: map<string, nat>, x: string, n: int)
    requires Rel(mem, st.out, st, vars) && x in vars
    ensures Rel(mem[vars[x] := n], st.out, st.(vars := st.vars[x := IntVal(n)]), vars)
  {
    forall y | y in vars
      ensures SlotAgrees(mem[vars[x] := n], st.(vars := st.vars[x := IntVal(n)]), vars, y)
    {
      assert SlotAgrees(mem, st, vars, y);
    }
  }

  lemma LogEvent(mem: map<nat, int>, st: State, vars: map<string, nat>, ev: Event)
    requires Rel(mem, st.out, st, vars)
    ensures Rel(mem, st.out + [ev], st.(out := st.out + [ev]), vars)
  {
    forall y | y in vars
      ensures SlotAgrees(mem, st.(out := st.out + [ev]), vars, y)
    {
      assert SlotAgrees(mem, st, vars, y);
    }
  }

  lemma RelOut(mem: map<nat, int>, out: seq<Event>, st: State, vars: map<string, nat>)
    requires Rel(mem, out, st, vars)
    ensures out == st.out
  {
  }

  /** Evaluation of one expression: what `GenExpr(c, e) == (c1, o)` must make of
      the source result `r`. */
  ghost predicate ExprSim(p: Program, c: Ctx, c1: Ctx, o: Operand, k: Conf, n: nat, k1: Conf,
      r: Option<(Value, State)>) {
    && Run(p, k, n) == Some(k1)
    && match r
       case None => Faulted(p, k1)
       case Some((v, st1)) =>
         && At(k1, c1) && Rel(k1.mem, k1.out, st1, c.vars) && SameRegs(k, k1, c.next)
         && (o.NoValue? || Read(o, k1.regs) == Some(v))
  }

  lemma {:induction false} SimExpr(p: Program, c: Ctx, e: Expr, k: Conf, st: State) returns (n: nat, k1: Conf)
    requires Open(c) && GenExpr(c, e).Ok? && LowerableExpr(e)
    requires Embeds(p, GenExpr(c, e).value.0.blocks) && At(k, c) && Rel(k.mem, k.out, st, c.vars)
    ensures ExprSim(p, c, GenExpr(c, e).value.0, GenExpr(c, e).value.1, k, n, k1, Eval(e, st))
    decreases e, 2
  {
    match e
    case Num(m) => n, k1 := 0, k;
    case Var(x) =>
      n, k1 := SimVar(p, c, x, k, st);
    case Binary(op, l, r) =>
      if op.IsCond() {
        n, k1 := SimCond(p, c, e, k, st);
      } else {
        n, k1 := SimStrict(p, c, e, k, st);
      }
    case Assign(Var(x), e1) => n, k1 := SimAssign(p, c, e, k, st);
    case Call(Var(f), args) => n, k1 := SimPrint(p, c, e, k, st);
  }

  lemma SimVar(p: Program, c: Ctx, x: string, k: Conf, st: State) returns (n: nat, k1: Conf)
    requires Open(c) && GenExpr(c, Var(x)).Ok?
    requires Embeds(p, GenExpr(c, Var(x)).value.0.blocks) && At(k, c) && Rel(k.mem, k.out, st, c.vars)
    ensures ExprSim(p, c, GenExpr(c, Var(x)).value.0, GenExpr(c, Var(x)).value.1, k, n, k1, Eval(Var(x), st))
  {
    var i := Load(c.next, c.vars[x]);
    NextInstr(p, c, i, k);
    if x in st.vars {
      n, k1 := 1, SetReg(k, c.next, st.vars[x]);
      RunStep(p, k, 0, k, k1);
    } else {
      n, k1 := 0, k;
    }
  }

  /** Both operands of a strict operator, left then right. */
  lemma {:induction false} SimOperands(p: Program, c: Ctx, e: Expr, k: Conf, st: State) returns (n: nat, k1: Conf)
    requires Open(c) && e.Binary? && GenExpr(c, e.lhs).Ok? && GenExpr(GenExpr(c, e.lhs).value.0, e.rhs).Ok?
    requires LowerableExpr(e.lhs) && LowerableExpr(e.rhs) && KindOf(e.lhs) != UnitKind && KindOf(e.rhs) != UnitKind
    requires Embeds(p, GenExpr(GenExpr(c, e.lhs).value.0, e.rhs).value.0.blocks) && At(k, c)
             && Rel(k.mem, k.out, st, c.vars)
    ensures Run(p, k, n) == Some(k1)
    ensures Eval(e.lhs, st).None? || Eval(e.rhs, Eval(e.lhs, st).value.1).None? ==> Faulted(p, k1)
    ensures Eval(e.lhs, st).Some? && Eval(e.rhs, Eval(e.lhs, st).value.1).Some? ==>
              var (x, st1) := Eval(e.lhs, st).value;
              var (y, st2) := Eval(e.rhs, st1).value;
              var (c1, a) := GenExpr(c, e.lhs).value;
              var (c2, b) := GenExpr(c1, e.rhs).value;
              && At(k1, c2) && Rel(k1.mem, k1.out, st2, c.vars) && SameRegs(k, k1, c.next)
              && Read(a, k1.regs) == Some(x) && Read(b, k1.regs) == Some(y)
    decreases e, 0
  {
    hide Run, Rel, Embeds, Operate, LowerableExpr, GenExpr, Eval, KindOf;
    var (c1, a) := GenExpr(c, e.lhs).value;
    ExprGrows(c, e.lhs); ExprGrows(c1, e.rhs);
    ExprShape(c, e.lhs); ExprShape(c1, e.rhs);
    EmbedsBack(p, c1, GenExpr(c1, e.rhs).value.0);
    n, k1 := SimExpr(p, c, e.lhs, k, st);
    if Eval(e.lhs, st).Some? {
      var n2, k2 := SimExpr(p, c1, e.rhs, k1, Eval(e.lhs, st).value.1);
      RunThen(p, k, n, k1, n2, k2);
      n, k1 := n + n2, k2;
    }
  }

  /** One instruction that defines value number `c.next`. */
  lemma StepDef(p: Program, c: Ctx, i: Instr, k: Conf, v: Value)
    requires Open(c) && Embeds(p, Append(c, i).blocks) && At(k, c)
    requires Execute(i, k) == Some(SetReg(k, c.next, v))
    ensures Step(p, k) == Some(SetReg(k, c.next, v))
    ensures At(SetReg(k, c.next, v), AppendDef(c, i)) && SameRegs(k, SetReg(k, c.next, v), c.next)
  {
    NextInstr(p, c, i, k);
  }

  /** The code and the meaning of a strict operator. */
  lemma StrictUnfolds(c: Ctx, e: Expr, st: State)
    requires Open(c) && e.Binary? && !e.op.IsCond() && GenExpr(c, e).Ok? && LowerableExpr(e)
    ensures GenExpr(c, e.lhs).Ok? && GenExpr(GenExpr(c, e.lhs).value.0, e.rhs).Ok?
    ensures var (c1, a) := GenExpr(c, e.lhs).value;
            var (c2, b) := GenExpr(c1, e.rhs).value;
            GenExpr(c, e).value == (AppendDef(c2, Bin(c2.next, e.op, a, b)),
                Reg(c2.next, if e.op.IsArith() then W64 else W1))
    ensures LowerableExpr(e.lhs) && LowerableExpr(e.rhs) && KindOf(e.lhs) != UnitKind && KindOf(e.rhs) != UnitKind
    ensures Eval(e.lhs, st).None? || Eval(e.rhs, Eval(e.lhs, st).value.1).None? ==> Eval(e, st).None?
    ensures Eval(e.lhs, st).Some? && Eval(e.rhs, Eval(e.lhs, st).value.1).Some? ==>
              var (x, st1) := Eval(e.lhs, st).value;
              var (y, st2) := Eval(e.rhs, st1).value;
              Eval(e, st) == if Operate(e.op, x, y).None? then None else Some((Operate(e.op, x, y).value, st2))
  {
    hide Operate;
  }

  lemma OperateWidth(op: BinOp, x: Value, y: Value)
    requires !op.IsCond() && Operate(op, x, y).Some?
    ensures HasWidth(Operate(op, x, y).value, if op.IsArith() then W64 else W1)
  {
  }

  lemma {:induction false} SimStrict(p: Program, c: Ctx, e: Expr, k: Conf, st: State) returns (n: nat, k1: Conf)
    requires Open(c) && e.Binary? && !e.op.IsCond() && GenExpr(c, e).Ok? && LowerableExpr(e)
    requires Embeds(p, GenExpr(c, e).value.0.blocks) && At(k, c) && Rel(k.mem, k.out, st, c.vars)
    ensures ExprSim(p, c, GenExpr(c, e).value.0, GenExpr(c, e).value.1, k, n, k1, Eval(e, st))
    decreases e, 1
  {
    hide Run, Rel, Embeds, GenExpr, Eval, LowerableExpr, KindOf, Operate;
    StrictUnfolds(c, e, st);
    var (c1, a) := GenExpr(c, e.lhs).value;
    var (c2, b) := GenExpr(c1, e.rhs).value;
    var i := Bin(c2.next, e.op, a, b);
    GrowsSelf(c2); AppendGrows(c2, c2, i);
    EmbedsBack(p, c2, AppendDef(c2, i));
    ExprGrows(c, e.lhs); ExprGrows(c1, e.rhs);
    n, k1 := SimOperands(p, c, e, k, st);
    if Eval(e.lhs, st).Some? && Eval(e.rhs, Eval(e.lhs, st).value.1).Some? {
      var (x, st1) := Eval(e.lhs, st).value;
      var (y, st2) := Eval(e.rhs, st1).value;
      NextInstr(p, c2, i, k1);
      if Operate(e.op, x, y).Some? {
        var z := Operate(e.op, x, y).value;
        OperateWidth(e.op, x, y);
        StepDef(p, c2, i, k1, z);
        RunStep(p, k, n, k1, SetReg(k1, c2.next, z));
        n, k1 := n + 1, SetReg(k1, c2.next, z);
      }
    }
  }

  /** A store of an integer operand into the slot of `x`. */
  lemma StepStore(p: Program, c: Ctx, v: Operand, x: string, k: Conf, st: State, n: int) returns (k1: Conf)
    requires Open(c) && x in c.vars && Embeds(p, Append(c, Store(v, c.vars[x])).blocks)
    requires At(k, c) && Rel(k.mem, k.out, st, c.vars) && Read(v, k.regs) == Some(IntVal(n))
    ensures Step(p, k) == Some(k1) && At(k1, Append(c, Store(v, c.vars[x]))) && k1.regs == k.regs
    ensures c.vars[x] in k1.mem && k1.mem[c.vars[x]] == n
    ensures Rel(k1.mem, k1.out, st.(vars := st.vars[x := IntVal(n)]), c.vars)
  {
    NextInstr(p, c, Store(v, c.vars[x]), k);
    SetVar(k.mem, st, c.vars, x, n);
    k1 := k.(idx := k.idx + 1, mem := k.mem[c.vars[x] := n]);
  }

  /** The code and the meaning of an assignment. */
  lemma AssignUnfolds(c: Ctx, e: Expr, st: State)
    requires Open(c) && e.Assign? && e.target.Var? && GenExpr(c, e).Ok? && LowerableExpr(e)
    ensures e.target.name in c.vars && GenExpr(c, e.value).Ok? && LowerableExpr(e.value) && KindOf(e.value) == IntKind
    ensures var (c1, v) := GenExpr(c, e.value).value;
            var slot := c.vars[e.target.name];
            var c2 := Append(c1, Store(v, slot));
            GenExpr(c, e).value == (AppendDef(c2, Load(c2.next, slot)), Reg(c2.next, W64))
    ensures Eval(e.value, st).None? ==> Eval(e, st).None?
    ensures Eval(e.value, st).Some? && Eval(e.value, st).value.0.IntVal? ==>
              var (y, st1) := Eval(e.value, st).value;
              Eval(e, st) == Some((y, st1.(vars := st1.vars[e.target.name := y])))
  {
  }

  /** An operand of integer kind reads as an integer. */
  lemma ReadsInt(o: Operand, regs: map<nat, Value>)
    requires OperandKind(o) == IntKind && Read(o, regs).Some?
    ensures Read(o, regs).value.IntVal? && !o.NoValue?
  {
  }

  lemma {:induction false} SimAssign(p: Program, c: Ctx, e: Expr, k: Conf, st: State) returns (n: nat, k1: Conf)
    requires Open(c) && e.Assign? && e.target.Var? && GenExpr(c, e).Ok? && LowerableExpr(e)
    requires Embeds(p, GenExpr(c, e).value.0.blocks) && At(k, c) && Rel(k.mem, k.out, st, c.vars)
    ensures ExprSim(p, c, GenExpr(c, e).value.0, GenExpr(c, e).value.1, k, n, k1, Eval(e, st))
    decreases e, 1
  {
    hide Run, Rel, Operate, Embeds, GenExpr, Eval, LowerableExpr, KindOf;
    AssignUnfolds(c, e, st);
    var x := e.target.name;
    var (c1, v) := GenExpr(c, e.value).value;
    ExprGrows(c, e.value); ExprShape(c, e.value);
    var c2 := Append(c1, Store(v, c.vars[x]));
    var i := Load(c2.next, c.vars[x]);
    GrowsSelf(c2); AppendGrows(c2, c2, i);
    EmbedsBack(p, c2, AppendDef(c2, i));
    GrowsSelf(c1); AppendGrows(c1, c1, Store(v, c.vars[x]));
    EmbedsBack(p, c1, c2);
    n, k1 := SimExpr(p, c, e.value, k, st);
    if Eval(e.value, st).Some? {
      var (y, st1) := Eval(e.value, st).value;
      ReadsInt(v, k1.regs);
      var k2 := StepStore(p, c1, v, x, k1, st1, y.n);
      RunStep(p, k, n, k1, k2);
      StepDef(p, c2, i, k2, y);
      RunStep(p, k, n + 1, k2, SetReg(k2, c2.next, y));
      n, k1 := n + 2, SetReg(k2, c2.next, y);
    }
  }

  lemma {:induction false} SimPrint(p: Program, c: Ctx, e: Expr, k: Conf, st: State) returns (n: nat, k1: Conf)
    requires Open(c) && e.Call? && e.callee.Var? && GenExpr(c, e).Ok? && LowerableExpr(e)
    requires Embeds(p, GenExpr(c, e).value.0.blocks) && At(k, c) && Rel(k.mem, k.out, st, c.vars)
    ensures ExprSim(p, c, GenExpr(c, e).value.0, GenExpr(c, e).value.1, k, n, k1, Eval(e, st))
    decreases e, 1
  {
    hide Run, Rel, Operate, Embeds;
    var (c1, v) := GenExpr(c, e.args[0]).value;
    ExprGrows(c, e.args[0]); ExprShape(c, e.args[0]);
    AppendGrows(c1, c1, CallPrint([v]));
    EmbedsBack(p, c1, Append(c1, CallPrint([v])));
    n, k1 := SimExpr(p, c, e.args[0], k, st);
    if Eval(e.args[0], st).Some? {
      var (x, st1) := Eval(e.args[0], st).value;
      NextInstr(p, c1, CallPrint([v]), k1);
      assert ReadInts([v], k1.regs) == Some([x.n] + []);
      var k2 := Log(k1, Printed(x.n));
      RelOut(k1.mem, k1.out, st1, c.vars);
      LogEvent(k1.mem, st1, c.vars, Printed(x.n));
      RunStep(p, k, n, k1, k2);
      n, k1 := n + 1, k2;
    }
  }

  /** Conversion to one bit computes the truth value. */
  lemma SimToI1(p: Program, c: Ctx, o: Operand, k: Conf, st: State, v: Value) returns (n: nat, k1: Conf)
    requires Open(c) && Embeds(p, ToI1(c, o).0.blocks) && At(k, c) && Rel(k.mem, k.out, st, c.vars)
    requires Read(o, k.regs) == Some(v) && Below(o, c.next)
    ensures Truth(v).Some?
    ensures var (c1, o1) := ToI1(c, o);
            && Run(p, k, n) == Some(k1) && At(k1, c1) && Rel(k1.mem, k1.out, st, c.vars) && SameRegs(k, k1, c.next)
            && Read(o1, k1.regs) == Some(BoolVal(Truth(v).value)) && Below(o1, c1.next) && o1.Reg?
            && k1.blk == k.blk
  {
    if o.Reg? && o.width.W1? {
      n, k1 := 0, k;
    } else {
      var i := Bin(c.next, NotEqual, o, Imm(0));
      NextInstr(p, c, i, k);
      n, k1 := 1, SetReg(k, c.next, BoolVal(v.n != 0));
      RunStep(p, k, 0, k, k1);
    }
  }

  /** The builder contexts that `GenCond` goes through: before the branch, at the
      start of the right operand, after it, and at the start of `fin`. */
  datatype CondStages = CondStages(left: Ctx, a: Operand, br: Instr, right: Ctx, rightEnd: Ctx, b: Operand, fin: Ctx)

  ghost function StagesOf(c: Ctx, e: Expr): (g: CondStages)
    requires Open(c) && e.Binary? && GenCond(c, e).Ok?
    ensures Open(g.left) && Open(g.right) && Open(g.rightEnd) && Open(g.fin)
    ensures GenCond(c, e).value ==
            (AppendDef(g.fin, Phi(g.fin.next, g.a, g.left.cur, g.b, g.rightEnd.cur)), Reg(g.fin.next, W1))
  {
    var next, fin := |c.blocks|, |c.blocks| + 1;
    var (c1, a) := GenExpr(c.(blocks := c.blocks + [[], []]), e.lhs).value;
    var (c2, a1) := ToI1(c1, a);
    var br := if e.op.CondAnd? then CondBr(a1, next, fin) else CondBr(a1, fin, next);
    var c3 := Append(c2, br).(cur := next);
    var (c4, b) := GenExpr(c3, e.rhs).value;
    var (c5, b1) := ToI1(c4, b);
    CondStages(c2, a1, br, c3, c5, b1, Append(c5, Br(fin)).(cur := fin))
  }

  /** How the stages grow out of one another. */
  lemma StagesGrow(c: Ctx, e: Expr)
    requires Open(c) && e.Binary? && GenCond(c, e).Ok?
    ensures var g := StagesOf(c, e);
            var c0 := c.(blocks := c.blocks + [[], []]);
            && Grows(c0, g.left) && Grows(GenExpr(c0, e.lhs).value.0, g.left) && Grows(c0, Append(g.left, g.br))
            && Grows(g.right, g.rightEnd) && Grows(GenExpr(g.right, e.rhs).value.0, g.rightEnd)
            && Grows(g.right, Append(g.rightEnd, Br(|c.blocks| + 1)))
  {
    var g := StagesOf(c, e);
    var c0 := c.(blocks := c.blocks + [[], []]);
    var (c1, a) := GenExpr(c0, e.lhs).value;
    ExprGrows(c0, e.lhs);
    ToI1Grows(c0, c1, a);
    AppendGrows(c0, g.left, g.br);
    var (c4, b) := GenExpr(g.right, e.rhs).value;
    ExprGrows(g.right, e.rhs);
    ToI1Grows(g.right, c4, b);
    AppendGrows(g.right, g.rightEnd, Br(|c.blocks| + 1));
  }

  /** The new blocks are still empty when control enters them, and the two
      incoming blocks of the phi differ. */
  lemma StagesFresh(c: Ctx, e: Expr)
    requires Open(c) && e.Binary? && GenCond(c, e).Ok?
    ensures var g := StagesOf(c, e);
            && g.right.cur == |c.blocks| && g.right.blocks[|c.blocks|] == []
            && g.fin.cur == |c.blocks| + 1 && g.fin.blocks[|c.blocks| + 1] == []
            && g.left.cur != g.rightEnd.cur
            && c.next <= g.left.next <= g.right.next <= g.rightEnd.next <= g.fin.next
            && g.left.vars == g.right.vars == g.rightEnd.vars == c.vars
  {
    StagesGrow(c, e);
    var g := StagesOf(c, e);
    var c0 := c.(blocks := c.blocks + [[], []]);
    assert Untouched(c0, Append(g.left, g.br), |c.blocks|);
    assert Untouched(c0, Append(g.left, g.br), |c.blocks| + 1);
    assert Untouched(g.right, Append(g.rightEnd, Br(|c.blocks| + 1)), |c.blocks| + 1);
  }

  /** What the stages are. */
  lemma StagesAre(c: Ctx, e: Expr)
    requires Open(c) && e.Binary? && GenCond(c, e).Ok?
    ensures var c0, n := c.(blocks := c.blocks + [[], []]), |c.blocks|;
            && GenExpr(c0, e.lhs).Ok?
            && var (c1, a) := GenExpr(c0, e.lhs).value;
               var g := StagesOf(c, e);
               && (g.left, g.a) == ToI1(c1, a)
               && g.br == (if e.op.CondAnd? then CondBr(g.a, n, n + 1) else CondBr(g.a, n + 1, n))
               && g.right == Append(g.left, g.br).(cur := n)
               && GenExpr(g.right, e.rhs).Ok?
               && var (c4, b) := GenExpr(g.right, e.rhs).value;
                  && (g.rightEnd, g.b) == ToI1(c4, b)
                  && g.fin == Append(g.rightEnd, Br(n + 1)).(cur := n + 1)
  {
    hide GenExpr, ToI1;
  }

  lemma StagesEmbed(p: Program, c: Ctx, e: Expr)
    requires Open(c) && e.Binary? && GenCond(c, e).Ok? && Embeds(p, GenCond(c, e).value.0.blocks)
    ensures var g := StagesOf(c, e);
            && Embeds(p, Append(g.fin, Phi(g.fin.next, g.a, g.left.cur, g.b, g.rightEnd.cur)).blocks)
            && Embeds(p, Append(g.rightEnd, Br(|c.blocks| + 1)).blocks) && Embeds(p, g.rightEnd.blocks)
            && Embeds(p, GenExpr(g.right, e.rhs).value.0.blocks)
            && Embeds(p, Append(g.left, g.br).blocks) && Embeds(p, g.left.blocks)
            && Embeds(p, GenExpr(c.(blocks := c.blocks + [[], []]), e.lhs).value.0.blocks)
  {
    hide GenExpr, ToI1, Embeds, Grows;
    StagesGrow(c, e);
    var g := StagesOf(c, e);
    GrowsSelf(g.fin); GrowsSelf(g.rightEnd); GrowsSelf(g.left);
    var i := Phi(g.fin.next, g.a, g.left.cur, g.b, g.rightEnd.cur);
    AppendGrows(g.fin, g.fin, i);
    EmbedsBack(p, g.fin, AppendDef(g.fin, i));
    AppendGrows(g.rightEnd, g.rightEnd, Br(|c.blocks| + 1));
    EmbedsBack(p, g.rightEnd, Append(g.rightEnd, Br(|c.blocks| + 1)));
    EmbedsBack(p, GenExpr(g.right, e.rhs).value.0, g.rightEnd);
    EmbedsBack(p, g.right, g.rightEnd);
    AppendGrows(g.left, g.left, g.br);
    EmbedsBack(p, g.left, Append(g.left, g.br));
    EmbedsBack(p, GenExpr(c.(blocks := c.blocks + [[], []]), e.lhs).value.0, g.left);
  }

  /** The phi picks the operand of the block control came from. */
  lemma SimPhi(p: Program, c: Ctx, e: Expr, k: Conf, st: State, t: bool) returns (k1: Conf)
    requires Open(c) && e.Binary? && GenCond(c, e).Ok? && Embeds(p, GenCond(c, e).value.0.blocks)
    requires AtStart(k, |c.blocks| + 1) && Rel(k.mem, k.out, st, c.vars)
    requires var g := StagesOf(c, e);
             || (k.prev == g.left.cur && Read(g.a, k.regs) == Some(BoolVal(t)))
             || (k.prev == g.rightEnd.cur && Read(g.b, k.regs) == Some(BoolVal(t)))
    ensures Step(p, k) == Some(k1)
    ensures At(k1, GenCond(c, e).value.0) && Rel(k1.mem, k1.out, st, c.vars) && SameRegs(k, k1, c.next)
    ensures Read(GenCond(c, e).value.1, k1.regs) == Some(BoolVal(t))
  {
    hide Rel, Embeds, GenExpr, StagesOf, GenCond;
    StagesFresh(c, e);
    StagesEmbed(p, c, e);
    var g := StagesOf(c, e);
    var i := Phi(g.fin.next, g.a, g.left.cur, g.b, g.rightEnd.cur);
    NextInstr(p, g.fin, i, k);
    k1 := SetReg(k, g.fin.next, BoolVal(t));
  }

  /** An operand and its conversion to one bit. */
  lemma {:induction false} SimTruth(p: Program, c: Ctx, e: Expr, k: Conf, st: State) returns (n: nat, k1: Conf)
    requires Open(c) && GenExpr(c, e).Ok? && LowerableExpr(e) && KindOf(e) != UnitKind
    requires var (c1, a) := GenExpr(c, e).value; Embeds(p, c1.blocks) && Embeds(p, ToI1(c1, a).0.blocks)
    requires At(k, c) && Rel(k.mem, k.out, st, c.vars)
    ensures Run(p, k, n) == Some(k1)
    ensures Eval(e, st).None? ==> Faulted(p, k1)
    ensures Eval(e, st).Some? ==>
              var (c1, a) := GenExpr(c, e).value;
              var (c2, a1) := ToI1(c1, a);
              var (x, st1) := Eval(e, st).value;
              && At(k1, c2) && Rel(k1.mem, k1.out, st1, c.vars) && SameRegs(k, k1, c.next)
              && Truth(x).Some? && Read(a1, k1.regs) == Some(BoolVal(Truth(x).value)) && Below(a1, c2.next) && a1.Reg?
    decreases e, 3
  {
    hide Run, Rel, Operate, Embeds, Eval, GenExpr;
    var (c1, a) := GenExpr(c, e).value;
    ExprGrows(c, e); ExprShape(c, e);
    n, k1 := SimExpr(p, c, e, k, st);
    if Eval(e, st).Some? {
      var (x, st1) := Eval(e, st).value;
      var n2, k2 := SimToI1(p, c1, a, k1, st1, x);
      RunThen(p, k, n, k1, n2, k2);
      n, k1 := n + n2, k2;
    }
  }

  lemma CondLowers(e: Expr)
    requires e.Binary? && e.op.IsCond() && LowerableExpr(e)
    ensures LowerableExpr(e.lhs) && LowerableExpr(e.rhs) && KindOf(e.lhs) != UnitKind && KindOf(e.rhs) != UnitKind
  {
  }

  /** The lazy meaning of `&&` and `||`. */
  lemma CondMeaning(e: Expr, st: State)
    requires e.Binary? && e.op.IsCond()
    ensures Eval(e.lhs, st).None? ==> Eval(e, st).None?
    ensures Eval(e.lhs, st).Some? && Truth(Eval(e.lhs, st).value.0).Some? ==>
              var (x, st1) := Eval(e.lhs, st).value;
              var t := Truth(x).value;
              && (t == e.op.CondOr? ==> Eval(e, st) == Some((BoolVal(t), st1)))
              && (t != e.op.CondOr? && Eval(e.rhs, st1).None? ==> Eval(e, st).None?)
              && (t != e.op.CondOr? && Eval(e.rhs, st1).Some? && Truth(Eval(e.rhs, st1).value.0).Some? ==>
                    var (y, st2) := Eval(e.rhs, st1).value;
                    Eval(e, st) == Some((BoolVal(Truth(y).value), st2)))
  {
  }

  /** Short-circuit operators: the right side runs exactly when the left side
      does not decide, at any nesting depth. */
  lemma {:induction false} SimCond(p: Program, c: Ctx, e: Expr, k: Conf, st: State) returns (n: nat, k1: Conf)
    requires Open(c) && e.Binary? && e.op.IsCond() && GenCond(c, e).Ok? && LowerableExpr(e)
    requires Embeds(p, GenCond(c, e).value.0.blocks) && At(k, c) && Rel(k.mem, k.out, st, c.vars)
    ensures ExprSim(p, c, GenCond(c, e).value.0, GenCond(c, e).value.1, k, n, k1, Eval(e, st))
    decreases e, 1
  {
    hide Run, Rel, Operate, Embeds, Eval, GenExpr;
    hide ToI1, LowerableExpr, Truth, StagesOf, GenCond, KindOf;
    StagesAre(c, e);
    CondLowers(e);
    StagesEmbed(p, c, e); StagesFresh(c, e); CondMeaning(e, st);
    var g := StagesOf(c, e);
    n, k1 := SimTruth(p, c.(blocks := c.blocks + [[], []]), e.lhs, k, st);
    if Eval(e.lhs, st).Some? {
      var (x, st1) := Eval(e.lhs, st).value;
      var t := Truth(x).value;
      NextInstr(p, g.left, g.br, k1);
      var k2 := Goto(k1, if t == e.op.CondOr? then |c.blocks| + 1 else |c.blocks|);
      RunStep(p, k, n, k1, k2);
      if t == e.op.CondOr? {
        var k3 := SimPhi(p, c, e, k2, st1, t);
        RunStep(p, k, n + 1, k2, k3);
        n, k1 := n + 2, k3;
      } else {
        var m, k3 := SimRight(p, c, e, k2, st1);
        RunThen(p, k, n + 1, k2, m, k3);
        n, k1 := n + 1 + m, k3;
      }
    }
  }

  lemma {:induction false} SimRight(p: Program, c: Ctx, e: Expr, k: Conf, st: State) returns (n: nat, k1: Conf)
    requires Open(c) && e.Binary? && e.op.IsCond() && GenCond(c, e).Ok? && LowerableExpr(e)
    requires Embeds(p, GenCond(c, e).value.0.blocks) && AtStart(k, |c.blocks|) && Rel(k.mem, k.out, st, c.vars)
    ensures Run(p, k, n) == Some(k1)
    ensures Eval(e.rhs, st).None? ==> Faulted(p, k1)
    ensures Eval(e.rhs, st).Some? ==>
              var (y, st1) := Eval(e.rhs, st).value;
              && At(k1, GenCond(c, e).value.0) && Rel(k1.mem, k1.out, st1, c.vars) && SameRegs(k, k1, c.next)
              && Truth(y).Some? && Read(GenCond(c, e).value.1, k1.regs) == Some(BoolVal(Truth(y).value))
    decreases e, 0
  {
    hide Run, Rel, Operate, Embeds, Eval, GenExpr;
    hide StagesOf, GenCond, LowerableExpr, KindOf, ToI1, Truth;
    StagesAre(c, e);
    CondLowers(e);
    StagesEmbed(p, c, e); StagesFresh(c, e);
    var g := StagesOf(c, e);
    n, k1 := SimTruth(p, g.right, e.rhs, k, st);
    if Eval(e.rhs, st).Some? {
      var (y, st1) := Eval(e.rhs, st).value;
      NextInstr(p, g.rightEnd, Br(|c.blocks| + 1), k1);
      var k2 := Goto(k1, |c.blocks| + 1);
      RunStep(p, k, n, k1, k2);
      var k3 := SimPhi(p, c, e, k2, st1, Truth(y).value);
      RunStep(p, k, n + 1, k2, k3);
      n, k1 := n + 2, k3;
    }
  }
}
