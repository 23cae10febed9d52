/** Predecessors as control sees them: a block goes where its first terminator
    goes. A phi names its block's predecessors unless a short-circuit operator
    was generated into a block that a jump had already ended. */
module Predecessors {
  import opened Ast
  import opened Rows
  import opened Machine
  import opened Codegen
  import opened Growth
  import opened Widths
  import opened Simulation
  import opened StmtSimulation
  import opened Analysis
  import opened Compiler
  import opened PhiEdges

  /** The first terminator of the block branches to `b`. */
  ghost predicate LeadsTo(code: Code, b: nat) {
    exists i :: 0 <= i < |code| && Targets(code[i], b) && !Ended(code[..i])
  }

  ghost function Preds(p: Program, b: nat): set<nat> {
    set a: nat | a < |p| && LeadsTo(p[a], b)
  }

  /** Every phi stands first in its block and its incoming blocks are distinct and
      exactly the block's predecessors. */
  ghost predicate PhisExact(p: Program) {
    forall b: nat :: b < |p| ==> PhiAgrees(p, b)
  }

  ghost predicate PhiAgrees(p: Program, b: nat)
    requires b < |p|
  {
    forall i :: 0 <= i < |p[b]| && p[b][i].Phi? ==>
      i == 0 && p[b][i].from1 != p[b][i].from2 && Preds(p, b) == {p[b][i].from1, p[b][i].from2}
  }

  // Live edges.

  /** Both edges a phi names are first terminators. */
  ghost predicate EdgesLive(p: Program, b: nat)
    requires b < |p|
  {
    forall i :: 0 <= i < |p[b]| && p[b][i].Phi? ==> EdgeLive(p, p[b][i].from1, b) && EdgeLive(p, p[b][i].from2, b)
  }

  ghost predicate EdgeLive(p: Program, a: nat, b: nat) { a < |p| && LeadsTo(p[a], b) }

  ghost predicate AllLive(p: Program) { forall b: nat :: b < |p| ==> EdgesLive(p, b) }

  lemma LeadsJumps(code: Code, b: nat)
    requires LeadsTo(code, b)
    ensures JumpsTo(code, b)
  {
  }

  lemma JumpsEnd(code: Code, b: nat)
    requires JumpsTo(code, b)
    ensures Ended(code)
  {
    var i :| 0 <= i < |code| && Targets(code[i], b);
    assert IsTerminator(code[i]);
  }

  lemma LeadsAppend(code: Code, i: Instr, b: nat)
    ensures LeadsTo(code + [i], b) <==> LeadsTo(code, b) || (!Ended(code) && Targets(i, b))
  {
    hide Ended, Targets;
    var more := code + [i];
    if LeadsTo(more, b) {
      var j :| 0 <= j < |more| && Targets(more[j], b) && !Ended(more[..j]);
      if j < |code| {
        assert more[j] == code[j] && more[..j] == code[..j];
      } else {
        assert more[..j] == code;
      }
    }
    if LeadsTo(code, b) {
      var j :| 0 <= j < |code| && Targets(code[j], b) && !Ended(code[..j]);
      assert more[j] == code[j] && more[..j] == code[..j];
    }
    if !Ended(code) && Targets(i, b) {
      assert more[|code|] == i && more[..|code|] == code;
    }
  }

  /** With phis that name the sources, exactness is liveness of their edges. */
  lemma LiveIsExact(p: Program)
    requires forall b: nat :: b < |p| ==> PhiExact(p, b)
    ensures PhisExact(p) <==> AllLive(p)
  {
    hide LeadsTo, JumpsTo;
    forall b: nat | b < |p| ensures PhiAgrees(p, b) <==> EdgesLive(p, b) {
      assert PhiExact(p, b);
      PredsAreSources(p, b);
    }
    if PhisExact(p) {
      forall b: nat | b < |p| ensures EdgesLive(p, b) { assert PhiAgrees(p, b); }
    }
    if AllLive(p) {
      forall b: nat | b < |p| ensures PhiAgrees(p, b) { assert EdgesLive(p, b); }
    }
  }

  lemma PredsAreSources(p: Program, b: nat)
    ensures Preds(p, b) <= Sources(p, b)
  {
    hide LeadsTo, JumpsTo;
    forall a | a in Preds(p, b) ensures a in Sources(p, b) { LeadsJumps(p[a], b); }
  }

  lemma PhiSources(c: Ctx, b: nat, i: nat)
    requires Sound(c) && b < |c.blocks| && i < |c.blocks[b]| && c.blocks[b][i].Phi?
    ensures var phi := c.blocks[b][i];
            && phi.from1 < |c.blocks| && phi.from2 < |c.blocks|
            && Ended(c.blocks[phi.from1]) && Ended(c.blocks[phi.from2])
  {
    hide Ended, JumpsTo;
    assert PhiExact(c.blocks, b);
    var phi := c.blocks[b][i];
    assert phi.from1 in Sources(c.blocks, b) && phi.from2 in Sources(c.blocks, b);
    JumpsEnd(c.blocks[phi.from1], b);
    JumpsEnd(c.blocks[phi.from2], b);
  }

  /** Appending behind an ended block changes no edge. */
  lemma EdgeKept(c: Ctx, i: Instr, a: nat, b: nat)
    requires Open(c) && a < |c.blocks| && Ended(c.blocks[a])
    ensures EdgeLive(Append(c, i).blocks, a, b) <==> EdgeLive(c.blocks, a, b)
  {
    hide Ended, LeadsTo;
    LeadsAppend(c.blocks[c.cur], i, b);
  }

  lemma AppendLive(c: Ctx, i: Instr)
    requires Sound(c) && !i.Phi?
    ensures AllLive(Append(c, i).blocks) <==> AllLive(c.blocks)
  {
    hide Sound, Ended, EdgeLive;
    SoundOpen(c);
    var bs := Append(c, i).blocks;
    forall b: nat | b < |bs| ensures EdgesLive(bs, b) <==> EdgesLive(c.blocks, b) {
      forall k | 0 <= k < |c.blocks[b]| && c.blocks[b][k].Phi?
        ensures bs[b][k] == c.blocks[b][k]
        ensures EdgeLive(bs, bs[b][k].from1, b) <==> EdgeLive(c.blocks, bs[b][k].from1, b)
        ensures EdgeLive(bs, bs[b][k].from2, b) <==> EdgeLive(c.blocks, bs[b][k].from2, b)
      {
        PhiSources(c, b, k);
        EdgeKept(c, i, c.blocks[b][k].from1, b);
        EdgeKept(c, i, c.blocks[b][k].from2, b);
      }
    }
    AllLiveSame(bs, c.blocks);
  }

  lemma AllLiveSame(p: Program, q: Program)
    requires |p| == |q| && forall b: nat :: b < |p| ==> (EdgesLive(p, b) <==> EdgesLive(q, b))
    ensures AllLive(p) <==> AllLive(q)
  {
    hide EdgesLive;
  }

  lemma AddLive(c: Ctx, added: Program)
    requires Sound(c) && forall b :: 0 <= b < |added| ==> added[b] == []
    ensures AllLive(c.blocks + added) <==> AllLive(c.blocks)
  {
    hide Sound, Ended, LeadsTo;
    var bs := c.blocks + added;
    forall b: nat | b < |c.blocks| ensures EdgesLive(bs, b) <==> EdgesLive(c.blocks, b) {
      assert bs[b] == c.blocks[b];
      forall k | 0 <= k < |c.blocks[b]| && c.blocks[b][k].Phi?
        ensures bs[b][k].from1 < |c.blocks| && bs[b][k].from2 < |c.blocks|
      {
        PhiSources(c, b, k);
      }
    }
    forall b: nat | |c.blocks| <= b < |bs| ensures EdgesLive(bs, b) { assert bs[b] == []; }
    if AllLive(bs) {
      forall b: nat | b < |c.blocks| ensures EdgesLive(c.blocks, b) { assert EdgesLive(bs, b); }
    }
    if AllLive(c.blocks) {
      forall b: nat | b < |bs| ensures EdgesLive(bs, b) { if b < |c.blocks| { assert EdgesLive(c.blocks, b); } }
    }
  }

  /** A phi at the start of an empty block. */
  lemma PhiLive(c: Ctx, i: Instr)
    requires Sound(c) && i.Phi? && c.blocks[c.cur] == [] && i.from1 != c.cur && i.from2 != c.cur
    ensures AllLive(Append(c, i).blocks) <==>
            AllLive(c.blocks) && EdgeLive(c.blocks, i.from1, c.cur) && EdgeLive(c.blocks, i.from2, c.cur)
  {
    hide Sound, Ended;
    SoundOpen(c);
    var bs := Append(c, i).blocks;
    assert bs[c.cur] == [i];
    forall b: nat | b < |bs| && b != c.cur ensures EdgesLive(bs, b) <==> EdgesLive(c.blocks, b) {
      forall k | 0 <= k < |c.blocks[b]| && c.blocks[b][k].Phi?
        ensures EdgeLive(bs, bs[b][k].from1, b) <==> EdgeLive(c.blocks, bs[b][k].from1, b)
        ensures EdgeLive(bs, bs[b][k].from2, b) <==> EdgeLive(c.blocks, bs[b][k].from2, b)
      {
        PhiSources(c, b, k);
        EdgeKept(c, i, c.blocks[b][k].from1, b);
        EdgeKept(c, i, c.blocks[b][k].from2, b);
      }
    }
    assert EdgesLive(c.blocks, c.cur);
    assert bs[c.cur][0] == i && bs[c.cur][0].Phi?;
    assert EdgesLive(bs, c.cur) <==> EdgeLive(c.blocks, i.from1, c.cur) && EdgeLive(c.blocks, i.from2, c.cur);
    PhiLiveAll(bs, c.blocks, c.cur);
  }

  lemma PhiLiveAll(p: Program, q: Program, at: nat)
    requires |p| == |q| && at < |p| && EdgesLive(q, at)
    requires forall b: nat :: b < |p| && b != at ==> (EdgesLive(p, b) <==> EdgesLive(q, b))
    ensures AllLive(p) <==> AllLive(q) && EdgesLive(p, at)
  {
    hide EdgesLive;
  }

  // Expressions.

  /** A jump has already ended the current block. */
  ghost predicate Dead(c: Ctx)
    requires Open(c)
  {
    Ended(c.blocks[c.cur])
  }

  predicate HasCond(e: Expr) {
    match e
    case Binary(op, l, r) => op.IsCond() || HasCond(l) || HasCond(r)
    case Assign(_, v) => HasCond(v)
    case Call(_, args) => HasCondAll(args)
    case _ => false
  }

  predicate HasCondAll(es: seq<Expr>) { es != [] && (HasCond(es[0]) || HasCondAll(es[1..])) }

  /** What a step does to the current block and to the phis: `dead` says whether
      the block is ended behind it, `ok` whether it added only exact phis. */
  ghost predicate Leaves(c: Ctx, c1: Ctx, dead: bool, ok: bool) {
    Open(c1) && (Dead(c1) <==> dead) && (AllLive(c1.blocks) <==> AllLive(c.blocks) && ok)
  }

  /** An expression goes on in a new block exactly if it has a short-circuit
      operator, and the first of them misses its left edge if the block was ended. */
  ghost predicate ExprLeaves(c: Ctx, c1: Ctx, cond: bool)
    requires Open(c)
  {
    Leaves(c, c1, Dead(c) && !cond, !(Dead(c) && cond))
  }

  lemma PlainLeaves(c: Ctx, i: Instr)
    requires Sound(c) && !i.Phi? && !IsTerminator(i)
    ensures Open(c) && ExprLeaves(c, Append(c, i), false) && ExprLeaves(c, AppendDef(c, i), false)
  {
    hide Sound, AllLive, Ended;
    SoundOpen(c);
    AppendLive(c, i);
    CodeAppend(c.blocks[c.cur], i);
  }

  lemma ToI1Leaves(c: Ctx, o: Operand)
    requires Sound(c)
    ensures Open(c) && ExprLeaves(c, ToI1(c, o).0, false)
  {
    hide Sound, AllLive, Ended;
    SoundOpen(c);
    PlainLeaves(c, Bin(c.next, NotEqual, o, Imm(0)));
  }

  lemma {:induction false} ExprLive(c: Ctx, e: Expr)
    requires Sound(c) && Open(c) && GenExpr(c, e).Ok?
    ensures ExprLeaves(c, GenExpr(c, e).value.0, HasCond(e)) && Sound(GenExpr(c, e).value.0)
    decreases e, 2
  {
    hide Sound, AllLive, Dead;
    ExprSound(c, e);
    match e
    case Num(_) =>
    case Var(x) => PlainLeaves(c, Load(c.next, c.vars[x]));
    case Binary(op, _, _) => if op.IsCond() { CondLive(c, e); } else { StrictLive(c, e); }
    case Assign(Var(x), v) =>
      var (c1, o) := GenExpr(c, v).value;
      ExprLive(c, v);
      PlainLeaves(c1, Store(o, c.vars[x]));
      var c2 := Append(c1, Store(o, c.vars[x]));
      PlainSound(c1, Store(o, c.vars[x]));
      PlainLeaves(c2, Load(c2.next, c.vars[x]));
    case Call(Var(_), args) =>
      var (c1, o) := GenExpr(c, args[0]).value;
      ExprLive(c, args[0]);
      PlainLeaves(c1, CallPrint([o]));
      OneCond(args);
    case _ =>
  }

  lemma OneCond(args: seq<Expr>)
    requires |args| == 1
    ensures HasCondAll(args) <==> HasCond(args[0])
  {
    assert args[1..] == [];
  }

  lemma {:induction false} StrictLive(c: Ctx, e: Expr)
    requires Sound(c) && Open(c) && e.Binary? && !e.op.IsCond() && GenExpr(c, e).Ok?
    ensures ExprLeaves(c, GenExpr(c, e).value.0, HasCond(e))
    decreases e, 0
  {
    hide Sound, AllLive, Dead;
    var (c1, a) := GenExpr(c, e.lhs).value;
    ExprLive(c, e.lhs);
    var (c2, b) := GenExpr(c1, e.rhs).value;
    ExprLive(c1, e.rhs);
    PlainLeaves(c2, Bin(c2.next, e.op, a, b));
  }

  /** Up to the branch: where the left edge of the phi starts. */
  lemma {:induction false} LeftLive(c: Ctx, e: Expr)
    requires Sound(c) && Open(c) && e.Binary? && GenCond(c, e).Ok?
    ensures var g := StagesOf(c, e);
            && ExprLeaves(c, g.left, HasCond(e.lhs)) && (AllLive(g.right.blocks) <==> AllLive(g.left.blocks))
            && (LeadsTo(g.right.blocks[g.left.cur], |c.blocks| + 1) <==> !Dead(g.left))
            && !Dead(g.right)
    decreases e, 0
  {
    hide Sound, AllLive, Ended, LeadsTo, GenExpr, ToI1;
    var g, n := StagesOf(c, e), |c.blocks|;
    var c0 := c.(blocks := c.blocks + [[], []]);
    AddSound(c, [[], []]);
    AddLive(c, [[], []]);
    ExprLive(c0, e.lhs);
    var (c1, a) := GenExpr(c0, e.lhs).value;
    ToI1Leaves(c1, a);
    LeftHalf(c, e);
    AppendLive(g.left, g.br);
    LeadsAppend(g.left.blocks[g.left.cur], g.br, n + 1);
    NoSource(g.left, n + 1);
    assert Targets(g.br, n + 1);
    StagesFresh(c, e);
    EmptyRuns();
  }

  lemma NoSource(c: Ctx, b: nat)
    requires Open(c) && Sources(c.blocks, b) == {}
    ensures !LeadsTo(c.blocks[c.cur], b)
  {
    hide LeadsTo, JumpsTo;
    PredsAreSources(c.blocks, b);
    assert c.cur !in Preds(c.blocks, b);
  }

  lemma EmptyRuns()
    ensures !Ended([])
  {
  }

  lemma {:induction false} CondLive(c: Ctx, e: Expr)
    requires Sound(c) && Open(c) && e.Binary? && e.op.IsCond() && GenCond(c, e).Ok?
    ensures ExprLeaves(c, GenCond(c, e).value.0, true)
    decreases e, 1
  {
    hide Sound, AllLive, Ended, LeadsTo, GenExpr, ToI1, HasCond;
    var g, n := StagesOf(c, e), |c.blocks|;
    LeftLive(c, e);
    LeftHalf(c, e);
    RightHalf(c, e);
    ExprLive(g.right, e.rhs);
    var (c4, b) := GenExpr(g.right, e.rhs).value;
    ToI1Leaves(c4, b);
    AppendLive(g.rightEnd, Br(n + 1));
    LeadsAppend(g.rightEnd.blocks[g.rightEnd.cur], Br(n + 1), n + 1);
    CondApart(c, e);
    var phi := Phi(g.fin.next, g.a, g.left.cur, g.b, g.rightEnd.cur);
    StagesFresh(c, e);
    PhiLive(g.fin, phi);
    PhiEndsNothing(phi);
    assert [] + [phi] == [phi];
  }

  lemma PhiEndsNothing(i: Instr)
    requires i.Phi?
    ensures !Ended([i])
  {
  }

  /** The incoming blocks are other blocks than the one of the phi, and the left
      one is left alone by the right side. */
  lemma CondApart(c: Ctx, e: Expr)
    requires Open(c) && e.Binary? && GenCond(c, e).Ok?
    ensures var g, n := StagesOf(c, e), |c.blocks|;
            && g.left.cur != n + 1 && g.rightEnd.cur != n + 1
            && g.left.cur < |g.right.blocks| <= |g.fin.blocks|
            && g.fin.blocks[g.left.cur] == g.right.blocks[g.left.cur]
  {
    hide GenExpr, ToI1, StagesOf, GenCond, Grows;
    StagesAre(c, e);
    StagesGrow(c, e);
    StagesFresh(c, e);
    var g, n := StagesOf(c, e), |c.blocks|;
    GrownFrom(c.(blocks := c.blocks + [[], []]), g.left);
    GrownFrom(g.right, g.rightEnd);
    GrownFrom(g.right, Append(g.rightEnd, Br(n + 1)));
  }

  lemma GrownFrom(c: Ctx, c1: Ctx)
    requires Grows(c, c1)
    ensures |c.blocks| <= |c1.blocks| && (c1.cur == c.cur || |c.blocks| <= c1.cur) && Open(c) && Open(c1)
    ensures forall b: nat :: b < |c.blocks| && b != c.cur ==> c1.blocks[b] == c.blocks[b]
  {
    forall b: nat | b < |c.blocks| && b != c.cur ensures c1.blocks[b] == c.blocks[b] { assert Untouched(c, c1, b); }
  }

  lemma {:induction false} RowLive(c: Ctx, es: seq<Expr>)
    requires Sound(c) && Open(c) && GenRow(c, es).Ok?
    ensures ExprLeaves(c, GenRow(c, es).value.0, HasCondAll(es)) && Sound(GenRow(c, es).value.0)
    decreases es
  {
    hide Sound, AllLive, Dead, GenExpr, HasCond;
    if es != [] {
      var c1 := GenExpr(c, es[0]).value.0;
      var c2 := GenExpr(c1, es[0]).value.0;
      ExprLive(c, es[0]);
      ExprLive(c1, es[0]);
      RowLive(c2, es[1..]);
    }
  }

  // Statements.

  /** Whether the block that generation continues in is already ended behind a
      statement, if it is `dead` before. */
  predicate EndsDead(s: Stmt, dead: bool)
    decreases s, 1
  {
    match s
    case Block(ss) => EndsDeadSeq(ss, dead)
    case Transaction(_, ss) => EndsDeadSeq(ss, dead)
    case Let(_, _, e) => dead && !HasCond(e)
    case Emit(Row(es)) => dead && !HasCondAll(es)
    case Insert(_, Row(es)) => dead && !HasCondAll(es)
    case Define(_, _) => dead
    case ExprStmt(e) => dead && !HasCond(e)
    case Jump(_) => true
    case _ => false
  }

  predicate EndsDeadSeq(ss: seq<Stmt>, dead: bool)
    decreases ss, 0
  {
    if ss == [] then dead else EndsDeadSeq(ss[1..], EndsDead(ss[0], dead))
  }

  /** No short-circuit operator stands directly behind a jump in its list, with only
      statements without one between them. */
  predicate CondsLive(s: Stmt, dead: bool)
    decreases s, 1
  {
    match s
    case Block(ss) => CondsLiveSeq(ss, dead)
    case Transaction(_, ss) => CondsLiveSeq(ss, dead)
    case Let(_, _, e) => !(dead && HasCond(e))
    case If(e, thn, els) =>
      !(dead && HasCond(e)) && CondsLiveSeq(thn, false) && (els.ElseBlock? ==> CondsLiveSeq(els.stmts, false))
    case For(init, _, _, body) => (init.JustStmt? ==> CondsLive(init.s, dead)) && CondsLiveSeq(body, false)
    case Emit(Row(es)) => !(dead && HasCondAll(es))
    case Insert(_, Row(es)) => !(dead && HasCondAll(es))
    case ExprStmt(e) => !(dead && HasCond(e))
    case _ => true
  }

  predicate CondsLiveSeq(ss: seq<Stmt>, dead: bool)
    decreases ss, 0
  {
    ss != [] ==> CondsLive(ss[0], dead) && CondsLiveSeq(ss[1..], EndsDead(ss[0], dead))
  }

  lemma {:induction false} StmtLive(c: Ctx, s: Stmt)
    requires Sound(c) && Open(c) && GenStmt(c, s).Ok?
    ensures Leaves(c, GenStmt(c, s).value, EndsDead(s, Dead(c)), CondsLive(s, Dead(c))) && Sound(GenStmt(c, s).value)
    decreases s, 1
  {
    hide Sound, AllLive, Dead, GenExpr, GenRow, GenIf, GenLoop, GenSeq, HasCond, HasCondAll, EndsDeadSeq,
         CondsLiveSeq;
    KeepsSelf(c.blocks);
    StmtStaysSound(c, s);
    match s
    case Block(ss) => SeqLive(c, ss);
    case Transaction(_, ss) =>
      var c1 := Append(c, CallBegin);
      PlainLeaves(c, CallBegin);
      PlainSound(c, CallBegin);
      SeqLive(c1, ss);
      PlainLeaves(GenSeq(c1, ss).value, CallCommit);
    case Let(_, x, e) =>
      var (c1, v) := GenExpr(c, e).value;
      ExprLive(c, e);
      PlainLeaves(c1, Store(v, c.vars[x]));
    case If(_, _, _) => IfLive(c, s);
    case For(init, _, _, _) =>
      if init.JustStmt? {
        StmtLive(c, init.s);
        LoopLive(GenStmt(c, init.s).value, s);
      } else {
        LoopLive(c, s);
      }
    case Jump(kind) => JumpLive(c, if kind.BreakJump? then c.loops[0].finish else c.loops[0].every);
    case Emit(Row(es)) =>
      var (c1, row) := GenRow(c, es).value;
      RowLive(c, es);
      PlainLeaves(c1, CallEmit(row));
    case Insert(t, Row(es)) =>
      var (c1, row) := GenRow(c, es).value;
      RowLive(c, es);
      PlainLeaves(c1, CallInsert(NameBytes(t), row));
    case ExprStmt(e) => ExprLive(c, e);
    case _ =>
  }

  lemma StmtStaysSound(c: Ctx, s: Stmt)
    requires Sound(c) && Open(c) && GenStmt(c, s).Ok?
    ensures Sound(GenStmt(c, s).value)
  {
    hide Sound, GenStmt;
    KeepsSelf(c.blocks);
    StmtSoundFrom(c, s);
    FrameSound(c.blocks, GenStmt(c, s).value);
  }

  lemma JumpLive(c: Ctx, b: nat)
    requires Sound(c) && Open(c)
    ensures Leaves(c, Append(c, Br(b)), true, true)
  {
    hide Sound, AllLive, Ended;
    AppendLive(c, Br(b));
    CodeAppend(c.blocks[c.cur], Br(b));
  }

  lemma {:induction false} SeqLive(c: Ctx, ss: seq<Stmt>)
    requires Sound(c) && Open(c) && GenSeq(c, ss).Ok?
    ensures Leaves(c, GenSeq(c, ss).value, EndsDeadSeq(ss, Dead(c)), CondsLiveSeq(ss, Dead(c)))
            && Sound(GenSeq(c, ss).value)
    decreases ss, 0
  {
    hide Sound, AllLive, Dead, GenStmt, EndsDead, CondsLive;
    if ss != [] {
      StmtLive(c, ss[0]);
      SeqLive(GenStmt(c, ss[0]).value, ss[1..]);
    }
  }

  lemma {:induction false} IfLive(c: Ctx, s: Stmt)
    requires Sound(c) && Open(c) && s.If? && GenIf(c, s).Ok?
    ensures Leaves(c, GenIf(c, s).value, false, CondsLive(s, Dead(c)))
    decreases s, 0
  {
    hide Sound, AllLive, Ended, GenExpr, GenSeq, ToI1, HasCond, CondsLiveSeq;
    var g, n := IfStagesOf(c, s), |c.blocks|;
    var c0 := c.(blocks := c.blocks + [[], [], []]);
    AddSound(c, [[], [], []]);
    AddLive(c, [[], [], []]);
    ExprLive(c0, s.cond);
    var (c1, v) := GenExpr(c0, s.cond).value;
    ToI1Leaves(c1, v);
    IfSound(c, s);
    AppendLive(g.head, CondBr(g.v, n, n + 1));
    IfFresh(c, s);
    EmptyRuns();
    SeqLive(g.thn, s.thn);
    AppendLive(g.thnEnd, Br(n + 2));
    if s.els.ElseBlock? { SeqLive(g.els, s.els.stmts); }
    AppendLive(g.elsEnd, Br(n + 2));
  }

  lemma {:induction false} LoopLive(c: Ctx, s: Stmt)
    requires Sound(c) && Open(c) && s.For? && GenLoop(c, s).Ok?
    ensures Leaves(c, GenLoop(c, s).value, false, CondsLiveSeq(s.body, false))
    decreases s, 0
  {
    hide Sound, AllLive, Ended, GenExpr, GenSeq, GenTest, GenEvery, EnterLoop, HasCond, CondsLiveSeq;
    var g, n := LoopStagesOf(c, s), |c.blocks|;
    LoopSound(c, s);
    LoopFresh(c, s);
    EmptyRuns();
    EnterLive(c);
    TestLive(g.begin, g.begin.loops[0], s.test);
    SeqLive(g.body, s.body);
    AppendLive(g.bodyEnd, Br(n + 2));
    EveryLive(g.every, s.every);
    AppendLive(g.everyEnd, Br(n));
  }

  lemma EnterLive(c: Ctx)
    requires Sound(c) && Open(c)
    ensures AllLive(EnterLoop(c).blocks) <==> AllLive(c.blocks)
  {
    hide Sound, AllLive;
    AddSound(c, [[], [], [], []]);
    AddLive(c, [[], [], [], []]);
    AppendLive(c.(blocks := c.blocks + [[], [], [], []]), Br(|c.blocks|));
  }

  lemma TestLive(c: Ctx, loop: LoopBlocks, test: MaybeExpr)
    requires Sound(c) && Open(c) && !Dead(c) && GenTest(c, loop, test).Ok?
    ensures AllLive(GenTest(c, loop, test).value.blocks) <==> AllLive(c.blocks)
  {
    hide Sound, AllLive, Dead, GenExpr;
    if test.JustExpr? {
      ExprLive(c, test.e);
      var (c1, v) := GenExpr(c, test.e).value;
      AppendLive(c1, CondBr(v, loop.body, loop.finish));
    }
  }

  lemma EveryLive(c: Ctx, every: MaybeExpr)
    requires Sound(c) && Open(c) && !Dead(c) && GenEvery(c, every).Ok?
    ensures AllLive(GenEvery(c, every).value.blocks) <==> AllLive(c.blocks)
  {
    hide Sound, AllLive, Dead, GenExpr;
    if every.JustExpr? { ExprLive(c, every.e); }
  }

  // The whole program.

  lemma AllocatedLive(c: Ctx)
    requires Allocated(c)
    ensures Sound(c) && AllLive(c.blocks) && !Dead(c)
  {
    AllocatedSound(c);
  }

  /** The phis of a compiled program name exactly the predecessors of their blocks
      if and only if no short-circuit operator is generated into a block that a jump
      has already ended. */
  lemma PhisExactly(prog: seq<Stmt>)
    requires Compile(prog).Ok?
    ensures PhisExact(Compile(prog).value) <==> CondsLiveSeq(prog, false)
  {
    hide Sound, AllLive, Dead, PhisExact, GenSeq, AllocSeq, AnalyzeSeq, CondsLiveSeq, EndsDeadSeq, Allocated,
         PhiExact;
    var c1 := AllocSeq(Entry(), prog).value;
    EntryAllocated();
    AllocKeeps(Entry(), prog);
    AllocatedOpen(c1);
    AllocatedLive(c1);
    var c2 := GenSeq(c1, prog).value;
    SeqLive(c1, prog);
    AppendLive(c2, Ret);
    PlainlySound(c2);
    LiveIsExact(Append(c2, Ret).blocks);
  }

  lemma PlainlySound(c: Ctx)
    requires Sound(c)
    ensures Open(c) && forall b: nat :: b < |Append(c, Ret).blocks| ==> PhiExact(Append(c, Ret).blocks, b)
  {
    hide KeepsFree, SameSources;
    PlainSound(c, Ret);
  }
}
