/** Every phi stands first in its block, and the two blocks it names are exactly
    the blocks with a branch to it, if branches behind a terminator count. */
module PhiEdges {
  import opened Ast
  import opened Rows
  import opened Machine
  import opened Codegen
  import opened Simulation
  import opened StmtSimulation
  import opened Compiler

  predicate Targets(i: Instr, b: nat) {
    (i.Br? && i.target == b) || (i.CondBr? && (i.onTrue == b || i.onFalse == b))
  }

  ghost predicate JumpsTo(code: Code, b: nat) { exists i :: 0 <= i < |code| && Targets(code[i], b) }

  /** The blocks with a branch to `b`, wherever in the block it stands. */
  ghost function Sources(p: Program, b: nat): set<nat> {
    set a: nat | a < |p| && JumpsTo(p[a], b)
  }

  ghost predicate PhiFree(code: Code) { forall i :: 0 <= i < |code| ==> !code[i].Phi? }

  ghost predicate PhiExact(p: Program, b: nat)
    requires b < |p|
  {
    forall i :: 0 <= i < |p[b]| && p[b][i].Phi? ==>
      i == 0 && p[b][i].from1 != p[b][i].from2 && Sources(p, b) == {p[b][i].from1, p[b][i].from2}
  }

  /** A block that later branches may go to. */
  ghost predicate Joinable(p: Program, b: nat) { b < |p| && PhiFree(p[b]) }

  ghost predicate LoopJoinable(p: Program, l: LoopBlocks) {
    Joinable(p, l.begin) && Joinable(p, l.every) && Joinable(p, l.finish)
  }

  ghost predicate Sound(c: Ctx) {
    && Open(c)
    && (forall b: nat :: b < |c.blocks| ==> PhiExact(c.blocks, b))
    && (forall b: nat :: |c.blocks| <= b ==> Sources(c.blocks, b) == {})
    && (forall i :: 0 <= i < |c.loops| ==> LoopJoinable(c.blocks, c.loops[i]))
  }

  /** Blocks without a phi stay so. */
  ghost predicate KeepsFree(p: Program, p1: Program) {
    |p| <= |p1| && forall b: nat :: b < |p| && PhiFree(p[b]) ==> PhiFree(p1[b])
  }

  ghost predicate SameSources(p: Program, p1: Program) {
    forall b: nat :: b < |p| ==> Sources(p1, b) == Sources(p, b)
  }

  lemma JumpsAppend(code: Code, i: Instr, b: nat)
    ensures JumpsTo(code + [i], b) <==> JumpsTo(code, b) || Targets(i, b)
  {
    var more := code + [i];
    assert more[|code|] == i;
    if JumpsTo(code, b) {
      var j :| 0 <= j < |code| && Targets(code[j], b);
      assert more[j] == code[j];
    }
  }

  lemma AppendSources(c: Ctx, i: Instr, b: nat)
    requires Open(c)
    ensures Sources(Append(c, i).blocks, b) == Sources(c.blocks, b) + if Targets(i, b) then {c.cur} else {}
  {
    hide JumpsTo, Targets;
    JumpsAppend(c.blocks[c.cur], i, b);
    var bs := Append(c, i).blocks;
    assert bs[c.cur] == c.blocks[c.cur] + [i];
  }

  lemma AppendFree(c: Ctx, i: Instr)
    requires Open(c) && !i.Phi?
    ensures KeepsFree(c.blocks, Append(c, i).blocks)
  {
  }

  /** Appending an instruction other than a phi. */
  lemma AppendSound(c: Ctx, i: Instr)
    requires Sound(c) && !i.Phi? && forall b: nat :: Targets(i, b) ==> Joinable(c.blocks, b)
    ensures Sound(Append(c, i)) && Sound(AppendDef(c, i)) && KeepsFree(c.blocks, Append(c, i).blocks)
  {
    hide Sources, Targets;
    AppendFree(c, i);
    var bs := Append(c, i).blocks;
    forall b: nat | b < |bs| ensures PhiExact(bs, b) {
      assert PhiExact(c.blocks, b);
      AppendSources(c, i, b);
      if Targets(i, b) { assert PhiFree(bs[b]); }
    }
    forall b: nat | |bs| <= b ensures Sources(bs, b) == {} { AppendSources(c, i, b); }
    LoopsKeep(c.blocks, bs, c.loops);
  }

  lemma LoopsKeep(p: Program, p1: Program, loops: seq<LoopBlocks>)
    requires KeepsFree(p, p1) && forall i :: 0 <= i < |loops| ==> LoopJoinable(p, loops[i])
    ensures forall i :: 0 <= i < |loops| ==> LoopJoinable(p1, loops[i])
  {
    hide PhiFree;
  }

  /** An instruction that is no branch. */
  lemma PlainSound(c: Ctx, i: Instr)
    requires Sound(c) && !i.Phi? && !i.Br? && !i.CondBr?
    ensures Sound(Append(c, i)) && Sound(AppendDef(c, i)) && KeepsFree(c.blocks, Append(c, i).blocks)
    ensures SameSources(c.blocks, Append(c, i).blocks)
  {
    hide Sound, KeepsFree, Sources;
    SoundOpen(c);
    AppendSound(c, i);
    forall b: nat | b < |c.blocks| ensures Sources(Append(c, i).blocks, b) == Sources(c.blocks, b) {
      AppendSources(c, i, b);
    }
  }

  lemma SoundOpen(c: Ctx)
    requires Sound(c)
    ensures Open(c)
  {
  }

  lemma AddSound(c: Ctx, added: Program)
    requires Sound(c) && forall b :: 0 <= b < |added| ==> added[b] == []
    ensures var c1 := c.(blocks := c.blocks + added);
            && Sound(c1) && KeepsFree(c.blocks, c1.blocks)
            && SameSources(c.blocks, c1.blocks)
    ensures forall b: nat :: |c.blocks| <= b < |c.blocks| + |added| ==> Joinable(c.blocks + added, b)
    ensures forall b: nat :: |c.blocks| <= b ==> Sources(c.blocks + added, b) == {}
  {
    hide Targets;
    var bs := c.blocks + added;
    forall b: nat ensures Sources(bs, b) == Sources(c.blocks, b) {
      forall a: nat ensures a in Sources(bs, b) <==> a in Sources(c.blocks, b) {
        if a < |c.blocks| { assert bs[a] == c.blocks[a]; }
      }
    }
    forall b: nat | b < |bs| ensures PhiExact(bs, b) {
      if b < |c.blocks| { assert PhiExact(c.blocks, b) && bs[b] == c.blocks[b]; }
    }
    assert KeepsFree(c.blocks, bs);
    LoopsKeep(c.blocks, bs, c.loops);
  }

  lemma FramesTrans(p: Program, p1: Program, p2: Program)
    ensures KeepsFree(p, p1) && KeepsFree(p1, p2) ==> KeepsFree(p, p2)
    ensures |p| <= |p1| && SameSources(p, p1) && SameSources(p1, p2) ==> SameSources(p, p2)
  {
    hide PhiFree, Sources;
  }

  lemma MoveSound(c: Ctx, b: nat)
    requires Sound(c) && b < |c.blocks|
    ensures Sound(c.(cur := b))
  {
  }

  ghost predicate ExprFrame(c: Ctx, c1: Ctx) {
    Sound(c1) && KeepsFree(c.blocks, c1.blocks) && SameSources(c.blocks, c1.blocks)
  }

  lemma FrameSelf(c: Ctx)
    requires Sound(c)
    ensures ExprFrame(c, c)
  {
  }

  lemma FrameTrans(c: Ctx, c1: Ctx, c2: Ctx)
    requires ExprFrame(c, c1) && ExprFrame(c1, c2)
    ensures ExprFrame(c, c2)
  {
    hide Sound, SameSources;
    FramesTrans(c.blocks, c1.blocks, c2.blocks);
  }

  lemma FramePlain(c: Ctx, c1: Ctx, i: Instr)
    requires ExprFrame(c, c1) && !i.Phi? && !i.Br? && !i.CondBr?
    ensures Open(c1) && ExprFrame(c, Append(c1, i)) && ExprFrame(c, AppendDef(c1, i))
  {
    hide Sound, SameSources, KeepsFree;
    SoundOpen(c1);
    PlainSound(c1, i);
    FramesTrans(c.blocks, c1.blocks, Append(c1, i).blocks);
    FrameSize(c, c1);
  }

  lemma FrameSize(c: Ctx, c1: Ctx)
    requires ExprFrame(c, c1)
    ensures |c.blocks| <= |c1.blocks|
  {
  }

  lemma FrameToI1(c: Ctx, c1: Ctx, o: Operand)
    requires ExprFrame(c, c1)
    ensures Open(c1) && ExprFrame(c, ToI1(c1, o).0)
  {
    hide ExprFrame;
    FramePlain(c, c1, Bin(c1.next, NotEqual, o, Imm(0)));
  }

  lemma {:induction false} ExprSound(c: Ctx, e: Expr)
    requires Sound(c) && GenExpr(c, e).Ok?
    ensures ExprFrame(c, GenExpr(c, e).value.0)
    decreases e, 3
  {
    hide ExprFrame;
    FrameSelf(c);
    match e
    case Num(_) =>
    case Var(x) => FramePlain(c, c, Load(c.next, c.vars[x]));
    case Binary(op, l, r) =>
      if op.IsCond() { CondSound(c, e); } else { StrictSound(c, e); }
    case Assign(Var(x), e1) =>
      var (c1, v) := GenExpr(c, e1).value;
      ExprSound(c, e1);
      FramePlain(c, c1, Store(v, c.vars[x]));
      var c2 := Append(c1, Store(v, c.vars[x]));
      FramePlain(c, c2, Load(c2.next, c.vars[x]));
    case Call(Var(f), args) =>
      var (c1, v) := GenExpr(c, args[0]).value;
      ExprSound(c, args[0]);
      FramePlain(c, c1, CallPrint([v]));
    case _ =>
  }

  lemma {:induction false} StrictSound(c: Ctx, e: Expr)
    requires Sound(c) && e.Binary? && !e.op.IsCond() && GenExpr(c, e).Ok?
    ensures ExprFrame(c, GenExpr(c, e).value.0)
    decreases e, 0
  {
    hide KeepsFree, SameSources;
    var (c1, a) := GenExpr(c, e.lhs).value;
    ExprSound(c, e.lhs);
    var (c2, b) := GenExpr(c1, e.rhs).value;
    ExprSound(c1, e.rhs);
    FrameTrans(c, c1, c2);
    FramePlain(c, c2, Bin(c2.next, e.op, a, b));
  }

  /** A branch to new blocks: old blocks keep their sources, new ones get the
      current block. */
  lemma BranchSound(p: Program, c: Ctx, i: Instr)
    requires Sound(c) && KeepsFree(p, c.blocks) && SameSources(p, c.blocks) && !i.Phi?
    requires forall b: nat :: Targets(i, b) ==> |p| <= b && Joinable(c.blocks, b)
    ensures Sound(Append(c, i)) && KeepsFree(p, Append(c, i).blocks) && SameSources(p, Append(c, i).blocks)
    ensures KeepsFree(c.blocks, Append(c, i).blocks)
    ensures forall b: nat :: Targets(i, b) ==> Sources(Append(c, i).blocks, b) == Sources(c.blocks, b) + {c.cur}
  {
    hide Sound, KeepsFree, Sources, Targets, Joinable;
    SoundOpen(c);
    AppendSound(c, i);
    var bs := Append(c, i).blocks;
    FramesTrans(p, c.blocks, bs);
    forall b: nat ensures Sources(bs, b) == Sources(c.blocks, b) + if Targets(i, b) then {c.cur} else {} {
      AppendSources(c, i, b);
    }
  }

  /** A phi for exactly the sources, at the start of a block that is new. */
  lemma PhiSound(p: Program, c: Ctx, i: Instr)
    requires Sound(c) && KeepsFree(p, c.blocks) && SameSources(p, c.blocks) && |p| <= c.cur
    requires i.Phi? && c.blocks[c.cur] == [] && i.from1 != i.from2 && Sources(c.blocks, c.cur) == {i.from1, i.from2}
    requires forall k :: 0 <= k < |c.loops| ==>
             c.loops[k].begin < |p| && c.loops[k].every < |p| && c.loops[k].finish < |p|
    ensures Sound(AppendDef(c, i)) && KeepsFree(p, AppendDef(c, i).blocks) && SameSources(p, AppendDef(c, i).blocks)
  {
    hide Sources;
    var bs := AppendDef(c, i).blocks;
    forall b: nat ensures Sources(bs, b) == Sources(c.blocks, b) { AppendSources(c, i, b); }
    forall b: nat | b < |bs| ensures PhiExact(bs, b) {
      assert PhiExact(c.blocks, b);
    }
    forall k | 0 <= k < |c.loops| ensures LoopJoinable(bs, c.loops[k]) { assert LoopJoinable(c.blocks, c.loops[k]); }
  }

  lemma KeepsJoinable(p: Program, p1: Program, b: nat)
    requires KeepsFree(p, p1) && Joinable(p, b)
    ensures Joinable(p1, b)
  {
    hide PhiFree;
  }

  lemma {:induction false} LeftHalf(c: Ctx, e: Expr)
    requires Sound(c) && e.Binary? && GenCond(c, e).Ok?
    ensures var g := StagesOf(c, e);
            && Sound(g.right) && KeepsFree(c.blocks, g.right.blocks) && SameSources(c.blocks, g.right.blocks)
            && Joinable(g.right.blocks, |c.blocks| + 1) && Sources(g.right.blocks, |c.blocks| + 1) == {g.left.cur}
            && Sound(g.left) && Sources(g.left.blocks, |c.blocks| + 1) == {}
    decreases e, 0
  {
    hide Sound, KeepsFree, SameSources, Joinable, Sources, GenExpr, ToI1;
    SoundOpen(c);
    var g, n := StagesOf(c, e), |c.blocks|;
    var c0 := c.(blocks := c.blocks + [[], []]);
    AddSound(c, [[], []]);
    ExprSound(c0, e.lhs);
    var (c1, a) := GenExpr(c0, e.lhs).value;
    FrameToI1(c0, c1, a);
    NewSources(c0.blocks, g.left.blocks, n + 1);
    FramesTrans(c.blocks, c0.blocks, g.left.blocks);
    KeepsJoinable(c0.blocks, g.left.blocks, n);
    KeepsJoinable(c0.blocks, g.left.blocks, n + 1);
    BranchSound(c.blocks, g.left, g.br);
    assert Targets(g.br, n + 1);
    KeepsJoinable(g.left.blocks, g.right.blocks, n + 1);
    MoveSound(Append(g.left, g.br), n);
  }

  lemma NewSources(p: Program, p1: Program, b: nat)
    requires SameSources(p, p1) && b < |p|
    ensures Sources(p1, b) == Sources(p, b)
  {
  }

  lemma {:induction false} RightHalf(c: Ctx, e: Expr)
    requires Sound(c) && e.Binary? && GenCond(c, e).Ok?
    ensures var g := StagesOf(c, e);
            && Sound(g.fin) && KeepsFree(c.blocks, g.fin.blocks) && SameSources(c.blocks, g.fin.blocks)
            && Sources(g.fin.blocks, |c.blocks| + 1) == {g.left.cur, g.rightEnd.cur} && Sound(g.rightEnd)
    decreases e, 1
  {
    hide Sound, KeepsFree, SameSources, Joinable, Sources, GenExpr, ToI1;
    SoundOpen(c);
    var g, n := StagesOf(c, e), |c.blocks|;
    LeftHalf(c, e);
    ExprSound(g.right, e.rhs);
    var (c4, b) := GenExpr(g.right, e.rhs).value;
    FrameToI1(g.right, c4, b);
    NewSources(g.right.blocks, g.rightEnd.blocks, n + 1);
    FramesTrans(c.blocks, g.right.blocks, g.rightEnd.blocks);
    KeepsJoinable(g.right.blocks, g.rightEnd.blocks, n + 1);
    BranchSound(c.blocks, g.rightEnd, Br(n + 1));
    assert Targets(Br(n + 1), n + 1);
    MoveSound(Append(g.rightEnd, Br(n + 1)), n + 1);
  }

  lemma LoopsBelow(c: Ctx)
    requires Sound(c)
    ensures forall k :: 0 <= k < |c.loops| ==>
              c.loops[k].begin < |c.blocks| && c.loops[k].every < |c.blocks| && c.loops[k].finish < |c.blocks|
  {
    forall k | 0 <= k < |c.loops|
      ensures c.loops[k].begin < |c.blocks| && c.loops[k].every < |c.blocks| && c.loops[k].finish < |c.blocks|
    {
      assert LoopJoinable(c.blocks, c.loops[k]);
    }
  }

  /** The phi of a short-circuit operator, at any depth. */
  lemma {:induction false} CondSound(c: Ctx, e: Expr)
    requires Sound(c) && e.Binary? && GenCond(c, e).Ok?
    ensures ExprFrame(c, GenCond(c, e).value.0)
    decreases e, 2
  {
    hide Sound, KeepsFree, SameSources, Joinable, Sources, GenExpr, ToI1;
    SoundOpen(c);
    LoopsBelow(c);
    var g := StagesOf(c, e);
    StagesFresh(c, e);
    RightHalf(c, e);
    PhiSound(c.blocks, g.fin, Phi(g.fin.next, g.a, g.left.cur, g.b, g.rightEnd.cur));
  }

  // Statements.

  ghost predicate StmtFrame(p: Program, c1: Ctx) { Sound(c1) && KeepsFree(p, c1.blocks) }

  lemma StmtPlain(p: Program, c: Ctx, i: Instr)
    requires StmtFrame(p, c) && !i.Phi? && forall b: nat :: Targets(i, b) ==> Joinable(c.blocks, b)
    ensures Open(c) && StmtFrame(p, Append(c, i)) && KeepsFree(c.blocks, Append(c, i).blocks)
  {
    hide Sound, KeepsFree, Joinable, Targets;
    SoundOpen(c);
    AppendSound(c, i);
    FramesTrans(p, c.blocks, Append(c, i).blocks);
  }

  lemma StmtExpr(p: Program, c: Ctx, e: Expr)
    requires StmtFrame(p, c) && Open(c) && GenExpr(c, e).Ok?
    ensures StmtFrame(p, GenExpr(c, e).value.0) && KeepsFree(c.blocks, GenExpr(c, e).value.0.blocks)
  {
    hide Sound, KeepsFree, GenExpr;
    ExprSound(c, e);
    FramesTrans(p, c.blocks, GenExpr(c, e).value.0.blocks);
  }

  lemma KeepsSelf(p: Program)
    ensures KeepsFree(p, p)
  {
  }

  lemma {:induction false} RowSound(p: Program, c: Ctx, es: seq<Expr>)
    requires StmtFrame(p, c) && Open(c) && GenRow(c, es).Ok?
    ensures StmtFrame(p, GenRow(c, es).value.0)
    decreases es
  {
    hide StmtFrame, GenExpr, KeepsFree;
    if es != [] {
      var c1 := GenExpr(c, es[0]).value.0;
      var c2 := GenExpr(c1, es[0]).value.0;
      StmtExpr(p, c, es[0]);
      StmtExpr(p, c1, es[0]);
      RowSound(p, c2, es[1..]);
    }
  }

  lemma {:induction false} StmtSound(p: Program, c: Ctx, s: Stmt)
    requires StmtFrame(p, c) && Open(c) && GenStmt(c, s).Ok?
    ensures StmtFrame(p, GenStmt(c, s).value) && KeepsFree(c.blocks, GenStmt(c, s).value.blocks)
    decreases s, 2
  {
    hide Sound, KeepsFree, GenStmt;
    KeepsSelf(c.blocks);
    StmtSoundFrom(c, s);
    FramesTrans(p, c.blocks, GenStmt(c, s).value.blocks);
  }

  lemma {:induction false} StmtSoundFrom(c: Ctx, s: Stmt)
    requires Sound(c) && KeepsFree(c.blocks, c.blocks) && GenStmt(c, s).Ok?
    ensures StmtFrame(c.blocks, GenStmt(c, s).value)
    decreases s, 1
  {
    hide Sound, KeepsFree, GenExpr, GenRow, GenIf, GenLoop, GenSeq;
    SoundOpen(c);
    match s
    case Block(ss) => SeqSound(c.blocks, c, ss);
    case Transaction(_, ss) =>
      var c1 := Append(c, CallBegin);
      StmtPlain(c.blocks, c, CallBegin);
      SeqSound(c.blocks, c1, ss);
      StmtPlain(c.blocks, GenSeq(c1, ss).value, CallCommit);
    case Let(_, x, e) =>
      var (c1, v) := GenExpr(c, e).value;
      StmtExpr(c.blocks, c, e);
      StmtPlain(c.blocks, c1, Store(v, c.vars[x]));
    case If(_, _, _) => IfSound(c, s);
    case For(init, _, _, _) =>
      if init.JustStmt? {
        var c1 := GenStmt(c, init.s).value;
        StmtSound(c.blocks, c, init.s);
        LoopSound(c1, s);
        FramesTrans(c.blocks, c1.blocks, GenLoop(c1, s).value.blocks);
      } else {
        LoopSound(c, s);
      }
    case Jump(kind) =>
      var b := if kind.BreakJump? then c.loops[0].finish else c.loops[0].every;
      LoopTargets(c, 0);
      StmtPlain(c.blocks, c, Br(b));
    case Emit(Row(es)) =>
      var (c1, row) := GenRow(c, es).value;
      RowSound(c.blocks, c, es);
      StmtPlain(c.blocks, c1, CallEmit(row));
    case Insert(t, Row(es)) =>
      var (c1, row) := GenRow(c, es).value;
      RowSound(c.blocks, c, es);
      StmtPlain(c.blocks, c1, CallInsert(NameBytes(t), row));
    case ExprStmt(e) => StmtExpr(c.blocks, c, e);
    case _ =>
  }

  lemma LoopTargets(c: Ctx, k: nat)
    requires Sound(c) && k < |c.loops|
    ensures Joinable(c.blocks, c.loops[k].begin) && Joinable(c.blocks, c.loops[k].every)
            && Joinable(c.blocks, c.loops[k].finish)
  {
    assert LoopJoinable(c.blocks, c.loops[k]);
  }

  lemma {:induction false} SeqSound(p: Program, c: Ctx, ss: seq<Stmt>)
    requires StmtFrame(p, c) && Open(c) && GenSeq(c, ss).Ok?
    ensures StmtFrame(p, GenSeq(c, ss).value) && KeepsFree(c.blocks, GenSeq(c, ss).value.blocks)
    decreases ss, 0
  {
    hide StmtFrame, GenStmt, KeepsFree;
    KeepsSelf(c.blocks);
    if ss != [] {
      var c1 := GenStmt(c, ss[0]).value;
      StmtSound(p, c, ss[0]);
      SeqSound(p, c1, ss[1..]);
      FramesTrans(c.blocks, c1.blocks, GenSeq(c1, ss[1..]).value.blocks);
    }
  }

  lemma MoveFrame(p: Program, c: Ctx, b: nat)
    requires StmtFrame(p, c) && b < |c.blocks|
    ensures StmtFrame(p, c.(cur := b))
  {
    hide Sound, KeepsFree;
    MoveSound(c, b);
  }

  lemma {:induction false} IfSound(c: Ctx, s: Stmt)
    requires Sound(c) && s.If? && GenIf(c, s).Ok?
    ensures StmtFrame(c.blocks, GenIf(c, s).value)
    ensures var g := IfStagesOf(c, s);
            Sound(g.head) && Sound(g.thn) && Sound(g.thnEnd) && Sound(g.els) && Sound(g.elsEnd)
    decreases s, 0
  {
    hide StmtFrame, Sound, KeepsFree, SameSources, Joinable, GenExpr, GenSeq, ToI1, ExprFrame;
    SoundOpen(c);
    var n := |c.blocks|;
    var c0 := c.(blocks := c.blocks + [[], [], []]);
    AddSound(c, [[], [], []]);
    ExprSound(c0, s.cond);
    var (c1, v) := GenExpr(c0, s.cond).value;
    FrameToI1(c0, c1, v);
    var (c2, v1) := ToI1(c1, v);
    AsStmtFrame(c, c0, c2);
    KeepsJoinable(c0.blocks, c2.blocks, n);
    KeepsJoinable(c0.blocks, c2.blocks, n + 1);
    KeepsJoinable(c0.blocks, c2.blocks, n + 2);
    StmtPlain(c.blocks, c2, CondBr(v1, n, n + 1));
    var c3 := Append(c2, CondBr(v1, n, n + 1)).(cur := n);
    KeepsJoinable(c2.blocks, c3.blocks, n + 2);
    MoveFrame(c.blocks, Append(c2, CondBr(v1, n, n + 1)), n);
    SeqSound(c.blocks, c3, s.thn);
    var c4 := GenSeq(c3, s.thn).value;
    KeepsJoinable(c3.blocks, c4.blocks, n + 2);
    StmtPlain(c.blocks, c4, Br(n + 2));
    var c5 := Append(c4, Br(n + 2)).(cur := n + 1);
    KeepsJoinable(c4.blocks, c5.blocks, n + 2);
    MoveFrame(c.blocks, Append(c4, Br(n + 2)), n + 1);
    var c6 := c5;
    if s.els.ElseBlock? {
      SeqSound(c.blocks, c5, s.els.stmts);
      c6 := GenSeq(c5, s.els.stmts).value;
      KeepsJoinable(c5.blocks, c6.blocks, n + 2);
    }
    StmtPlain(c.blocks, c6, Br(n + 2));
    MoveFrame(c.blocks, Append(c6, Br(n + 2)), n + 2);
    FrameSound(c.blocks, c2);
    FrameSound(c.blocks, c3);
    FrameSound(c.blocks, c4);
    FrameSound(c.blocks, c5);
    FrameSound(c.blocks, c6);
  }

  lemma FrameSound(p: Program, c: Ctx)
    requires StmtFrame(p, c)
    ensures Sound(c)
  {
  }

  lemma AsStmtFrame(c: Ctx, c0: Ctx, c2: Ctx)
    requires KeepsFree(c.blocks, c0.blocks) && ExprFrame(c0, c2)
    ensures StmtFrame(c.blocks, c2) && KeepsFree(c0.blocks, c2.blocks)
  {
    hide Sound, KeepsFree, SameSources;
    FramesTrans(c.blocks, c0.blocks, c2.blocks);
  }

  lemma EnterSound(c: Ctx)
    requires Sound(c)
    ensures StmtFrame(c.blocks, EnterLoop(c)) && Joinable(EnterLoop(c).blocks, |c.blocks| + 1)
  {
    hide KeepsFree, SameSources, Sources, PhiFree;
    var n := |c.blocks|;
    AddSound(c, [[], [], [], []]);
    var c0 := c.(blocks := c.blocks + [[], [], [], []], loops := EnterLoop(c).loops);
    forall k | 0 <= k < |c0.loops| ensures LoopJoinable(c0.blocks, c0.loops[k]) {
      if k > 0 { assert LoopJoinable(c.(blocks := c0.blocks).blocks, c.loops[k - 1]); }
    }
    assert Sound(c0);
    StmtPlain(c.blocks, c0, Br(n));
    KeepsJoinable(c0.blocks, Append(c0, Br(n)).blocks, n + 1);
    MoveFrame(c.blocks, Append(c0, Br(n)), n);
  }

  lemma ExitSound(p: Program, c: Ctx, loops: seq<LoopBlocks>)
    requires StmtFrame(p, c) && c.loops != [] && loops == c.loops[1..]
    ensures StmtFrame(p, c.(loops := loops))
  {
    hide KeepsFree, Sources, LoopJoinable;
    forall k | 0 <= k < |loops| ensures LoopJoinable(c.blocks, loops[k]) {
      assert LoopJoinable(c.blocks, c.loops[k + 1]);
    }
  }

  lemma TestSound(p: Program, c: Ctx, test: MaybeExpr)
    requires StmtFrame(p, c) && Open(c) && c.loops != [] && Joinable(c.blocks, c.loops[0].body)
             && GenTest(c, c.loops[0], test).Ok?
    ensures StmtFrame(p, GenTest(c, c.loops[0], test).value) && c.loops[0].body < |c.blocks|
  {
    hide KeepsFree, GenExpr, Sound, PhiFree;
    var loop := c.loops[0];
    if test.JustExpr? {
      var (c1, v) := GenExpr(c, test.e).value;
      StmtExpr(p, c, test.e);
      KeepsJoinable(c.blocks, c1.blocks, loop.body);
      LoopTargets(c1, 0);
      StmtPlain(p, c1, CondBr(v, loop.body, loop.finish));
    }
  }

  lemma EverySound(p: Program, c: Ctx, every: MaybeExpr)
    requires StmtFrame(p, c) && Open(c) && GenEvery(c, every).Ok?
    ensures StmtFrame(p, GenEvery(c, every).value)
  {
    hide StmtFrame, GenExpr;
    if every.JustExpr? { StmtExpr(p, c, every.e); }
  }

  lemma FrameTargets(p: Program, c: Ctx, k: nat)
    requires StmtFrame(p, c) && k < |c.loops|
    ensures Joinable(c.blocks, c.loops[k].begin) && Joinable(c.blocks, c.loops[k].every)
            && Joinable(c.blocks, c.loops[k].finish)
    ensures c.loops[k].every < |c.blocks| && c.loops[k].finish < |c.blocks|
  {
    hide Sound, PhiFree;
    LoopTargets(c, k);
  }

  lemma {:induction false} LoopSound(c: Ctx, s: Stmt)
    requires Sound(c) && s.For? && GenLoop(c, s).Ok?
    ensures StmtFrame(c.blocks, GenLoop(c, s).value)
    ensures var g := LoopStagesOf(c, s);
            && Sound(g.begin) && Sound(g.test) && Sound(g.body) && Sound(g.bodyEnd)
            && Sound(g.every) && Sound(g.everyEnd)
    decreases s, 0
  {
    hide StmtFrame, Sound, KeepsFree, Joinable, GenExpr, GenSeq, GenTest, GenEvery, EnterLoop;
    SoundOpen(c);
    var p := c.blocks;
    var c1 := EnterLoop(c);
    var loop := c1.loops[0];
    EnterSound(c);
    TestSound(p, c1, s.test);
    var c2 := GenTest(c1, loop, s.test).value;
    MoveFrame(p, c2, loop.body);
    SeqSound(p, c2.(cur := loop.body), s.body);
    var c3 := GenSeq(c2.(cur := loop.body), s.body).value;
    FrameTargets(p, c3, 0);
    StmtPlain(p, c3, Br(loop.every));
    MoveFrame(p, Append(c3, Br(loop.every)), loop.every);
    var c4 := Append(c3, Br(loop.every)).(cur := loop.every);
    EverySound(p, c4, s.every);
    var c5 := GenEvery(c4, s.every).value;
    FrameTargets(p, c5, 0);
    StmtPlain(p, c5, Br(loop.begin));
    MoveFrame(p, Append(c5, Br(loop.begin)), loop.finish);
    ExitSound(p, Append(c5, Br(loop.begin)).(cur := loop.finish), c5.loops[1..]);
    FrameSound(p, c1);
    FrameSound(p, c2);
    FrameSound(p, c2.(cur := loop.body));
    FrameSound(p, c3);
    FrameSound(p, c4);
    FrameSound(p, c5);
  }

  // The whole program.

  lemma AllocatedSound(c: Ctx)
    requires Allocated(c)
    ensures StmtFrame(c.blocks, c)
  {
    assert forall b: nat :: Sources(c.blocks, b) == {};
  }
}
