/** The whole compilation: analyze, allocate, generate, return. */
module Compiler {
  import opened Ast
  import opened Machine
  import opened Semantics
  import opened Codegen
  import opened Growth
  import opened Lowerable
  import opened Simulation
  import opened StmtSimulation
  import opened Analysis

  /** The builder at the start of the entry block. */
  function Entry(): (c: Ctx)
    ensures Open(c)
  {
    Ctx([[]], 0, 0, map[], [], map[])
  }

  function Compile(prog: seq<Stmt>): Result<Program> {
    var _ :- AnalyzeSeq(NoTypes, prog);
    var c1 :- AllocSeq(Entry(), prog);
    var c2 :- GenSeq(c1, prog);
    Ok(Append(c2, Ret).blocks)
  }

  // Allocation: only stack slots in the entry block, one slot per name.

  ghost predicate Allocated(c: Ctx) {
    && Open(c) && c.cur == 0 && |c.blocks| == 1 && c.loops == []
    && (forall i :: 0 <= i < |c.blocks[0]| ==> c.blocks[0][i].Alloca?)
    && (forall x :: x in c.vars ==> c.vars[x] < c.next)
    && Injective(c.vars)
  }

  lemma EntryAllocated()
    ensures Allocated(Entry())
  {
  }

  lemma AllocatedOpen(c: Ctx)
    requires Allocated(c)
    ensures Open(c)
  {
  }

  lemma {:induction false} AllocStmtKeeps(c: Ctx, s: Stmt)
    requires Allocated(c) && AllocStmt(c, s).Ok?
    ensures Allocated(AllocStmt(c, s).value) && c.vars.Keys <= AllocStmt(c, s).value.vars.Keys
    decreases s
  {
    match s
    case For(init, _, _, _) => if init.JustStmt? { AllocStmtKeeps(c, init.s); }
    case _ =>
  }

  lemma {:induction false} AllocInsideKeeps(c: Ctx, s: Stmt)
    requires Allocated(c) && AllocInside(c, s).Ok?
    ensures Allocated(AllocInside(c, s).value) && c.vars.Keys <= AllocInside(c, s).value.vars.Keys
    decreases s, 1
  {
    match s
    case Block(ss) => AllocKeeps(c, ss);
    case Transaction(_, ss) => AllocKeeps(c, ss);
    case If(_, thn, els) =>
      AllocKeeps(c, thn);
      if els.ElseBlock? { AllocKeeps(AllocSeq(c, thn).value, els.stmts); }
    case For(init, _, _, body) =>
      if init.JustStmt? {
        AllocStmtKeeps(c, init.s);
        AllocKeeps(AllocStmt(c, init.s).value, body);
      } else {
        AllocKeeps(c, body);
      }
    case _ =>
  }

  /** Variables end up in distinct slots, although a name declared twice is
      allocated twice. */
  lemma {:induction false} AllocKeeps(c: Ctx, ss: seq<Stmt>)
    requires Allocated(c) && AllocSeq(c, ss).Ok?
    ensures Allocated(AllocSeq(c, ss).value) && c.vars.Keys <= AllocSeq(c, ss).value.vars.Keys
    decreases ss, 0
  {
    if ss != [] {
      AllocStmtKeeps(c, ss[0]);
      AllocInsideKeeps(AllocStmt(c, ss[0]).value, ss[0]);
      AllocKeeps(AllocInside(AllocStmt(c, ss[0]).value, ss[0]).value, ss[1..]);
    }
  }

  /** The entry block first runs through its allocations. */
  lemma {:induction false} RunAllocs(p: Program, c: Ctx, n: nat) returns (k: Conf)
    requires Allocated(c) && Embeds(p, c.blocks) && n <= |c.blocks[0]|
    ensures Run(p, Start(), n) == Some(k)
    ensures k.blk == 0 && k.idx == n && k.mem == map[] && k.out == [] && k.regs == map[]
  {
    assert BlockIn(p, c.blocks, 0);
    k := Start();
    if n > 0 {
      var k0 := RunAllocs(p, c, n - 1);
      assert p[0][n - 1] == c.blocks[0][n - 1];
      k := k0.(idx := n);
      assert k0.mem - {c.blocks[0][n - 1].slot} == map[];
      RunStep(p, Start(), n - 1, k0, k);
    }
  }

  // The compiled program against its meaning.

  function Init(rows: RowMode): State { State(map[], [], rows) }

  /** The stack slots of the compiled program. */
  ghost function SlotsOf(prog: seq<Stmt>): map<string, nat>
    requires Compile(prog).Ok?
  {
    AllocSeq(Entry(), prog).value.vars
  }

  /** Every outcome of the source program is the outcome of the blocks: a
      completed run halts with the same variables and the same events, a stuck
      run faults, and `fuel` iterations take at least `fuel` steps. */
  lemma CompiledRuns(prog: seq<Stmt>, fuel: nat) returns (n: nat, k: Conf)
    requires Compile(prog).Ok? && WidthsOkSeq(prog)
    ensures var p := Compile(prog).value;
            && Run(p, Start(), n) == Some(k)
            && match ExecSeq(prog, Init(Twice), fuel)
               case Done(sig, st) => sig.Normal? && Halted(p, k) && Rel(k.mem, k.out, st, SlotsOf(prog))
               case Stuck => Faulted(p, k)
               case Timeout => n >= fuel
  {
    hide GenSeq, AllocSeq, AnalyzeSeq, ExecSeq, WidthsOkSeq, Run, Embeds, Grows;
    var p := Compile(prog).value;
    var c1 := AllocSeq(Entry(), prog).value;
    AllocKeeps(Entry(), prog);
    var c2 := GenSeq(c1, prog).value;
    SeqGrows(c1, prog);
    EmbedsSelf(Append(c2, Ret).blocks);
    GrowsSelf(c2); AppendGrows(c2, c2, Ret);
    EmbedsBack(p, c2, Append(c2, Ret));
    EmbedsBack(p, c1, c2);
    var n0 := |c1.blocks[0]|;
    var k0 := RunAllocs(p, c1, n0);
    n, k := SimSeq(p, c1, prog, k0, Init(Twice), fuel);
    RunThen(p, Start(), n0, k0, n, k);
    n := n0 + n;
    var r := ExecSeq(prog, Init(Twice), fuel);
    if r.Done? && r.sig.Normal? {
      NextInstr(p, c2, Ret, k);
    }
  }

  lemma EmbedsSelf(p: Program)
    ensures Embeds(p, p)
  {
  }
}
