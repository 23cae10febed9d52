/** The compiler as it runs: one mutable context whose methods move the
    insertion point, append instructions, fill the tables and push and pop the
    loop stack. Each method is tied to its function. */
module Builder {
  import opened Ast
  import opened Bytes
  import opened Rows
  import opened Machine
  import opened Codegen
  import Analysis
  import Compiler

  class CompilerContext {
    var blocks: Program
    var cur: nat
    var next: nat
    var vars: map<string, nat>
    var types: Analysis.TypeEnv
    var loops: seq<LoopBlocks>
    var tables: map<bytes, seq<Attr>>

    /** The builder part of the context as a value. */
    ghost function View(): Ctx
      reads this
    {
      Ctx(blocks, cur, next, vars, loops, tables)
    }

    /** A step that returns a value: on success the new context and the value are
        the specified ones, an exception is the specified exception. */
    ghost predicate Gave<T>(r: Result<T>, spec: Result<(Ctx, T)>)
      reads this
    {
      match spec
      case Err(e) => r == Err(e)
      case Ok((c, x)) => r == Ok(x) && View() == c
    }

    ghost predicate Went(r: Result<()>, spec: Result<Ctx>)
      reads this
    {
      match spec
      case Err(e) => r == Err(e)
      case Ok(c) => r == Ok(()) && View() == c
    }

    constructor ()
      ensures View() == Compiler.Entry() && types == Analysis.NoTypes
    {
      blocks, cur, next, vars, types, loops, tables := [[]], 0, 0, map[], Analysis.NoTypes, [], map[];
    }

    // The instruction builder.

    method Insert(i: Instr)
      requires Open(View())
      modifies this`blocks
      ensures View() == Append(old(View()), i)
    {
      blocks := blocks[cur := blocks[cur] + [i]];
    }

    /** Inserts an instruction that defines the next value number. */
    method InsertDef(i: Instr)
      requires Open(View())
      modifies this`blocks, this`next
      ensures View() == AppendDef(old(View()), i)
    {
      blocks := blocks[cur := blocks[cur] + [i]];
      next := next + 1;
    }

    method NewBlock() returns (b: nat)
      modifies this`blocks
      ensures b == |old(blocks)| && View() == old(View()).(blocks := old(blocks) + [[]])
    {
      b := |blocks|;
      blocks := blocks + [[]];
    }

    method SetInsertPoint(b: nat)
      requires b < |blocks|
      modifies this`cur
      ensures View() == old(View()).(cur := b)
    {
      cur := b;
    }

    method EnterLoop(begin: nat, body: nat, every: nat, finish: nat)
      modifies this`loops
      ensures View() == old(View()).(loops := [LoopBlocks(begin, body, every, finish)] + old(loops))
    {
      loops := [LoopBlocks(begin, body, every, finish)] + loops;
    }

    method ExitLoop()
      requires loops != []
      modifies this`loops
      ensures View() == old(View()).(loops := old(loops)[1..])
    {
      loops := loops[1..];
    }

    // Expressions.

    method ToI1(o: Operand) returns (r: Operand)
      requires Open(View())
      modifies this`blocks, this`next
      ensures (View(), r) == Codegen.ToI1(old(View()), o)
    {
      if o.Reg? && o.width.W1? { return o; }
      var v := next;
      InsertDef(Bin(v, NotEqual, o, Imm(0)));
      return Reg(v, W1);
    }

    method GenExpr(e: Expr) returns (r: Result<Operand>)
      requires Open(View())
      modifies this`blocks, this`cur, this`next
      ensures Gave(r, Codegen.GenExpr(old(View()), e))
      decreases e, 1
    {
      hide Codegen.GenCond;
      match e
      case Num(n) => return Ok(Imm(n));
      case Var(x) =>
        if x !in vars { return Err("value not defined"); }
        var v := next;
        InsertDef(Load(v, vars[x]));
        return Ok(Reg(v, W64));
      case Binary(op, _, _) =>
        if op.IsCond() { r := GenCond(e); } else { r := GenStrict(e); }
      case Assign(Var(x), e1) =>
        if x !in vars { return Err("value not defined"); }
        var o :- GenExpr(e1);
        Insert(Store(o, vars[x]));
        var v := next;
        InsertDef(Load(v, vars[x]));
        return Ok(Reg(v, W64));
      case Call(Var(f), args) =>
        if f != "print_int" || |args| != 1 { return Err("undefined function"); }
        var o :- GenExpr(args[0]);
        if o.NoValue? { return Err("unexpected argument type"); }
        Insert(CallPrint([o]));
        return Ok(NoValue);
      case _ => return Err("outside the integer fragment");
    }

    method GenStrict(e: Expr) returns (r: Result<Operand>)
      requires Open(View()) && e.Binary? && !e.op.IsCond()
      modifies this`blocks, this`cur, this`next
      ensures Gave(r, Codegen.GenExpr(old(View()), e))
      decreases e, 0
    {
      var a :- GenExpr(e.lhs);
      var b :- GenExpr(e.rhs);
      var v := next;
      InsertDef(Bin(v, e.op, a, b));
      return Ok(Reg(v, if e.op.IsArith() then W64 else W1));
    }

    method GenCond(e: Expr) returns (r: Result<Operand>)
      requires Open(View()) && e.Binary?
      modifies this`blocks, this`cur, this`next
      ensures Gave(r, Codegen.GenCond(old(View()), e))
      decreases e, 0
    {
      hide Codegen.GenExpr, Codegen.ToI1, Append;
      ghost var c := View();
      var next_blk := NewBlock();
      var fin := NewBlock();
      assert View() == c.(blocks := c.blocks + [[], []]);
      var a :- GenExpr(e.lhs);
      var a1 := ToI1(a);
      var left := cur;
      Insert(if e.op.CondAnd? then CondBr(a1, next_blk, fin) else CondBr(a1, fin, next_blk));
      SetInsertPoint(next_blk);
      var b :- GenExpr(e.rhs);
      var b1 := ToI1(b);
      var right := cur;
      Insert(Br(fin));
      SetInsertPoint(fin);
      var v := next;
      InsertDef(Phi(v, a1, left, b1, right));
      return Ok(Reg(v, W1));
    }

    /** Every element is generated twice. */
    method GenRow(es: seq<Expr>) returns (r: Result<seq<Operand>>)
      requires Open(View())
      modifies this`blocks, this`cur, this`next
      ensures Gave(r, Codegen.GenRow(old(View()), es))
    {
      hide Codegen.GenExpr;
      var row: seq<Operand> := [];
      ghost var spec := Codegen.GenRow(View(), es);
      RowNone(spec);
      for i := 0 to |es|
        invariant Open(View()) && vars == old(vars) && loops == old(loops) && tables == old(tables)
        invariant spec == Rowed(row, Codegen.GenRow(View(), es[i..]))
      {
        RowGoesOn(View(), es[i..], row);
        assert es[i..][1..] == es[i + 1..];
        var _ :- GenExpr(es[i]);
        var o :- GenExpr(es[i]);
        row := row + [o];
      }
      assert row + [] == row;
      return Ok(row);
    }

    // Statements.

    method GenStmt(s: Stmt) returns (r: Result<()>)
      requires Open(View())
      modifies this`blocks, this`cur, this`next, this`loops
      ensures Went(r, Codegen.GenStmt(old(View()), s))
      decreases s, 1
    {
      hide Codegen.GenExpr, Codegen.GenIf, Codegen.GenLoop, Codegen.GenSeq, Codegen.GenRow, Append, Unbuffered,
           NameBytes, GetSlot;
      match s
      case Block(ss) => r := GenSeq(ss);
      case Transaction(_, ss) =>
        Insert(CallBegin);
        var _ :- GenSeq(ss);
        Insert(CallCommit);
        return Ok(());
      case Let(_, x, e) =>
        var _ :- GetSlot(vars, e);
        if x !in vars { return Err("value not defined"); }
        var o :- GenExpr(e);
        Insert(Store(o, vars[x]));
        return Ok(());
      case If(_, _, _) => r := GenIf(s);
      case For(init, _, _, _) =>
        if init.JustStmt? {
          if Unbuffered(init.s) { return Err("no buffers"); }
          var _ :- GenStmt(init.s);
        }
        r := GenLoop(s);
      case Jump(kind) =>
        if loops == [] { return Err("jump outside of a loop"); }
        Insert(Br(if kind.BreakJump? then loops[0].finish else loops[0].every));
        return Ok(());
      case Emit(Row(_)) => r := GenRowStmt(s);
      case Insert(_, Row(_)) => r := GenRowStmt(s);
      case Define(_, _) => return Ok(());
      case ExprStmt(e) =>
        var _ :- GenExpr(e);
        return Ok(());
      case _ => return Err("outside the integer fragment");
    }

    /** An emitted or inserted row. */
    method GenRowStmt(s: Stmt) returns (r: Result<()>)
      requires Open(View()) && (s.Emit? || s.Insert?) && s.value.Row?
      modifies this`blocks, this`cur, this`next
      ensures Went(r, Codegen.GenStmt(old(View()), s))
    {
      hide Codegen.GenRow, GetSlots, NameBytes;
      if s.Insert? {
        if NameBytes(s.table) !in tables { return Err("undefined table"); }
        if |tables[NameBytes(s.table)]| < |s.value.elements| { return Err("no such column"); }
      }
      var _ :- GetSlots(vars, s.value.elements);
      var row :- GenRow(s.value.elements);
      Insert(if s.Emit? then CallEmit(row) else CallInsert(NameBytes(s.table), row));
      return Ok(());
    }

    method GenSeq(ss: seq<Stmt>) returns (r: Result<()>)
      requires Open(View())
      modifies this`blocks, this`cur, this`next, this`loops
      ensures Went(r, Codegen.GenSeq(old(View()), ss))
      decreases ss, 0
    {
      hide Codegen.GenStmt;
      ghost var spec := Codegen.GenSeq(View(), ss);
      for i := 0 to |ss|
        invariant Open(View()) && vars == old(vars) && tables == old(tables)
        invariant spec == Codegen.GenSeq(View(), ss[i..])
      {
        assert ss[i..][1..] == ss[i + 1..];
        var _ :- GenStmt(ss[i]);
      }
      return Ok(());
    }

    method GenIf(s: Stmt) returns (r: Result<()>)
      requires Open(View()) && s.If?
      modifies this`blocks, this`cur, this`next, this`loops
      ensures Went(r, Codegen.GenIf(old(View()), s))
      decreases s, 0
    {
      hide Codegen.GenExpr, Codegen.GenSeq, Codegen.ToI1, Branch, Append, Codegen.GenIf;
      ghost var c := View();
      IfBranches(c, s);
      var t := NewBlock();
      var f := NewBlock();
      var fin := NewBlock();
      assert View() == c.(blocks := c.blocks + [[], [], []]);
      var o :- GenExpr(s.cond);
      var o1 := ToI1(o);
      Insert(CondBr(o1, t, f));
      var _ :- GenBranch(t, s.thn, fin);
      if s.els.ElseBlock? {
        var _ :- GenBranch(f, s.els.stmts, fin);
      } else {
        SetInsertPoint(f);
        Insert(Br(fin));
      }
      SetInsertPoint(fin);
      return Ok(());
    }

    method GenBranch(b: nat, ss: seq<Stmt>, fin: nat) returns (r: Result<()>)
      requires b < |blocks|
      modifies this`blocks, this`cur, this`next, this`loops
      ensures Went(r, Branch(old(View()), b, ss, fin))
      decreases ss, 1
    {
      hide Codegen.GenSeq;
      SetInsertPoint(b);
      var _ :- GenSeq(ss);
      Insert(Br(fin));
      return Ok(());
    }

    method GenLoop(s: Stmt) returns (r: Result<()>)
      requires Open(View()) && s.For?
      modifies this`blocks, this`cur, this`next, this`loops
      ensures Went(r, Codegen.GenLoop(old(View()), s))
      decreases s, 0
    {
      hide Codegen.GenExpr, Codegen.GenSeq, Codegen.GenTest, Codegen.GenEvery, Codegen.EnterLoop, Append;
      var loop := BeginLoop();
      var _ :- GenTest(loop, s.test);
      SetInsertPoint(loop.body);
      var _ :- GenSeq(s.body);
      Insert(Br(loop.every));
      SetInsertPoint(loop.every);
      var _ :- GenEvery(s.every);
      Insert(Br(loop.begin));
      SetInsertPoint(loop.finish);
      ExitLoop();
      return Ok(());
    }

    /** The four blocks of a loop and the branch to its head. */
    method BeginLoop() returns (loop: LoopBlocks)
      requires Open(View())
      modifies this`blocks, this`cur, this`loops
      ensures View() == Codegen.EnterLoop(old(View())) && loop == loops[0]
    {
      ghost var c := View();
      var begin := NewBlock();
      var body := NewBlock();
      var every := NewBlock();
      var finish := NewBlock();
      assert blocks == c.blocks + [[], [], [], []];
      EnterLoop(begin, body, every, finish);
      Insert(Br(begin));
      SetInsertPoint(begin);
      loop := loops[0];
    }

    method GenTest(loop: LoopBlocks, test: MaybeExpr) returns (r: Result<()>)
      requires Open(View())
      modifies this`blocks, this`cur, this`next
      ensures Went(r, Codegen.GenTest(old(View()), loop, test))
    {
      hide Codegen.GenExpr;
      if test.JustExpr? {
        var o :- GenExpr(test.e);
        Insert(CondBr(o, loop.body, loop.finish));
      }
      return Ok(());
    }

    method GenEvery(every: MaybeExpr) returns (r: Result<()>)
      requires Open(View())
      modifies this`blocks, this`cur, this`next
      ensures Went(r, Codegen.GenEvery(old(View()), every))
    {
      hide Codegen.GenExpr;
      if every.JustExpr? {
        var _ :- GenExpr(every.e);
      }
      return Ok(());
    }

    // Analysis and allocation.

    method AnalyzeExpr(e: Expr) returns (r: Result<Analysis.Ty>)
      ensures r == Analysis.AnalyzeExpr(types, e)
      decreases e, 1
    {
      match e
      case Num(_) => return Ok(Analysis.IntegerOf(types));
      case Var(x) => return if x in types.vars then Ok(types.vars[x]) else Err("undefined variable referenced");
      case Binary(op, lhs, rhs) =>
        var l :- AnalyzeExpr(lhs);
        var t :- AnalyzeExpr(rhs);
        return Analysis.OperateTy(types, l, t, op);
      case Assign(t, v) =>
        var _ :- AnalyzeExpr(t);
        r := AnalyzeExpr(v);
      case Call(_, args) =>
        var _ :- AnalyzeAll(args);
        return Ok(Analysis.IntegerOf(types));
      case _ => return Err("outside the integer fragment");
    }

    method AnalyzeAll(es: seq<Expr>) returns (r: Result<()>)
      ensures r == Analysis.AnalyzeAll(types, es)
      decreases es, 0
    {
      hide Analysis.AnalyzeExpr;
      for i := 0 to |es|
        invariant Analysis.AnalyzeAll(types, es[i..]) == Analysis.AnalyzeAll(types, es)
      {
        assert es[i..][1..] == es[i + 1..];
        var _ :- AnalyzeExpr(es[i]);
      }
      return Ok(());
    }

    /** The type table after a step of the analysis. */
    ghost predicate Typed(r: Result<()>, spec: Result<Analysis.TypeEnv>)
      reads this
    {
      match spec
      case Err(e) => r == Err(e)
      case Ok(env) => r == Ok(()) && types == env
    }

    method AnalyzeStmt(s: Stmt) returns (r: Result<()>)
      modifies this`types
      ensures Typed(r, Analysis.AnalyzeStmt(old(types), s))
      decreases s, 1
    {
      hide Analysis.AnalyzeExpr, Analysis.AnalyzeSeq, Analysis.AnalyzeAll;
      match s
      case Block(ss) => r := AnalyzeSeq(ss);
      case Transaction(_, ss) => r := AnalyzeSeq(ss);
      case Let(ty, x, e) =>
        var t :- AnalyzeExpr(e);
        if !ty.NoType? { return Err("unknown type variable"); }
        types := types.(vars := types.vars[x := t]);
        return Ok(());
      case If(e, thn, els) =>
        var _ :- AnalyzeExpr(e);
        var _ :- AnalyzeSeq(thn);
        if els.ElseBlock? { r := AnalyzeSeq(els.stmts); } else { return Ok(()); }
      case For(init, test, every, body) =>
        if init.JustStmt? {
          var _ :- AnalyzeStmt(init.s);
        }
        var _ :- AnalyzeMaybe(test);
        var _ :- AnalyzeMaybe(every);
        r := AnalyzeSeq(body);
      case Jump(_) => return Ok(());
      case Emit(Row(es)) =>
        var _ :- AnalyzeAll(es);
        return Ok(());
      case Insert(_, Row(es)) =>
        var _ :- AnalyzeAll(es);
        return Ok(());
      case Define(t, name) =>
        if !Analysis.IntTable(t) || !Analysis.IntegerOf(types).IntegerTy? {
          return Err("outside the integer fragment");
        }
        types := types.(taken := types.taken + {name});
        return Ok(());
      case ExprStmt(e) =>
        var _ :- AnalyzeExpr(e);
        return Ok(());
      case _ => return Err("outside the integer fragment");
    }

    method AnalyzeMaybe(e: MaybeExpr) returns (r: Result<()>)
      ensures r == Analysis.AnalyzeMaybe(types, e)
    {
      if e.JustExpr? {
        var _ :- AnalyzeExpr(e.e);
      }
      return Ok(());
    }

    method AnalyzeSeq(ss: seq<Stmt>) returns (r: Result<()>)
      modifies this`types
      ensures Typed(r, Analysis.AnalyzeSeq(old(types), ss))
      decreases ss, 0
    {
      hide Analysis.AnalyzeStmt;
      ghost var spec := Analysis.AnalyzeSeq(types, ss);
      for i := 0 to |ss|
        invariant spec == Analysis.AnalyzeSeq(types, ss[i..])
      {
        assert ss[i..][1..] == ss[i + 1..];
        var _ :- AnalyzeStmt(ss[i]);
      }
      return Ok(());
    }

    method AllocStmt(s: Stmt) returns (r: Result<()>)
      requires Open(View())
      modifies this`blocks, this`next, this`vars, this`tables
      ensures Went(r, Analysis.AllocStmt(old(View()), s))
      decreases s
    {
      hide GetType, GetSlot, GetSlots, Analysis.GetNested;
      match s {
      case Let(_, x, e) =>
        var _ :- GetSlot(vars, e);
        var slot := next;
        InsertDef(Alloca(slot));
        vars := vars[x := slot];
      case For(init, _, _, _) => if init.JustStmt? { r := AllocStmt(init.s); return; }
      case Emit(Row(es)) => var _ :- GetSlots(vars, es);
      case Insert(t, Row(es)) =>
        if NameBytes(t) !in tables { return Err("undefined table"); }
        var _ :- GetSlots(vars, es);
      case Define(t, name) =>
        if !Analysis.IntTable(t) { return Err("outside the integer fragment"); }
        tables := tables[NameBytes(name) := Analysis.AttrsOf(t.t.columns)];
      case ExprStmt(e) =>
        var _ :- GetType(vars, e);
        var _ :- Analysis.GetNested(vars, e);
      case DefineTuple(_, _) => return Err("outside the integer fragment");
      case Insert(_, _) => return Err("outside the integer fragment");
      case Scan(_, _, _) => return Err("outside the integer fragment");
      case Emit(_) => return Err("outside the integer fragment");
      case _ =>
      }
      return Ok(());
    }

    method AllocInside(s: Stmt) returns (r: Result<()>)
      requires Open(View())
      modifies this`blocks, this`next, this`vars, this`tables
      ensures Went(r, Analysis.AllocInside(old(View()), s))
      decreases s, 1
    {
      hide Analysis.AllocStmt, Analysis.AllocSeq;
      match s
      case Block(ss) => r := AllocSeq(ss);
      case Transaction(_, ss) => r := AllocSeq(ss);
      case If(_, thn, els) =>
        var _ :- AllocSeq(thn);
        if els.ElseBlock? { r := AllocSeq(els.stmts); } else { return Ok(()); }
      case For(init, _, _, body) =>
        if init.JustStmt? {
          if Analysis.Reinserts(init.s) { return Err("key_stack is already initialized"); }
          var _ :- AllocStmt(init.s);
        }
        r := AllocSeq(body);
      case _ => return Ok(());
    }

    method AllocSeq(ss: seq<Stmt>) returns (r: Result<()>)
      requires Open(View())
      modifies this`blocks, this`next, this`vars, this`tables
      ensures Went(r, Analysis.AllocSeq(old(View()), ss))
      decreases ss, 0
    {
      hide Analysis.AllocStmt, Analysis.AllocInside;
      ghost var spec := Analysis.AllocSeq(View(), ss);
      for i := 0 to |ss|
        invariant Open(View()) && spec == Analysis.AllocSeq(View(), ss[i..])
      {
        assert ss[i..][1..] == ss[i + 1..];
        var _ :- AllocStmt(ss[i]);
        var _ :- AllocInside(ss[i]);
      }
      return Ok(());
    }

    /** Analyze, allocate, generate, return. */
    method Compile(prog: seq<Stmt>) returns (r: Result<Program>)
      requires View() == Compiler.Entry() && types == Analysis.NoTypes
      modifies this
      ensures r == Compiler.Compile(prog)
    {
      hide Analysis.AnalyzeSeq, Analysis.AllocSeq, Codegen.GenSeq;
      var _ :- AnalyzeSeq(prog);
      var _ :- AllocSeq(prog);
      var _ :- GenSeq(prog);
      Insert(Ret);
      return Ok(blocks);
    }
  }

  ghost function Branch(c: Ctx, b: nat, ss: seq<Stmt>, fin: nat): (r: Result<Ctx>)
    requires b < |c.blocks|
    ensures r.Ok? ==> Open(r.value) && |c.blocks| <= |r.value.blocks| && r.value.loops == c.loops
  {
    var c1 :- Codegen.GenSeq(c.(cur := b), ss);
    Ok(Append(c1, Br(fin)))
  }

  /** An If statement as a branch instruction and two branches. */
  lemma IfBranches(c: Ctx, s: Stmt)
    requires Open(c) && s.If?
    ensures var n := |c.blocks|;
            var test := Codegen.GenExpr(c.(blocks := c.blocks + [[], [], []]), s.cond);
            if test.Err? then Codegen.GenIf(c, s) == Err(test.error)
            else
              var (c2, v1) := Codegen.ToI1(test.value.0, test.value.1);
              var thn := Branch(Append(c2, CondBr(v1, n, n + 1)), n, s.thn, n + 2);
              if thn.Err? then Codegen.GenIf(c, s) == Err(thn.error)
              else if s.els.NoElse? then
                Codegen.GenIf(c, s) == Ok(Append(thn.value.(cur := n + 1), Br(n + 2)).(cur := n + 2))
              else
                var els := Branch(thn.value, n + 1, s.els.stmts, n + 2);
                Codegen.GenIf(c, s) == if els.Err? then Err(els.error) else Ok(els.value.(cur := n + 2))
  {
    hide Codegen.GenExpr, Codegen.GenSeq, Codegen.ToI1;
  }

  ghost function Rowed(row: seq<Operand>, spec: Result<(Ctx, seq<Operand>)>): Result<(Ctx, seq<Operand>)> {
    match spec
    case Err(e) => Err(e)
    case Ok((c, more)) => Ok((c, row + more))
  }

  lemma RowNone(spec: Result<(Ctx, seq<Operand>)>)
    ensures Rowed([], spec) == spec
  {
    if spec.Ok? { assert [] + spec.value.1 == spec.value.1; }
  }

  lemma RowGoesOn(c: Ctx, es: seq<Expr>, row: seq<Operand>)
    requires Open(c) && es != []
    ensures var once := Codegen.GenExpr(c, es[0]);
            if once.Err? then Rowed(row, Codegen.GenRow(c, es)) == Err(once.error)
            else
              var twice := Codegen.GenExpr(once.value.0, es[0]);
              if twice.Err? then Rowed(row, Codegen.GenRow(c, es)) == Err(twice.error)
              else
                Rowed(row, Codegen.GenRow(c, es)) ==
                Rowed(row + [twice.value.1], Codegen.GenRow(twice.value.0, es[1..]))
  {
    hide Codegen.GenExpr;
    var once := Codegen.GenExpr(c, es[0]);
    if once.Ok? {
      var twice := Codegen.GenExpr(once.value.0, es[0]);
      if twice.Ok? {
        var more := Codegen.GenRow(twice.value.0, es[1..]);
        if more.Ok? { assert row + ([twice.value.1] + more.value.1) == row + [twice.value.1] + more.value.1; }
      }
    }
  }
}
