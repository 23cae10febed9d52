/** 64-bit two's-complement arithmetic as the emitted instructions perform it. */
module Int64 {
  const TWO_63: int := 0x8000_0000_0000_0000
  const TWO_64: int := 0x1_0000_0000_0000_0000

  predicate IsInt64(n: int) { -TWO_63 <= n < TWO_63 }

  /** The 64-bit value congruent to `n`. */
  function Wrap(n: int): (r: int)
    ensures IsInt64(r)
    ensures (r - n) % TWO_64 == 0
    ensures IsInt64(n) ==> r == n
  {
    var m := n % TWO_64;
    if m < TWO_63 then m else m - TWO_64
  }

  /** Quotient truncated toward zero (the machine's signed division). */
  function TruncDiv(a: int, b: int): int
    requires b != 0
  {
    var q := Abs(a) / Abs(b);
    if (a < 0) == (b < 0) then q else -q
  }

  function Abs(a: int): nat { if a < 0 then -a else a }
}

/** Runtime values, events and operators, shared by the source interpreter and
    the block machine. */
module Values {
  import opened Ast
  import opened Int64
  import opened Bytes

  datatype Value = IntVal(n: int) | BoolVal(b: bool) | UnitVal

  /** What a run shows to the outside: printed numbers, emitted rows, and the calls
      to the database. */
  datatype Event =
    Printed(n: int) | Emitted(row: seq<int>) | Inserted(table: bytes, row: seq<int>) | BeganTxn | Committed

  /** Arithmetic; `None` where the machine's signed division is undefined. */
  function Arith(op: BinOp, a: int, b: int): Option<int>
    requires op.IsArith()
  {
    match op
    case Plus => Some(Wrap(a + b))
    case Minus => Some(Wrap(a - b))
    case Multiple => Some(Wrap(a * b))
    case Division => if b == 0 || (a == -TWO_63 && b == -1) then None else Some(Wrap(TruncDiv(a, b)))
    case Modulo => if b == 0 || (a == -TWO_63 && b == -1) then None else Some(Wrap(a - b * TruncDiv(a, b)))
  }

  predicate Compare(op: BinOp, a: int, b: int)
    requires op.IsCompare()
  {
    match op
    case Equal => a == b
    case NotEqual => a != b
    case LessThan => a < b
    case LessEqual => a <= b
    case MoreThan => a > b
    case MoreEqual => a >= b
  }

  /** A strict binary operator on values; `None` on a kind mismatch. */
  function Operate(op: BinOp, x: Value, y: Value): Option<Value> {
    if x.IntVal? && y.IntVal? && op.IsArith() then
      var r :- Arith(op, x.n, y.n);
      Some(IntVal(r))
    else if x.IntVal? && y.IntVal? && op.IsCompare() then
      Some(BoolVal(Compare(op, x.n, y.n)))
    else
      None
  }
}

/** The target: basic blocks of instructions and their small-step semantics.
    A block ends at its first terminator, because control never goes past it. */
module Machine {
  import opened Ast
  import opened Bytes
  import opened Values

  datatype Width = W1 | W64

  datatype Operand = Imm(n: int) | Reg(id: nat, width: Width) | NoValue

  datatype Instr =
    | Alloca(slot: nat)
    | Load(dst: nat, slot: nat)
    | Store(v: Operand, slot: nat)
    | Bin(dst: nat, op: BinOp, a: Operand, b: Operand)
    | Phi(dst: nat, v1: Operand, from1: nat, v2: Operand, from2: nat)
    | CallPrint(args: seq<Operand>)
    | CallEmit(row: seq<Operand>)
    | CallInsert(table: bytes, row: seq<Operand>)
    | CallBegin
    | CallCommit
    | Br(target: nat)
    | CondBr(c: Operand, onTrue: nat, onFalse: nat)
    | Ret

  type Code = seq<Instr>
  type Program = seq<Code>

  /** A machine configuration: position, block we came from, value registers,
      stack slots and the events so far. */
  datatype Conf = Conf(blk: nat, idx: nat, prev: nat, regs: map<nat, Value>, mem: map<nat, int>, out: seq<Event>)

  function Start(): Conf { Conf(0, 0, 0, map[], map[], []) }

  predicate HasWidth(v: Value, w: Width) {
    match w
    case W1 => v.BoolVal?
    case W64 => v.IntVal?
  }

  function Read(o: Operand, regs: map<nat, Value>): Option<Value> {
    match o
    case Imm(n) => Some(IntVal(n))
    case Reg(id, w) => if id in regs && HasWidth(regs[id], w) then Some(regs[id]) else None
    case NoValue => None
  }

  function ReadInts(os: seq<Operand>, regs: map<nat, Value>): Option<seq<int>> {
    if os == [] then Some([])
    else
      var v :- Read(os[0], regs);
      if !v.IntVal? then None else
        var rest :- ReadInts(os[1..], regs);
        Some([v.n] + rest)
  }

  function Goto(k: Conf, b: nat): Conf { k.(blk := b, idx := 0, prev := k.blk) }

  function SetReg(k: Conf, dst: nat, v: Value): Conf { k.(idx := k.idx + 1, regs := k.regs[dst := v]) }

  function Log(k: Conf, e: Event): Conf { k.(idx := k.idx + 1, out := k.out + [e]) }

  predicate InCode(p: Program, k: Conf) { k.blk < |p| && k.idx < |p[k.blk]| }

  function Execute(i: Instr, k: Conf): Option<Conf> {
    match i
    case Alloca(s) => Some(k.(idx := k.idx + 1, mem := k.mem - {s}))
    case Load(dst, s) => if s in k.mem then Some(SetReg(k, dst, IntVal(k.mem[s]))) else None
    case Store(o, s) =>
      var v :- Read(o, k.regs);
      if v.IntVal? then Some(k.(idx := k.idx + 1, mem := k.mem[s := v.n])) else None
    case Bin(dst, op, a, b) =>
      var x :- Read(a, k.regs);
      var y :- Read(b, k.regs);
      var r :- Operate(op, x, y);
      Some(SetReg(k, dst, r))
    case Phi(dst, v1, from1, v2, from2) =>
      var v :- if k.prev == from1 then Read(v1, k.regs) else if k.prev == from2 then Read(v2, k.regs) else None;
      Some(SetReg(k, dst, v))
    case CallPrint(args) =>
      var ns :- ReadInts(args, k.regs);
      if |ns| == 1 then Some(Log(k, Printed(ns[0]))) else None
    case CallEmit(row) =>
      var ns :- ReadInts(row, k.regs);
      Some(Log(k, Emitted(ns)))
    case CallInsert(table, row) =>
      var ns :- ReadInts(row, k.regs);
      Some(Log(k, Inserted(table, ns)))
    case CallBegin => Some(Log(k, BeganTxn))
    case CallCommit => Some(Log(k, Committed))
    case Br(t) => Some(Goto(k, t))
    case CondBr(c, t, f) =>
      var v :- Read(c, k.regs);
      if v.BoolVal? then Some(Goto(k, if v.b then t else f)) else None
    case Ret => None
  }

  function Step(p: Program, k: Conf): Option<Conf> {
    if InCode(p, k) then Execute(p[k.blk][k.idx], k) else None
  }

  predicate Halted(p: Program, k: Conf) { InCode(p, k) && p[k.blk][k.idx].Ret? }

  /** No step and not at the return: a fault (undefined division, read of a
      variable nobody assigned, wrong operand width, end of a block). */
  predicate Faulted(p: Program, k: Conf) { Step(p, k).None? && !Halted(p, k) }

  function Run(p: Program, k: Conf, n: nat): Option<Conf>
    decreases n
  {
    if n == 0 then Some(k)
    else
      var k1 :- Step(p, k);
      Run(p, k1, n - 1)
  }

  lemma {:induction false} RunThen(p: Program, k: Conf, m: nat, k1: Conf, n: nat, k2: Conf)
    requires Run(p, k, m) == Some(k1) && Run(p, k1, n) == Some(k2)
    ensures Run(p, k, m + n) == Some(k2)
    decreases m
  {
    if m > 0 {
      RunThen(p, Step(p, k).value, m - 1, k1, n, k2);
    }
  }

  lemma RunStep(p: Program, k: Conf, m: nat, k1: Conf, k2: Conf)
    requires Run(p, k, m) == Some(k1) && Step(p, k1) == Some(k2)
    ensures Run(p, k, m + 1) == Some(k2)
  {
    assert Run(p, k2, 0) == Some(k2);
    assert Run(p, k1, 1) == Some(k2);
    RunThen(p, k, m, k1, 1, k2);
  }

  /** A configuration without a successor ends every run through it. */
  lemma {:induction false} RunsEndOnce(p: Program, k: Conf, m: nat, k1: Conf, n: nat, k2: Conf)
    requires Run(p, k, m) == Some(k1) && Step(p, k1).None?
    requires Run(p, k, n) == Some(k2)
    ensures n <= m
    ensures Step(p, k2).None? ==> m == n && k1 == k2
    decreases m
  {
    if m > 0 && n > 0 {
      RunsEndOnce(p, Step(p, k).value, m - 1, k1, n - 1, k2);
    }
  }
}
