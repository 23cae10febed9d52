/** What the operators of a run compute, said without the functions that compute
    it: quotient and remainder, wrapping sums and products, and the order of the
    comparisons. */
module Arithmetic {
  import opened Ast
  import opened Int64
  import opened Values
  import opened Machine
  import opened Semantics

  // Division.

  /** Signed division has no result for a zero divisor and where it would overflow. */
  predicate Divisible(a: int, b: int) { b != 0 && !(a == -0x8000_0000_0000_0000 && b == -1) }

  /** Quotient and remainder: the remainder is smaller than the divisor and has the
      sign of the dividend. */
  predicate Divides(a: int, b: int, q: int, r: int) {
    && a == b * q + r
    && (if b < 0 then b < r < -b else -b < r < b)
    && (r == 0 || (r < 0 <==> a < 0))
  }

  lemma ProductGrows(y: nat, q: nat)
    ensures y > 0 ==> q <= y * q
    ensures y > 1 ==> 2 * q <= y * q
  {
    if y > 0 { assert y * q == q + (y - 1) * q && (y - 1) * q >= 0; }
    if y > 1 { assert y * q == 2 * q + (y - 2) * q && (y - 2) * q >= 0; }
  }

  lemma SmallQuotient(x: nat, y: nat)
    requires y > 0
    ensures x == y * (x / y) + x % y && x % y < y && 0 <= x / y <= x && (y > 1 ==> 2 * (x / y) <= x)
  {
    ProductGrows(y, x / y);
  }

  lemma Signs(b: int, q: int)
    ensures b * -q == -(b * q) && -b * q == -(b * q)
  {
  }

  lemma QuotientDivides(a: int, b: int)
    requires b != 0
    ensures Divides(a, b, TruncDiv(a, b), a - b * TruncDiv(a, b))
  {
    var y, q := Abs(b), Abs(a) / Abs(b);
    SmallQuotient(Abs(a), y);
    Signs(b, q);
    assert b * TruncDiv(a, b) == if a < 0 then -(y * q) else y * q;
  }

  lemma QuotientFits(a: int, b: int)
    requires IsInt64(a) && IsInt64(b) && Divisible(a, b)
    ensures IsInt64(TruncDiv(a, b)) && IsInt64(a - b * TruncDiv(a, b))
  {
    SmallQuotient(Abs(a), Abs(b));
    QuotientDivides(a, b);
  }

  /** Division and remainder have results for the same operands, and these are the
      quotient and the remainder. */
  lemma DivisionExact(a: int, b: int)
    requires IsInt64(a) && IsInt64(b)
    ensures Arith(Division, a, b).Some? <==> Divisible(a, b)
    ensures Arith(Modulo, a, b).Some? <==> Divisible(a, b)
    ensures Divisible(a, b) ==> Divides(a, b, Arith(Division, a, b).value, Arith(Modulo, a, b).value)
  {
    hide Wrap, TruncDiv, Divides;
    if Divisible(a, b) {
      QuotientFits(a, b);
      QuotientDivides(a, b);
    }
  }

  lemma MultipleIsLarge(b: int, k: int)
    requires k != 0
    ensures Abs(b) <= Abs(b * k)
  {
    ProductGrows(Abs(k), Abs(b));
    Signs(b, k);
    Signs(-b, k);
  }

  /** There is only one such pair. */
  lemma DivisionUnique(a: int, b: int, q: int, r: int, q1: int, r1: int)
    requires b != 0 && Divides(a, b, q, r) && Divides(a, b, q1, r1)
    ensures q == q1 && r == r1
  {
    assert b * (q1 - q) == b * q1 - b * q == r - r1;
    if q1 != q { MultipleIsLarge(b, q1 - q); }
  }

  // Sums and products.

  /** The unbounded result. */
  function Unbounded(op: BinOp, a: int, b: int): int
    requires op.Plus? || op.Minus? || op.Multiple?
  {
    match op
    case Plus => a + b
    case Minus => a - b
    case Multiple => a * b
  }

  /** Sums, differences and products always have a result, the 64-bit number congruent
      to the unbounded one. */
  lemma WrapsAround(op: BinOp, a: int, b: int, r: int)
    requires op.Plus? || op.Minus? || op.Multiple?
    ensures Arith(op, a, b) == Some(r) <==>
            -0x8000_0000_0000_0000 <= r < 0x8000_0000_0000_0000
            && (r - Unbounded(op, a, b)) % 0x1_0000_0000_0000_0000 == 0
  {
    var n := Unbounded(op, a, b);
    var w := Wrap(n);
    assert Arith(op, a, b) == Some(w);
    if IsInt64(r) && (r - n) % TWO_64 == 0 { CongruentEqual(n, r, w); }
  }

  lemma CongruentEqual(n: int, r: int, w: int)
    requires IsInt64(r) && IsInt64(w) && (r - n) % TWO_64 == 0 && (w - n) % TWO_64 == 0
    ensures r == w
  {
    var i, j := (r - n) / TWO_64, (w - n) / TWO_64;
    assert r - w == TWO_64 * (i - j);
  }

  // Comparisons.

  /** Exactly one of `<`, `==` and `>` holds, the other three are their negations, and
      `<` counts upwards in steps of one. */
  lemma OrderExact(a: int, b: int)
    ensures Compare(LessThan, a, b) || Compare(Equal, a, b) || Compare(MoreThan, a, b)
    ensures !(Compare(LessThan, a, b) && Compare(Equal, a, b)) && !(Compare(Equal, a, b) && Compare(MoreThan, a, b))
    ensures !(Compare(LessThan, a, b) && Compare(MoreThan, a, b))
    ensures Compare(LessEqual, a, b) <==> !Compare(MoreThan, a, b)
    ensures Compare(MoreEqual, a, b) <==> !Compare(LessThan, a, b)
    ensures Compare(NotEqual, a, b) <==> !Compare(Equal, a, b)
    ensures Compare(LessThan, a, b) <==> Compare(MoreThan, b, a)
    ensures Compare(Equal, a, a) && Compare(LessThan, a, a + 1)
    ensures Compare(LessThan, a, b + 1) <==> Compare(LessThan, a, b) || Compare(Equal, a, b)
  {
  }

  // Operators on values, in the interpreter and in the blocks.

  /** What an operator yields on two integers. */
  ghost predicate Yields(op: BinOp, a: int, b: int, r: Option<Value>) {
    match op
    case Plus => r.Some? && r.value.IntVal?
    case Minus => r.Some? && r.value.IntVal?
    case Multiple => r.Some? && r.value.IntVal?
    case Division => if Divisible(a, b) then r.Some? && r.value.IntVal? else r.None?
    case Modulo => if Divisible(a, b) then r.Some? && r.value.IntVal? else r.None?
    case Equal => r == Some(BoolVal(a - b == 0))
    case NotEqual => r == Some(BoolVal(a - b != 0))
    case LessThan => r == Some(BoolVal(b - a > 0))
    case LessEqual => r == Some(BoolVal(b - a >= 0))
    case MoreThan => r == Some(BoolVal(a - b > 0))
    case MoreEqual => r == Some(BoolVal(a - b >= 0))
    case CondAnd => r.None?
    case CondOr => r.None?
  }

  /** Which operands an operator takes, and what kind of value it gives. */
  lemma OperateExact(op: BinOp, x: Value, y: Value)
    ensures Operate(op, x, y).Some? ==> x.IntVal? && y.IntVal?
    ensures x.IntVal? && y.IntVal? ==> Yields(op, x.n, y.n, Operate(op, x, y))
  {
    hide Wrap, TruncDiv;
  }

  /** Two instructions on the same operands leave quotient and remainder. */
  lemma BlocksDivide(a: int, b: int, q: nat, r: nat, k: Conf)
    requires IsInt64(a) && IsInt64(b) && q != r
    ensures var k1 := Execute(Bin(q, Division, Imm(a), Imm(b)), k);
            if !Divisible(a, b) then k1.None?
            else
              && k1.Some?
              && var k2 := Execute(Bin(r, Modulo, Imm(a), Imm(b)), k1.value);
                 && k2.Some? && k2.value.regs[q].IntVal? && k2.value.regs[r].IntVal?
                 && Divides(a, b, k2.value.regs[q].n, k2.value.regs[r].n)
  {
    hide Arith, Divides, Divisible;
    DivisionExact(a, b);
  }

  /** The same for two expressions of a program. */
  lemma ProgramsDivide(a: int, b: int, st: State)
    requires IsInt64(a) && IsInt64(b)
    ensures var q, r := Eval(Binary(Division, Num(a), Num(b)), st), Eval(Binary(Modulo, Num(a), Num(b)), st);
            && (q.Some? <==> Divisible(a, b)) && (r.Some? <==> Divisible(a, b))
            && (Divisible(a, b) ==>
                  && q.value.0.IntVal? && r.value.0.IntVal? && q.value.1 == r.value.1 == st
                  && Divides(a, b, q.value.0.n, r.value.0.n))
  {
    hide Arith, Divides, Divisible;
    DivisionExact(a, b);
    assert Eval(Num(a), st) == Some((IntVal(a), st)) && Eval(Num(b), st) == Some((IntVal(b), st));
  }
}
