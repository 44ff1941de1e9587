/** What the operators of value texts compute, bit by bit where they work on bits. */
module ParameterArithmetic {
  import opened Tokens
  import opened Parameters
  import Literals

  /** Bit k of an integer in two's complement of unbounded width. */
  function Bit(n: int, k: nat): (b: int)
    ensures b == 0 || b == 1
    decreases k
  {
    if k == 0 then n % 2 else Bit(n / 2, k - 1)
  }

  lemma BitStep(n: int, bit: int, k: nat)
    requires bit == 0 || bit == 1
    ensures Bit(2 * n + bit, k) == if k == 0 then bit else Bit(n, k - 1)
  {
    assert (2 * n + bit) % 2 == bit && (2 * n + bit) / 2 == n;
  }

  lemma {:induction false} BitOfSmall(n: int, k: nat)
    requires n == 0 || n == -1
    ensures Bit(n, k) == -n
  {
    assert n / 2 == n && n % 2 == -n;
    if k > 0 { BitOfSmall(n / 2, k - 1); }
  }

  predicate IsBitwise(op: BinaryOp) { op == Or || op == And || op == Xor }

  function OnBits(op: BinaryOp, a: int, b: int): int {
    if op == Or then (if a == 0 && b == 0 then 0 else 1)
    else if op == And then a * b
    else if a == b then 0 else 1
  }

  lemma LowestBit(op: BinaryOp, a: int, b: int)
    requires IsBitwise(op)
    ensures var bit := OnBits(op, a % 2, b % 2);
      && (bit == 0 || bit == 1)
      && Bitwise(op, a, b) ==
           if Magnitude(a) == 0 && Magnitude(b) == 0 then -bit else 2 * Bitwise(op, a / 2, b / 2) + bit
  {
    var (x, y) := (a % 2, b % 2);
    assert (x == 0 || x == 1) && (y == 0 || y == 1);
    assert op == And ==> OnBits(op, x, y) == if x == 1 && y == 1 then 1 else 0;
    hide Magnitude;
  }

  /** Or, and and exclusive or work on each bit by itself. */
  lemma {:induction false} BitwiseIsOnBits(op: BinaryOp, a: int, b: int, k: nat)
    requires IsBitwise(op)
    ensures Bit(Bitwise(op, a, b), k) == OnBits(op, Bit(a, k), Bit(b, k))
    decreases Magnitude(a) + Magnitude(b), k
  {
    LowestBit(op, a, b);
    var bit := OnBits(op, a % 2, b % 2);
    hide Bitwise;
    if Magnitude(a) == 0 && Magnitude(b) == 0 {
      BitOfSmall(a, k);
      BitOfSmall(b, k);
      BitOfSmall(-bit, k);
    } else {
      BitStep(Bitwise(op, a / 2, b / 2), bit, k);
      if k > 0 { BitwiseIsOnBits(op, a / 2, b / 2, k - 1); }
    }
  }

  /** The inverse flips every bit. */
  lemma {:induction false} InvertFlipsBits(a: int, k: nat)
    ensures Bit(Invoke(Invert, a), k) == 1 - Bit(a, k)
    decreases k
  {
    assert (-a - 1) % 2 == 1 - a % 2 && (-a - 1) / 2 == -(a / 2) - 1;
    if k > 0 { InvertFlipsBits(a / 2, k - 1); }
  }

  lemma {:induction false} ShiftLeftBits(a: int, n: nat, k: nat)
    ensures Bit(a * Literals.Pow2(n), k) == if k < n then 0 else Bit(a, k - n)
    decreases n
  {
    if n == 0 {
      assert a * 1 == a;
    } else {
      var b := a * Literals.Pow2(n - 1);
      assert a * Literals.Pow2(n) == 2 * b + 0;
      BitStep(b, 0, k);
      if k > 0 { ShiftLeftBits(a, n - 1, k - 1); }
    }
  }

  lemma HalfOfQuotient(a: int, p: nat)
    requires p > 0
    ensures a / (2 * p) == (a / 2) / p
  {
    var (q, r) := (a / 2, a % 2);
    var (s, t) := (q / p, q % p);
    assert a == 2 * (s * p + t) + r;
    assert a == s * (2 * p) + (2 * t + r) && 0 <= 2 * t + r < 2 * p;
    QuotientIs(a, 2 * p, s, 2 * t + r);
  }

  lemma QuotientIs(a: int, d: nat, q: int, r: int)
    requires d > 0 && a == q * d + r && 0 <= r < d
    ensures a / d == q
  {
    var (x, y) := (a / d, a % d);
    assert x * d + y == q * d + r;
    assert (x - q) * d == r - y;
    if x > q { TimesAtLeast(x - q, d); }
    if x < q { TimesAtLeast(q - x, d); }
  }

  lemma TimesAtLeast(n: nat, d: nat)
    requires n > 0
    ensures n * d >= d
  {
    assert n * d == (n - 1) * d + d;
  }

  lemma {:induction false} ShiftRightBits(a: int, n: nat, k: nat)
    ensures Bit(a / Literals.Pow2(n), k) == Bit(a, k + n)
    decreases n
  {
    if n > 0 {
      HalfOfQuotient(a, Literals.Pow2(n - 1));
      ShiftRightBits(a / 2, n - 1, k);
    }
  }

  /** What an operator must make of two values. */
  ghost predicate Computes(op: BinaryOp, a: int, b: int, v: Option<int>) {
    match op
    case Add => v == Some(a + b)
    case Sub => v.Some? && v.value + b == a
    case Mul => v == Some(a * b)
    case FloorDiv => if b == 0 then v == None else v.Some? && RoundsDown(a, b, v.value, a - v.value * b)
    case Mod => if b == 0 then v == None else v.Some? && exists q :: RoundsDown(a, b, q, v.value)
    case ShiftLeft =>
      if b < 0 then v == None else v.Some? && forall k: nat :: Bit(v.value, k) == if k < b then 0 else Bit(a, k - b)
    case ShiftRight => if b < 0 then v == None else v.Some? && forall k: nat :: Bit(v.value, k) == Bit(a, k + b)
    case _ => v.Some? && forall k: nat :: Bit(v.value, k) == OnBits(op, Bit(a, k), Bit(b, k))
  }

  /** Quotient and remainder, the remainder with the sign of the divisor. */
  predicate RoundsDown(a: int, b: int, q: int, r: int) {
    a == q * b + r && (if b > 0 then 0 <= r < b else b < r <= 0)
  }

  lemma OperatorComputes(op: BinaryOp, a: int, b: int)
    ensures Computes(op, a, b, Apply(op, a, b))
  {
    match op
    case FloorDiv => if b != 0 { FloorQuotientRoundsDown(a, b); }
    case Mod =>
      if b != 0 {
        FloorQuotientRoundsDown(a, b);
        var q := FloorQuotient(a, b);
        assert RoundsDown(a, b, q, a - q * b);
      }
    case ShiftLeft =>
      if b >= 0 { forall k: nat { ShiftLeftBits(a, b, k); } }
    case ShiftRight =>
      if b >= 0 { forall k: nat { ShiftRightBits(a, b, k); } }
    case Add =>
    case Sub =>
    case Mul =>
    case _ =>
      forall k: nat { BitwiseIsOnBits(op, a, b, k); }
  }

  /** A value text with an operator outermost has a value when its operands have and the
      operator is defined on them, and then what the operator makes of them. */
  lemma EvalOfOperator(e: Const, known: Env)
    requires e.Binary?
    ensures var (a, b) := (Eval(e.left, known), Eval(e.right, known));
      if a.Some? && b.Some? then Computes(e.bop, a.value, b.value, Eval(e, known)) else Eval(e, known) == None
  {
    var (a, b) := (Eval(e.left, known), Eval(e.right, known));
    if a.Some? && b.Some? { OperatorComputes(e.bop, a.value, b.value); }
    hide Computes, Apply;
  }

  /** Signs and the inverse. */
  lemma EvalOfSign(e: Const, known: Env)
    requires e.Unary?
    ensures var (a, v) := (Eval(e.operand, known), Eval(e, known));
      if a.None? then v == None
      else
        && v.Some?
        && match e.uop
           case Plus => v == a
           case Minus => v.value + a.value == 0
           case Invert => forall k: nat :: Bit(v.value, k) == 1 - Bit(a.value, k)
  {
    var a := Eval(e.operand, known);
    if a.Some? { forall k: nat { InvertFlipsBits(a.value, k); } }
    hide Apply;
  }

  /** Two integers with the same bits are the same. */
  lemma {:induction false} BitsDetermine(a: int, b: int)
    requires forall k: nat :: Bit(a, k) == Bit(b, k)
    ensures a == b
    decreases Magnitude(a) + Magnitude(b)
  {
    assert Bit(a, 0) == Bit(b, 0);
    if Magnitude(a) > 0 || Magnitude(b) > 0 {
      forall k: nat ensures Bit(a / 2, k) == Bit(b / 2, k) {
        assert Bit(a, k + 1) == Bit(b, k + 1);
      }
      BitsDetermine(a / 2, b / 2);
      assert a == 2 * (a / 2) + a % 2 && b == 2 * (b / 2) + b % 2;
    }
  }
}
