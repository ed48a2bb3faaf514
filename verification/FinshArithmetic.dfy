/** What the operators of finsh compute, as a relation between the operands and the result of
    C's signed 32-bit operators. */
module FinshArithmetic {
  import opened Bits
  import opened Powers
  import opened FinshMachine
  import opened FinshLanguage

  const MODULUS: int := 0x1_0000_0000

  predicate Congruent(a: int, b: int) { (a - b) % MODULUS == 0 }

  function Abs(a: int): nat { if a < 0 then -a else a }

  /** Quotient and remainder of a division that rounds toward zero. */
  predicate Truncates(a: int, b: int, q: int, r: int) {
    b != 0 && q * b + r == a && Abs(r) < Abs(b) && (r == 0 || (r < 0 <==> a < 0))
  }

  /** `z` is what the operator gives for `x` and `y`. */
  ghost predicate Means(op: BinOp, x: word, y: word, z: word) {
    var a, b, c := Signed(x), Signed(y), Signed(z);
    match op
    case Add => Congruent(c, a + b)
    case Sub => Congruent(c, a - b)
    case Mul => Congruent(c, a * b)
    case Div => Truncates(a, b, c, a - c * b)
    case Mod => exists q {:trigger Truncates(a, b, q, c)} :: Truncates(a, b, q, c)
    case And => forall k: nat {:trigger Bit(z, k)} :: k < 32 ==> (Bit(z, k) <==> Bit(x, k) && Bit(y, k))
    case Or => forall k: nat {:trigger Bit(z, k)} :: k < 32 ==> (Bit(z, k) <==> Bit(x, k) || Bit(y, k))
    case Xor => forall k: nat {:trigger Bit(z, k)} :: k < 32 ==> (Bit(z, k) <==> Bit(x, k) != Bit(y, k))
    case Shl => Congruent(c, a * Power2(y))
    case Shr => c * Power2(y) <= a < (c + 1) * Power2(y)
  }

  /** The sign is the highest bit. */
  lemma {:induction false} SignedIs(v: word)
    ensures -0x8000_0000 <= Signed(v) < 0x8000_0000 && Congruent(Signed(v), v)
  {
  }

  lemma {:induction false} WrapIs(n: int)
    ensures Congruent(Signed(Wrap(n)), n) && (-0x8000_0000 <= n < 0x8000_0000 ==> Signed(Wrap(n)) == n)
  {
    assert n == MODULUS * (n / MODULUS) + Wrap(n);
    Multiple(n / MODULUS);
    SameWord(Signed(Wrap(n)), n);
  }

  lemma {:induction false} Multiple(k: int)
    ensures (MODULUS * k) % MODULUS == 0 && (MODULUS * k - MODULUS) % MODULUS == 0 && (-(MODULUS * k)) % MODULUS == 0
      && (-(MODULUS * k) - MODULUS) % MODULUS == 0
  {
  }

  /** Congruent numbers of the range of a word are equal. */
  lemma {:induction false} SameWord(a: int, b: int)
    ensures Congruent(a, b) && -MODULUS < a - b < MODULUS ==> a == b
  {
  }

  lemma {:induction false} CongruentOver(a: int, b: int, c: int)
    requires Congruent(a, b) && Congruent(b, c)
    ensures Congruent(a, c) && Congruent(b, a)
  {
    assert a - c == (a - b) + (b - c);
  }

  lemma {:induction false} CongruentTimes(a: int, b: int, c: int)
    requires Congruent(a, b)
    ensures Congruent(a * c, b * c)
  {
    var k := (a - b) / MODULUS;
    assert a - b == MODULUS * k;
    assert a * c - b * c == MODULUS * (k * c);
    Multiple(k * c);
  }

  lemma {:induction false} ApplySums(op: BinOp, x: word, y: word)
    requires op == Add || op == Sub
    ensures Means(op, x, y, Apply(op, x, y))
  {
    var n := if op == Add then x + y else x - y;
    var m := if op == Add then Signed(x) + Signed(y) else Signed(x) - Signed(y);
    WrapIs(n);
    assert Congruent(n, m);
    CongruentOver(Signed(Wrap(n)), n, m);
  }

  lemma {:induction false} ApplyProduct(x: word, y: word)
    ensures Means(Mul, x, y, Apply(Mul, x, y))
  {
    var a, b := Signed(x), Signed(y);
    WrapIs(x * y);
    assert Congruent(x, a) && Congruent(y, b);
    CongruentTimes(x, a, y);
    CongruentTimes(y, b, a);
    CongruentOver(x * y, a * y, a * b);
    CongruentOver(Signed(Wrap(x * y)), x * y, a * b);
  }

  lemma {:induction false} DivisionTruncates(a: int, b: int)
    requires b != 0
    ensures Truncates(a, b, TruncDiv(a, b), a - TruncDiv(a, b) * b)
    ensures Abs(TruncDiv(a, b)) <= Abs(a)
  {
    var n: int, d: int := Abs(a), Abs(b);
    var q: int := n / d;
    QuotientBound(n, d);
    SignedProduct(a, b, q);
    assert TruncDiv(a, b) * b == if a < 0 then -(q * d) else q * d;
  }

  /** Products grow with their factors. */
  lemma {:induction false} TimesMore(x: int, y: int, p: int)
    requires p > 0
    ensures x >= y ==> x * p >= y * p
  {
    if x >= y {
      assert x * p - y * p == (x - y) * p;
      assert (x - y) * p >= 0;
    }
  }

  lemma {:induction false} QuotientBound(n: int, d: int)
    requires n >= 0 && d > 0
    ensures n == n / d * d + n % d && 0 <= n % d < d && 0 <= n / d <= n
  {
    var q := n / d;
    TimesMore(d, 1, q + 1);
    assert (q + 1) * d == q * d + d;
  }

  lemma {:induction false} SignedProduct(a: int, b: int, q: int)
    requires b != 0
    ensures (if (a < 0) == (b < 0) then q else -q) * b == if a < 0 then -(q * Abs(b)) else q * Abs(b)
  {
    assert q * -b == -(q * b) && -q * b == -(q * b);
  }

  lemma {:induction false} ApplyDivision(op: BinOp, x: word, y: word)
    requires (op == Div || op == Mod) && Defined(op, x, y)
    ensures Means(op, x, y, Apply(op, x, y))
  {
    var a, b := Signed(x), Signed(y);
    DivisionTruncates(a, b);
    var q := TruncDiv(a, b);
    var r := a - q * b;
    if op == Div {
      QuotientFits(x, y);
      WrapIs(q);
    } else {
      WrapIs(r);
      assert Truncates(a, b, q, r);
    }
  }

  /** Only the most negative number divided by minus one leaves the range. */
  lemma {:induction false} QuotientFits(x: word, y: word)
    requires y != 0
    ensures TruncDiv(Signed(x), Signed(y)) < 0x8000_0000 <==> !(x == 0x8000_0000 && y == 0xffff_ffff)
    ensures -0x8000_0000 <= TruncDiv(Signed(x), Signed(y))
  {
    var a, b := Signed(x), Signed(y);
    DivisionTruncates(a, b);
    if a == -0x8000_0000 && Abs(b) > 1 { assert Abs(a) / Abs(b) <= 0x4000_0000 by { Halved(Abs(a), Abs(b)); } }
  }

  lemma {:induction false} Halved(n: int, d: int)
    requires n >= 0 && d >= 2
    ensures n / d <= n / 2
  {
    QuotientBound(n, d);
    TwiceInside(n, d, n / d);
  }

  lemma {:induction false} TwiceInside(n: int, d: int, q: int)
    requires q >= 0 && d >= 2 && q * d <= n
    ensures q <= n / 2
  {
    Grows(q, d - 1);
    assert q * d == q * (d - 1) + q;
  }

  lemma {:induction false} ApplyBits(op: BinOp, x: word, y: word)
    requires op == And || op == Or || op == Xor
    ensures Means(op, x, y, Apply(op, x, y))
  {
    forall k: nat | k < 32
      ensures Bit(Bits.And(x, y), k) <==> Bit(x, k) && Bit(y, k)
      ensures Bit(Bits.Or(x, y), k) <==> Bit(x, k) || Bit(y, k)
      ensures Bit(Bits.Xor(x, y), k) <==> Bit(x, k) != Bit(y, k)
    {
      AndBits(x, y, k);
      OrBits(x, y, k);
      XorBits(x, y, k);
    }
  }

  lemma {:induction false} ApplyShift(op: BinOp, x: word, y: word)
    requires (op == Shl || op == Shr) && Defined(op, x, y)
    ensures Means(op, x, y, Apply(op, x, y))
  {
    var a, p := Signed(x), Power2(y);
    if op == Shl {
      WrapIs(x * p);
      assert Congruent(x, a);
      CongruentTimes(x, a, p);
      CongruentOver(Signed(Wrap(x * p)), x * p, a * p);
    } else {
      FloorBounds(a, p);
      WrapIs(a / p);
    }
  }

  lemma {:induction false} FloorBounds(a: int, p: int)
    requires p > 0 && -0x8000_0000 <= a < 0x8000_0000
    ensures a / p * p <= a < (a / p + 1) * p && -0x8000_0000 <= a / p < 0x8000_0000
  {
    var q := a / p;
    assert a == q * p + a % p && (q + 1) * p == q * p + p;
    TimesMore(q, 0, p);
    TimesMore(0, q + 1, p);
    if q >= 0 { Grows(q, p); } else { Grows(-(q + 1), p); }
  }

  lemma {:induction false} Grows(x: int, p: int)
    requires x >= 0 && p > 0
    ensures x * p >= x && -x * p == -(x * p)
  {
    assert x * p == x * (p - 1) + x;
    assert x * (p - 1) >= 0;
  }

  /** The machine computes what the operator means. */
  lemma {:induction false} ApplyMeans(op: BinOp, x: word, y: word)
    requires Defined(op, x, y)
    ensures Means(op, x, y, Apply(op, x, y))
  {
    match op
    case Add | Sub => ApplySums(op, x, y);
    case Mul => ApplyProduct(x, y);
    case Div | Mod => ApplyDivision(op, x, y);
    case And | Or | Xor => ApplyBits(op, x, y);
    case Shl | Shr => ApplyShift(op, x, y);
  }

  // ---- the meaning determines the result ----

  lemma {:induction false} SignedInjective(z: word, w: word)
    requires Signed(z) == Signed(w)
    ensures z == w
  {
  }

  lemma {:induction false} OneCongruent(z: word, w: word, n: int)
    requires Congruent(Signed(z), n) && Congruent(Signed(w), n)
    ensures z == w
  {
    CongruentOver(Signed(w), n, n);
    CongruentOver(Signed(z), n, Signed(w));
    SameWord(Signed(z), Signed(w));
  }

  lemma {:induction false} OneTruncation(a: int, b: int, q: int, r: int, q2: int, r2: int)
    requires Truncates(a, b, q, r) && Truncates(a, b, q2, r2)
    ensures q == q2 && r == r2
  {
    AtLeast(q - q2, b);
    assert (q - q2) * b == q * b - q2 * b;
    Close(a, b, r, r2);
  }

  lemma {:induction false} Close(a: int, b: int, r: int, r2: int)
    requires Abs(r) < Abs(b) && (r == 0 || (r < 0 <==> a < 0))
    requires Abs(r2) < Abs(b) && (r2 == 0 || (r2 < 0 <==> a < 0))
    ensures Abs(r2 - r) < Abs(b)
  {
  }

  lemma {:induction false} AtLeast(d: int, b: int)
    ensures d != 0 ==> Abs(d * b) >= Abs(b)
  {
    if d > 0 {
      AtLeastOnce(d, b);
    } else if d < 0 {
      AtLeastOnce(-d, b);
      assert -d * b == -(d * b);
    }
  }

  lemma {:induction false} AtLeastOnce(d: int, b: int)
    requires d > 0
    ensures Abs(d * b) >= Abs(b)
  {
    if b >= 0 {
      Grows(b, d);
      assert b * d == d * b;
    } else {
      Grows(-b, d);
      assert d * b == -(-b * d);
    }
  }

  lemma {:induction false} OneFloor(a: int, p: int, q: int, q2: int)
    requires p > 0 && q * p <= a < (q + 1) * p && q2 * p <= a < (q2 + 1) * p
    ensures q == q2
  {
    TimesMore(q, q2 + 1, p);
    TimesMore(q2, q + 1, p);
  }

  lemma {:induction false} MeansOne(op: BinOp, x: word, y: word, z: word, w: word)
    requires Means(op, x, y, z) && Means(op, x, y, w)
    ensures z == w
  {
    var a, b := Signed(x), Signed(y);
    match op
    case Add => OneCongruent(z, w, a + b);
    case Sub => OneCongruent(z, w, a - b);
    case Mul => OneCongruent(z, w, a * b);
    case Shl => OneCongruent(z, w, a * Power2(y));
    case Div =>
      OneTruncation(a, b, Signed(z), a - Signed(z) * b, Signed(w), a - Signed(w) * b);
      SignedInjective(z, w);
    case Mod =>
      var q, q2 :| Truncates(a, b, q, Signed(z)) && Truncates(a, b, q2, Signed(w));
      OneTruncation(a, b, q, Signed(z), q2, Signed(w));
      SignedInjective(z, w);
    case Shr =>
      OneFloor(a, Power2(y), Signed(z), Signed(w));
      SignedInjective(z, w);
    case And | Or | Xor =>
      Power32();
      assert forall k: nat | k < 32 :: Bit(z, k) <==> Bit(w, k);
      SameBits(z, w, 32);
  }

  /** The result of an operator is the one word it means. */
  lemma {:induction false} ApplyExactly(op: BinOp, x: word, y: word, z: word)
    requires Defined(op, x, y)
    ensures Means(op, x, y, z) <==> z == Apply(op, x, y)
  {
    ApplyMeans(op, x, y);
    if Means(op, x, y, z) { MeansOne(op, x, y, z, Apply(op, x, y)); }
  }

  /** A division is defined exactly when its quotient is a number of the range, a remainder when
      the division is, a shift when it is by 0 to 31 places, and everything else always. */
  lemma {:induction false} DefinedExactly(op: BinOp, x: word, y: word)
    ensures op == Div || op == Mod ==> (Defined(op, x, y) <==> exists z :: Means(Div, x, y, z))
    ensures op == Shl || op == Shr ==> (Defined(op, x, y) <==> 0 <= Signed(y) < 32)
    ensures op !in {Div, Mod, Shl, Shr} ==> Defined(op, x, y)
  {
    if op == Div || op == Mod {
      if Defined(op, x, y) {
        ApplyMeans(Div, x, y);
      } else {
        forall z ensures !Means(Div, x, y, z) { NoQuotient(x, y, z); }
      }
    }
  }

  lemma {:induction false} NoQuotient(x: word, y: word, z: word)
    requires !Defined(Div, x, y)
    ensures !Means(Div, x, y, z)
  {
    var a, b := Signed(x), Signed(y);
    if y != 0 {
      QuotientFits(x, y);
      DivisionTruncates(a, b);
      if Means(Div, x, y, z) {
        OneTruncation(a, b, Signed(z), a - Signed(z) * b, TruncDiv(a, b), a - TruncDiv(a, b) * b);
      }
    }
  }

  predicate InRange(n: int) { -0x8000_0000 <= n < 0x8000_0000 }

  /** Sums, differences and products that are numbers of the range are exact. */
  lemma {:induction false} ExactInRange(x: word, y: word)
    ensures var a, b := Signed(x), Signed(y);
      && (InRange(a + b) ==> Signed(Apply(Add, x, y)) == a + b)
      && (InRange(a - b) ==> Signed(Apply(Sub, x, y)) == a - b)
      && (InRange(a * b) ==> Signed(Apply(Mul, x, y)) == a * b)
      && (y < 32 && InRange(a * Power2(y)) ==> Signed(Apply(Shl, x, y)) == a * Power2(y))
  {
    var a, b := Signed(x), Signed(y);
    ApplyMeans(Add, x, y);
    ApplyMeans(Sub, x, y);
    ApplyMeans(Mul, x, y);
    SameWord(Signed(Apply(Add, x, y)), a + b);
    SameWord(Signed(Apply(Sub, x, y)), a - b);
    SameWord(Signed(Apply(Mul, x, y)), a * b);
    if y < 32 {
      ApplyMeans(Shl, x, y);
      SameWord(Signed(Apply(Shl, x, y)), a * Power2(y));
    }
  }

  lemma {:induction false} ComplementBits(x: word, k: nat)
    requires k < 32
    ensures Bit(BitNot(x), k) <==> !Bit(x, k)
  {
    Power32();
    NotBits(x, 32, k);
  }

  // ---- on the stack and in expressions ----

  /** A binary operation replaces the two top cells by the result for the lower and the upper. */
  lemma {:induction false} OnStack(text: seq<byte>, op: BinOp, pc: nat, base: seq<word>, x: word, y: word, mem: Memory,
      sys: SysCalls, z: word)
    requires pc <= |text| && Defined(op, x, y)
    ensures Operation(text, Binary(op), pc, base + [x, y], mem, sys) == At(pc, base + [z], mem) <==> Means(op, x, y, z)
  {
    var s := base + [x, y];
    assert s[..|s| - 2] == base && s[|s| - 2] == x && s[|s| - 1] == y;
    var w := Apply(op, x, y);
    assert (base + [w])[|base|] == w && (base + [z])[|base|] == z;
    ApplyExactly(op, x, y, z);
  }

  /** An operator applies to the value of its left operand and to that of its right operand,
      which is evaluated in the memory the left one leaves. */
  lemma {:induction false} InExpressions(op: BinOp, l: Expr, r: Expr, m: Memory, sys: SysCalls, z: word, last: Memory)
    ensures Eval(Bin(op, l, r), m, sys) == Done(z, last) <==>
      exists x, m1, y :: Eval(l, m, sys) == Done(x, m1) && Eval(r, m1, sys) == Done(y, last)
        && Defined(op, x, y) && Means(op, x, y, z)
  {
    var o := Eval(l, m, sys);
    if o.Done? && Eval(r, o.mem, sys).Done? && Defined(op, o.value, Eval(r, o.mem, sys).value) {
      ApplyExactly(op, o.value, Eval(r, o.mem, sys).value, z);
    }
  }

  /** A line with one operator on two numbers. */
  lemma {:induction false} ConstantLine(op: BinOp, x: word, y: word, m: Memory, sys: SysCalls, z: word)
    ensures EvalProgram(More(Bin(op, Const(x), Const(y)), NoExpr), m, sys) == Done(z, m) <==>
      Defined(op, x, y) && Means(op, x, y, z)
  {
    var e := Bin(op, Const(x), Const(y));
    assert Eval(Const(x), m, sys) == Done(x, m) && Eval(Const(y), m, sys) == Done(y, m);
    assert Eval(e, m, sys) == Combine(op, x, Done(y, m));
    assert EvalProgram(More(e, NoExpr), m, sys) == Eval(e, m, sys);
    if Defined(op, x, y) { ApplyExactly(op, x, y, z); }
  }

  /** A call passes the values of its arguments in order, and a single 0 if it has none. */
  lemma {:induction false} CallPasses(f: word, args: Exprs, m: Memory, sys: SysCalls)
    ensures args.NoExpr? ==> Eval(CallFn(f, args), m, sys) == sys(f, [0], m)
    ensures var o := EvalArgs(args, m, sys);
      args.More? && o.Args? && |o.values| <= 16 ==> Eval(CallFn(f, args), m, sys) == sys(f, o.values, o.mem)
  {
    var o := EvalArgs(args, m, sys);
    if args.More? && o.Args? {
      var h := Eval(args.head, m, sys);
      assert h.Done? && o == Prepend(h.value, EvalArgs(args.tail, h.mem, sys));
    }
  }

  // ---- assignments and steps ----

  /** The four bytes at `a` hold `v` and every other byte is as before. */
  ghost predicate Holds(m: Memory, after: Memory, a: word, v: word) {
    && Mapped(after, a) && Load(after, a) == v && after.Keys == m.Keys
    && forall b :: b in m && b !in {a, Offset(a, 1), Offset(a, 2), Offset(a, 3)} ==> after[b] == m[b]
  }

  /** An assignment to a variable or through a pointer gives the value of its right side, which is
      evaluated behind the place and then read there; no other byte changes. It faults exactly when
      the place or the right side does or the place is not mapped. */
  lemma {:induction false} Assigns(p: Place, r: Expr, m: Memory, sys: SysCalls)
    ensures EvalPlace(p, m, sys).Fault? ==> Eval(Write(p, r), m, sys).Fault?
    ensures EvalPlace(p, m, sys).Done? ==>
      var a, e := EvalPlace(p, m, sys).value, Eval(Write(p, r), m, sys);
      var o := Eval(r, EvalPlace(p, m, sys).mem, sys);
      if o.Done? && Mapped(o.mem, a) then e.Done? && e.value == o.value && Holds(o.mem, e.mem, a, o.value) else e.Fault?
  {
    if EvalPlace(p, m, sys).Done? {
      var a, o := EvalPlace(p, m, sys).value, Eval(r, EvalPlace(p, m, sys).mem, sys);
      if o.Done? && Mapped(o.mem, a) { LoadAfterStore(o.mem, a, o.value); }
    }
  }

  lemma {:induction false} BumpIs(x: word, up: bool, v: word)
    requires Congruent(Signed(v), Signed(x) + if up then 1 else -1)
    ensures Bump(x, up) == v
  {
    var n, m := if up then x + 1 else x - 1, Signed(x) + if up then 1 else -1;
    WrapIs(n);
    assert Congruent(n, m);
    CongruentOver(Signed(Wrap(n)), n, m);
    OneCongruent(v, Wrap(n), m);
  }

  /** A step changes a variable by one; before the variable it gives the new value, behind it the
      old one. */
  lemma {:induction false} StepsByOne(a: word, up: bool, m: Memory, sys: SysCalls, v: word)
    requires Mapped(m, a) && Congruent(Signed(v), Signed(Load(m, a)) + if up then 1 else -1)
    ensures var o := Eval(PreStep(a, up), m, sys); o.Done? && o.value == v && Holds(m, o.mem, a, v)
    ensures var o := Eval(PostStep(a, up), m, sys); o.Done? && o.value == Load(m, a) && Holds(m, o.mem, a, v)
  {
    hide Signed, Congruent, Load, Word32, Wrap, Offset;
    BumpIs(Load(m, a), up, v);
    LoadAfterStore(m, a, v);
    assert Eval(PreStep(a, up), m, sys) == Done(v, Store(m, a, v));
    assert Eval(PostStep(a, up), m, sys) == Done(Load(m, a), Store(m, a, v));
  }
}
