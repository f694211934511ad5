// Integer arithmetic and comparison as the processor does them, and what the
// chosen instructions compute in terms of signed and unsigned values.
module Integers {
  import opened Program

  function Pow256(w: nat): (m: int)
    ensures 0 < m
  {
    if w == 0 then 1 else 256 * Pow256(w - 1)
  }

  // The number of values of an integer of w bytes, and half of it.
  function Half(w: nat): (h: int)
    requires 0 < w
    ensures 0 < h && Pow256(w) == 2 * h
  {
    128 * Pow256(w - 1)
  }

  // A register of w bytes holds n < 256^w; two's complement gives its sign.
  function Signed(n: int, w: nat): int
    requires 0 < w
  {
    if n < Half(w) then n else n - Pow256(w)
  }

  function Wrap(n: int, w: nat): nat { n % Pow256(w) }

  // ---------- Flags ----------

  // The flags `cmp` leaves: those of the subtraction a - b.
  datatype Flags = Flags(cf: bool, zf: bool, sf: bool, of: bool)

  predicate SignBit(n: int, w: nat)
    requires 0 < w
  {
    n >= Half(w)
  }

  function Cmp(a: nat, b: nat, w: nat): Flags
    requires 0 < w
  {
    var r := Wrap(a - b, w);
    Flags(a < b, r == 0, SignBit(r, w),
          SignBit(a, w) != SignBit(b, w) && SignBit(r, w) != SignBit(a, w))
  }

  datatype Condition = CcE | CcNe | CcG | CcGe | CcL | CcLe | CcA | CcNb | CcB | CcNa

  predicate Met(cc: Condition, f: Flags) {
    match cc
    case CcE => f.zf
    case CcNe => !f.zf
    case CcG => !f.zf && f.sf == f.of
    case CcGe => f.sf == f.of
    case CcL => f.sf != f.of
    case CcLe => f.zf || f.sf != f.of
    case CcA => !f.cf && !f.zf
    case CcNb => !f.cf
    case CcB => f.cf
    case CcNa => f.cf || f.zf
  }

  predicate IsComparison(op: BinaryOperator) {
    op in {Eq, Ne, Gt, Ge, Lt, Le}
  }

  // The condition code generation picks.
  function ConditionFor(op: BinaryOperator, signed: bool): Condition
    requires IsComparison(op)
  {
    match op
    case Eq => CcE
    case Ne => CcNe
    case Gt => if signed then CcG else CcA
    case Ge => if signed then CcGe else CcNb
    case Lt => if signed then CcL else CcB
    case _ => if signed then CcLe else CcNa
  }

  predicate Compare(op: BinaryOperator, x: int, y: int)
    requires IsComparison(op)
  {
    match op
    case Eq => x == y
    case Ne => x != y
    case Gt => x > y
    case Ge => x >= y
    case Lt => x < y
    case _ => x <= y
  }

  // The value a bit pattern stands for.
  function Value(n: nat, w: nat, signed: bool): int
    requires 0 < w
  {
    if signed then Signed(n, w) else n
  }

  lemma {:induction false} WrapDifference(a: nat, b: nat, w: nat)
    requires a < Pow256(w) && b < Pow256(w)
    ensures Wrap(a - b, w) == if a < b then a - b + Pow256(w) else a - b
  {
    hide Pow256;
    if a < b { ModUnique(a - b, -1, a - b + Pow256(w), Pow256(w)); }
    else { ModUnique(a - b, 0, a - b, Pow256(w)); }
  }

  // Comparisons: at every width, the set-on-condition instruction chosen for
  // the operator and signedness computes that order on the operands' values.
  lemma {:induction false} ComparisonCorrect(op: BinaryOperator, signed: bool, a: nat, b: nat, w: nat)
    requires IsComparison(op) && 0 < w && a < Pow256(w) && b < Pow256(w)
    ensures Met(ConditionFor(op, signed), Cmp(a, b, w)) <==> Compare(op, Value(a, w, signed), Value(b, w, signed))
  {
    hide Pow256, Half;
    WrapDifference(a, b, w);
  }

  // ---------- Arithmetic ----------

  function Arithmetic(op: BinaryOperator, x: int, y: int): int
    requires op in {Add, Sub, Mul}
  {
    match op case Add => x + y case Sub => x - y case _ => x * y
  }

  lemma {:induction false} MulAtLeast(d: int, m: nat)
    ensures d >= 1 ==> d * m >= m
    ensures d <= -1 ==> d * m <= -(m as int)
  {
    if d >= 1 { assert (d - 1) * m >= 0; assert d * m == (d - 1) * m + m; }
    if d <= -1 { assert (-d - 1) * m >= 0; assert d * m == -((-d - 1) * m) - m; }
  }

  // Quotient and remainder are unique.
  lemma {:induction false} ModUnique(n: int, q: int, r: int, m: nat)
    requires 0 <= r < m && n == q * m + r
    ensures n % m == r && n / m == q
  {
    var d := n / m - q;
    assert n == (n / m) * m + n % m;
    assert d * m == (n / m) * m - q * m;
    assert d * m == r - n % m;
    MulAtLeast(d, m);
  }

  lemma {:induction false} WrapShift(n: int, k: int, w: nat)
    ensures Wrap(n + k * Pow256(w), w) == Wrap(n, w)
  {
    hide Pow256;
    var m := Pow256(w);
    assert n == (n / m) * m + n % m;
    assert (n / m + k) * m == (n / m) * m + k * m;
    ModUnique(n + k * m, n / m + k, n % m, m);
  }

  // `add`, `sub` and `imul` wrap: whatever the signedness, the result's bits are
  // those of the exact result, so its value is exact when it is representable.
  lemma {:induction false} ArithmeticWraps(op: BinaryOperator, a: nat, b: nat, w: nat, signed: bool)
    requires op in {Add, Sub, Mul} && 0 < w && a < Pow256(w) && b < Pow256(w)
    ensures var exact := Arithmetic(op, Value(a, w, signed), Value(b, w, signed));
            var r := Wrap(Arithmetic(op, a, b), w);
            && r == Wrap(exact, w)
            && ((if signed then -Half(w) <= exact < Half(w) else 0 <= exact < Pow256(w)) ==>
                  Value(r, w, signed) == exact)
  {
    hide Pow256, Half, Wrap;
    var m := Pow256(w);
    var x, y := Value(a, w, signed), Value(b, w, signed);
    var i, j := if x == a then 0 else 1, if y == b then 0 else 1;
    var exact := Arithmetic(op, x, y);
    var k := match op case Add => i + j case Sub => i - j case _ => x * j + i * y + i * j * m;
    if op == Mul {
      ProductShift(x, y, i, j, m);
    } else {
      SumShift(i, j, m);
    }
    WrapShift(exact, k, w);
    WrapSmall(exact, w);
  }

  lemma {:induction false} SumShift(i: int, j: int, m: int)
    ensures (i + j) * m == i * m + j * m && (i - j) * m == i * m - j * m
  {
  }

  lemma {:induction false} ProductShift(x: int, y: int, i: int, j: int, m: int)
    ensures (x + i * m) * (y + j * m) == x * y + (x * j + i * y + i * j * m) * m
  {
    var u, v := i * m, j * m;
    assert (x + u) * (y + v) == x * y + x * v + u * y + u * v;
    assert x * v == (x * j) * m;
    assert u * y == (i * y) * m;
    assert u * v == i * m * j * m == (i * j * m) * m;
    assert (x * j + i * y + i * j * m) * m == (x * j) * m + (i * y) * m + (i * j * m) * m;
  }

  lemma {:induction false} WrapSmall(n: int, w: nat)
    ensures 0 <= n < Pow256(w) ==> Wrap(n, w) == n
    ensures -Pow256(w) <= n < 0 ==> Wrap(n, w) == n + Pow256(w)
  {
    hide Pow256;
    if 0 <= n < Pow256(w) { ModUnique(n, 0, n, Pow256(w)); }
    if -Pow256(w) <= n < 0 { ModUnique(n, -1, n + Pow256(w), Pow256(w)); }
  }

  // C++ division truncates toward zero.
  function TruncDiv(x: int, y: int): int
    requires y != 0
  {
    if x >= 0 then (if y > 0 then x / y else -(x / -y))
    else (if y > 0 then -(-x / y) else -x / -y)
  }

  function TruncMod(x: int, y: int): int
    requires y != 0
  {
    x - y * TruncDiv(x, y)
  }

  // `xor rdx, rdx` and `div` or `idiv`: the dividend is the zero-extended left
  // operand. None on a divide error: a zero divisor, or a quotient that does not
  // fit.
  function Divide(a: nat, b: nat, w: nat, signed: bool): Option<(int, int)>
    requires 0 < w
  {
    var y := Value(b, w, signed);
    if y == 0 then None
    else
      var q := TruncDiv(a, y);
      if (if signed then -Half(w) <= q < Half(w) else 0 <= q < Pow256(w)) then Some((q, TruncMod(a, y))) else None
  }

  lemma {:induction false} DivBound(x: nat, y: nat)
    requires 0 < y
    ensures 0 <= x / y <= x && 0 <= x - y * (x / y) < y && (y <= x ==> 1 <= x / y)
  {
    var q, r := x / y, x % y;
    assert x == q * y + r && y * q == q * y;
    MulAtLeast(q, y);
    if q >= 0 { MulGrows(q, y); }
  }

  lemma {:induction false} MulGrows(q: nat, y: nat)
    requires 0 < y
    ensures q <= q * y
  {
    assert q * y == q * (y - 1) + q;
    assert q * (y - 1) >= 0;
  }

  lemma {:induction false} QuotientBound(x: nat, y: int)
    requires y != 0
    ensures y > 0 ==> 0 <= TruncDiv(x, y) <= x
    ensures y < 0 ==> -(x as int) <= TruncDiv(x, y) <= 0
    ensures 0 <= TruncMod(x, y) && TruncMod(x, y) < if y > 0 then y else -y
  {
    DivBound(x, if y > 0 then y else -y);
    if y < 0 { assert y * -(x / -y) == -y * (x / -y); }
  }

  // Division is what the program means exactly when the dividend is not
  // negative: never for a negative one, because the upper half of the dividend
  // is zeroed rather than sign-extended.
  lemma {:induction false} DivisionExact(a: nat, b: nat, w: nat, signed: bool)
    requires 0 < w && a < Pow256(w) && b < Pow256(w) && Value(b, w, signed) != 0
    ensures var x, y := Value(a, w, signed), Value(b, w, signed);
            Divide(a, b, w, signed).Some? && Divide(a, b, w, signed).value.0 == TruncDiv(x, y) <==> 0 <= x
    ensures var x, y := Value(a, w, signed), Value(b, w, signed);
            0 <= x ==> Divide(a, b, w, signed) == Some((TruncDiv(x, y), TruncMod(x, y)))
  {
    hide Pow256, TruncDiv, TruncMod;
    var x, y := Value(a, w, signed), Value(b, w, signed);
    QuotientBound(a, y);
    if x < 0 {
      NegativeDividend(a, x, y, Half(w));
    }
  }

  // The two quotients have opposite signs.
  lemma {:induction false} NegativeDividend(a: nat, x: int, y: int, half: int)
    requires 0 < half <= a && -half <= x < 0 && y != 0 && -half <= y < half
    ensures TruncDiv(a, y) != TruncDiv(x, y)
  {
    var d := if y > 0 then y else -y;
    DivBound(a, d);
    DivBound(-x, d);
  }
}
