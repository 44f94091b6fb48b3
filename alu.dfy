/** The overflow-checked arithmetic of the ALU (src/cpu.cpp:24-47, the same
    in cpu.cpp:141-164). Each check returns `None` for "overflow" — the C++
    function returns true and leaves its out-parameter untouched — or the
    result it stores. */
module Alu {
  import opened Results
  import opened Ints

  /** `check_add_overflow` (src/cpu.cpp:24-33), with its two guards as written:
      it reports overflow exactly when the sum does not fit. */
  function CheckAdd(a: Int32, b: Int32): (r: Option<Int32>)
    ensures r.None? <==> !InRange(a as int + b as int)
    ensures r.Some? ==> r.value as int == a as int + b as int
  {
    if b > 0 && a as int > MaxInt - b as int then None
    else if b < 0 && a as int < MinInt - b as int then None
    else Some((a as int + b as int) as Int32)
  }

  /** `check_mul_overflow` (src/cpu.cpp:35-47), with the C++ truncating
      divisions of its guards: it reports overflow exactly when the product
      does not fit. */
  function CheckMul(a: Int32, b: Int32): (r: Option<Int32>)
    ensures r.None? <==> !InRange(a as int * b as int)
    ensures r.Some? ==> r.value as int == a as int * b as int
  {
    var x, y := a as int, b as int;
    if x == 0 || y == 0 then
      Some(0)
    else if x > 0 && y > 0 && x > Quot(MaxInt, y) then
      MulGuardPositive(x, y);
      None
    else if x < 0 && y < 0 && x < Quot(MaxInt, y) then
      MulGuardNegatives(x, y);
      None
    else if x > 0 && y < 0 && y < Quot(MinInt, x) then
      MulGuardMixed(x, y);
      None
    else if x < 0 && y > 0 && x < Quot(MinInt, y) then
      MulGuardMixed(y, x);
      None
    else
      MulFits(x, y);
      Some((x * y) as Int32)
  }

  /** When none of the four guards fires, the product fits. */
  lemma MulFits(x: int, y: int)
    requires InRange(x) && InRange(y) && x != 0 && y != 0
    requires !(x > 0 && y > 0 && x > Quot(MaxInt, y))
    requires !(x < 0 && y < 0 && x < Quot(MaxInt, y))
    requires !(x > 0 && y < 0 && y < Quot(MinInt, x))
    requires !(x < 0 && y > 0 && x < Quot(MinInt, y))
    ensures InRange(x * y)
  {
    if x > 0 && y > 0 {
      MulGuardPositive(x, y);
      MulPositive(x, y);
    } else if x < 0 && y < 0 {
      MulGuardNegatives(x, y);
      MulPositive(-x, -y);
      assert (-x) * (-y) == x * y;
    } else if x > 0 {
      MulGuardMixed(x, y);
      MulPositive(x, -y);
      assert x * (-y) == -(x * y);
    } else {
      MulGuardMixed(y, x);
      MulPositive(-x, y);
      assert (-x) * y == -(x * y);
      assert y * x == x * y;
    }
  }

  lemma MulPositive(x: int, y: int)
    requires x > 0 && y > 0
    ensures x * y > 0
  {
  }

  /** For positive `x` and `y`: `x > n / y` exactly when `x * y > n`. */
  lemma DivBound(x: int, y: int, n: int)
    requires x > 0 && y > 0 && n >= 0
    ensures x > n / y <==> x * y > n
  {
    var q, m := n / y, n % y;
    assert n == q * y + m && 0 <= m < y;
    if x > q {
      assert x * y >= (q + 1) * y by {
        MulMonotone(q + 1, x, y);
      }
    } else {
      assert x * y <= q * y by {
        MulMonotone(x, q, y);
      }
    }
  }

  lemma MulMonotone(a: int, b: int, y: int)
    requires a <= b && y > 0
    ensures a * y <= b * y
  {
    assert b * y - a * y == (b - a) * y;
  }

  /** Both positive: the guard `x > INT_MAX / y` is exact. */
  lemma MulGuardPositive(x: int, y: int)
    requires x > 0 && y > 0
    ensures x > Quot(MaxInt, y) <==> x * y > MaxInt
  {
    DivBound(x, y, MaxInt);
  }

  /** Both negative: the guard `x < INT_MAX / y` is exact. */
  lemma MulGuardNegatives(x: int, y: int)
    requires x < 0 && y < 0
    ensures x < Quot(MaxInt, y) <==> x * y > MaxInt
  {
    assert Quot(MaxInt, y) == -(MaxInt / -y);
    DivBound(-x, -y, MaxInt);
    assert (-x) * (-y) == x * y;
  }

  /** Opposite signs, `x` positive: the guard `y < INT_MIN / x` is exact. */
  lemma MulGuardMixed(x: int, y: int)
    requires x > 0 && y < 0
    ensures y < Quot(MinInt, x) <==> x * y < MinInt
  {
    assert Quot(MinInt, x) == -(-MinInt / x);
    DivBound(-y, x, -MinInt);
    assert (-y) * x == -(x * y);
  }

  /** Subtraction as update_alu writes it (src/cpu.cpp:63): the add check on
      `-b`. Negating `INT_MIN` is undefined in C++; on two's-complement
      hardware it gives `INT_MIN` back, which is what `Wrap` models. */
  function SubtractAsWritten(a: Int32, b: Int32): (r: Option<Int32>)
    ensures b as int != MinInt ==> r == CheckSub(a, b)
  {
    CheckAdd(a, Wrap(-(b as int)))
  }

  /** Subtraction with its intended check: overflow exactly when the
      difference does not fit. */
  function CheckSub(a: Int32, b: Int32): (r: Option<Int32>)
    ensures r.None? <==> !InRange(a as int - b as int)
    ensures r.Some? ==> r.value as int == a as int - b as int
  {
    var d := a as int - b as int;
    if InRange(d) then Some(d as Int32) else None
  }

  /** `0 - INT_MIN` does not fit, yet the written check reports no overflow
      and stores `INT_MIN`. */
  lemma SubtractMissesOverflow()
    ensures SubtractAsWritten(0, MinInt as Int32) == Some(MinInt as Int32)
    ensures CheckSub(0, MinInt as Int32) == None
  {
    assert Wrap(-MinInt) as int == MinInt;
  }

  /** `-1 - INT_MIN` is `INT_MAX`, yet the written check reports overflow. */
  lemma SubtractFalseOverflow()
    ensures SubtractAsWritten(-1, MinInt as Int32) == None
    ensures CheckSub(-1, MinInt as Int32) == Some(MaxInt as Int32)
  {
    assert Wrap(-MinInt) as int == MinInt;
  }

  /** C++ `a / b` on `int`; `INT_MIN / -1` is the one quotient that does not
      fit. */
  lemma QuotFits(a: Int32, b: Int32)
    requires b != 0 && !(a as int == MinInt && b == -1)
    ensures InRange(Quot(a as int, b as int))
  {
    var x, y := a as int, b as int;
    var k := Abs(x) / Abs(y);
    assert Quot(x, y) == if (x < 0) == (y < 0) then k else -k;
    SignedQuotientFits(x, y, k);
  }

  /** The quotient of the magnitudes, with the sign `Quot` gives it, is in
      range unless the division is `INT_MIN / -1`. */
  lemma SignedQuotientFits(x: int, y: int, k: int)
    requires InRange(x) && InRange(y) && y != 0 && !(x == MinInt && y == -1)
    requires k == Abs(x) / Abs(y)
    ensures InRange(if (x < 0) == (y < 0) then k else -k)
  {
    DivShrinks(Abs(x), Abs(y));
    if k == -MinInt {
      assert Abs(y) == 1;
      assert x == MinInt && y == 1;
    }
  }

  /** Dividing by at least one never grows a natural number, and dividing by
      at least two shrinks a positive one. */
  lemma DivShrinks(n: nat, d: nat)
    requires d >= 1
    ensures n / d <= n
    ensures d >= 2 && n > 0 ==> n / d < n
  {
    var k := n / d;
    assert k * d <= n;
    MulMonotone(1, d, k + 1);
    if d >= 2 && n > 0 {
      MulMonotone(2, d, k + 1);
    }
  }
}
