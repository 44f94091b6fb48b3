/** The C++ `int` of the simulator: 32-bit two's complement, with the
    operators whose behaviour differs from Dafny's unbounded `int`. */
module Ints {

  const MinInt: int := -0x8000_0000
  const MaxInt: int := 0x7FFF_FFFF

  /** Every `int` field of the simulator. */
  newtype Int32 = x: int | -0x8000_0000 <= x <= 0x7FFF_FFFF

  predicate InRange(x: int) { MinInt <= x <= MaxInt }

  function Abs(x: int): nat { if x < 0 then -x else x }

  /** C++ `a / b` on integers: the quotient truncated toward zero, so that the
      remainder `a - q * b` is smaller than `b` in magnitude and never has the
      opposite sign of `a`. */
  function Quot(a: int, b: int): (q: int)
    requires b != 0
    ensures Abs(a - q * b) < Abs(b)
    ensures a - q * b == 0 || (a - q * b < 0 <==> a < 0)
  {
    var k := Abs(a) / Abs(b);
    var q := if (a < 0) == (b < 0) then k else -k;
    QuotRemainder(a, b, k, q);
    q
  }

  /** The remainder left by truncated division is that of the magnitudes,
      carrying the sign of the dividend. */
  lemma QuotRemainder(a: int, b: int, k: int, q: int)
    requires b != 0 && k == Abs(a) / Abs(b)
    requires q == if (a < 0) == (b < 0) then k else -k
    ensures Abs(a - q * b) < Abs(b)
    ensures a - q * b == 0 || (a - q * b < 0 <==> a < 0)
  {
    var n, d := Abs(a), Abs(b);
    var m := k * d;
    EuclidNat(n, d);
    assert 0 <= n - m < d;
    if a < 0 && b < 0 {
      NegMul(k, d);
      assert q * b == -m;
    } else if a < 0 {
      NegMul(k, d);
      assert q * b == -m;
    } else if b < 0 {
      NegMul(k, d);
      assert q * b == m;
    } else {
      assert q * b == m;
    }
  }

  lemma EuclidNat(n: nat, d: nat)
    requires d > 0
    ensures 0 <= n - (n / d) * d < d
  {
  }

  lemma NegMul(k: int, d: int)
    ensures k * (-d) == -(k * d) && (-k) * d == -(k * d) && (-k) * (-d) == k * d
  {
  }

  /** Two's complement wrap-around of an unbounded result into an `int`. */
  function Wrap(x: int): (r: Int32)
    ensures InRange(x) ==> r as int == x
    ensures (r as int - x) % 0x1_0000_0000 == 0
  {
    var m := x % 0x1_0000_0000;
    if m <= MaxInt then m as Int32 else (m - 0x1_0000_0000) as Int32
  }
}
