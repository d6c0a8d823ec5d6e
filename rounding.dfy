/** Python's built-in `round()` applied to a quotient `n / d`: rounds to the
    nearest integer and resolves an exact half towards the even neighbour.
    The quotient is taken exactly, as a rational number. */
module Rounding {

  function Abs(x: int): nat { if x < 0 then -x else x }

  /** `round(n / d)`. */
  function RoundHalfEven(n: int, d: int): (r: int)
    requires d != 0
    decreases if d < 0 then 1 else 0
  {
    if d < 0 then RoundHalfEven(-n, -d)
    else
      var q, rem := n / d, n % d;
      if 2 * rem < d then q
      else if 2 * rem > d then q + 1
      else if q % 2 == 0 then q
      else q + 1
  }

  /** The result is a nearest integer to n / d, and an even one on a tie. */
  lemma RoundHalfEvenNearest(n: int, d: int)
    requires d != 0
    ensures 2 * Abs(n - RoundHalfEven(n, d) * d) <= Abs(d)
    ensures 2 * Abs(n - RoundHalfEven(n, d) * d) == Abs(d) ==> RoundHalfEven(n, d) % 2 == 0
  {
    if d < 0 {
      NearestPositive(-n, -d);
      var r := RoundHalfEven(-n, -d);
      MulNeg(r, d);
      assert n - r * d == -(-n - r * (-d));
    } else {
      NearestPositive(n, d);
    }
  }

  lemma NearestPositive(n: int, d: int)
    requires d > 0
    ensures 2 * Abs(n - RoundHalfEven(n, d) * d) <= d
    ensures 2 * Abs(n - RoundHalfEven(n, d) * d) == d ==> RoundHalfEven(n, d) % 2 == 0
  {
    var q, rem := n / d, n % d;
    assert n == q * d + rem;
    MulSucc(q, d);
    var r := RoundHalfEven(n, d);
    if 2 * rem < d {
      assert r == q;
    } else if 2 * rem > d {
      assert r == q + 1;
    } else if q % 2 == 0 {
      assert r == q;
    } else {
      assert r == q + 1;
    }
  }

  lemma MulSucc(q: int, d: int)
    ensures (q + 1) * d == q * d + d
  {
  }

  lemma MulNeg(r: int, d: int)
    ensures r * (-d) == -(r * d)
  {
  }

  /** Rounding is monotone in the numerator for a positive denominator. */
  lemma RoundHalfEvenMonotone(n1: int, n2: int, d: int)
    requires d > 0 && n1 <= n2
    ensures RoundHalfEven(n1, d) <= RoundHalfEven(n2, d)
  {
    var r1, r2 := RoundHalfEven(n1, d), RoundHalfEven(n2, d);
    RoundHalfEvenNearest(n1, d);
    RoundHalfEvenNearest(n2, d);
    if r1 > r2 {
      var p1, p2 := r1 * d, r2 * d;
      var e1, e2 := n1 - p1, n2 - p2;
      assert -d <= 2 * e1 && 2 * e2 <= d;
      var k := r1 - r2;
      assert p1 - p2 == k * d by { Distribute(r1, r2, d); }
      MulAtLeast(k, d);
      assert false;
    }
  }

  lemma Distribute(a: int, b: int, d: int)
    ensures a * d - b * d == (a - b) * d
  {
  }

  lemma MulAtLeast(k: int, d: int)
    requires k >= 1 && d > 0
    ensures k * d >= d
  {
  }
}
