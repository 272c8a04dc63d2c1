/** The algebra behind chord and tangent addition on y^2 = x^3 + a*x + b modulo p. */
module CurveAlgebra {
  import opened ModArith

  function Cubic(a: int, b: int, x: int): int {
    x * x * x + a * x + b
  }

  /** The cubic minus the square of the line of slope m through (x1, y1), divided by x - x1. */
  function Quot(a: int, m: int, x1: int, y1: int, x: int): int {
    x * x + x * x1 + x1 * x1 + a - m * m * (x - x1) - 2 * m * y1
  }

  function Line(m: int, x1: int, y1: int, x: int): int {
    m * (x - x1) + y1
  }

  lemma LineIdentity(a: int, b: int, m: int, x1: int, y1: int, x: int)
    ensures Line(m, x1, y1, x) * Line(m, x1, y1, x)
         == Cubic(a, b, x) - (Cubic(a, b, x1) - y1 * y1) - (x - x1) * Quot(a, m, x1, y1, x)
  {
  }

  lemma QuotIdentity(a: int, m: int, x1: int, y1: int, x2: int, x3: int)
    ensures Quot(a, m, x1, y1, x3) == Quot(a, m, x1, y1, x2) + (x3 - x2) * (x3 - (m * m - x1 - x2))
  {
  }

  /** The third intersection of a line with the curve, reflected, lies on the curve. */
  lemma ThirdPoint(p: int, a: int, b: int, x1: int, y1: int, x2: int, m: int, x3: int, y3: int)
    requires p > 0
    requires Cong(p, y1 * y1, Cubic(a, b, x1)) && Cong(p, Quot(a, m, x1, y1, x2), 0)
    requires Cong(p, x3, m * m - x1 - x2) && Cong(p, y3, m * (x1 - x3) - y1)
    ensures Cong(p, y3 * y3, Cubic(a, b, x3))
  {
    var q2, q3 := Quot(a, m, x1, y1, x2), Quot(a, m, x1, y1, x3);
    var l := Line(m, x1, y1, x3);
    var e := x3 - (m * m - x1 - x2);
    var t := m * (x1 - x3) - y1;
    // q3 vanishes
    QuotIdentity(a, m, x1, y1, x2, x3);
    CongRefl(p, m * m - x1 - x2);
    CongSub(p, x3, m * m - x1 - x2, m * m - x1 - x2, m * m - x1 - x2);
    CongScale(p, e, 0, x3 - x2);
    CongAdd(p, q2, 0, (x3 - x2) * e, (x3 - x2) * 0);
    assert Cong(p, q3, 0);
    // so the square of the line meets the cubic at x3
    LineIdentity(a, b, m, x1, y1, x3);
    CongScale(p, q3, 0, x3 - x1);
    CongSym(p, y1 * y1, Cubic(a, b, x1));
    CongRefl(p, y1 * y1);
    CongSub(p, Cubic(a, b, x1), y1 * y1, y1 * y1, y1 * y1);
    CongRefl(p, Cubic(a, b, x3));
    CongSub(p, Cubic(a, b, x3), Cubic(a, b, x3), Cubic(a, b, x1) - y1 * y1, 0);
    CongSub(p, Cubic(a, b, x3) - (Cubic(a, b, x1) - y1 * y1), Cubic(a, b, x3) - 0, (x3 - x1) * q3, (x3 - x1) * 0);
    assert Cong(p, l * l, Cubic(a, b, x3));
    NegSquare(m, x1, y1, x3);
    CongMul(p, y3, t, y3, t);
    CongTrans(p, y3 * y3, t * t, Cubic(a, b, x3));
  }

  lemma NegSquare(m: int, x1: int, y1: int, x: int)
    ensures (m * (x1 - x) - y1) * (m * (x1 - x) - y1) == Line(m, x1, y1, x) * Line(m, x1, y1, x)
  {
    assert m * (x1 - x) - y1 == -Line(m, x1, y1, x);
  }

  /** The chord through two points with different x meets the curve at the second. */
  lemma ChordQuot(p: int, a: int, b: int, x1: int, y1: int, x2: int, y2: int, m: int)
    requires IsPrime(p) && !Cong(p, x2 - x1, 0)
    requires Cong(p, y1 * y1, Cubic(a, b, x1)) && Cong(p, y2 * y2, Cubic(a, b, x2))
    requires Cong(p, m * (x2 - x1), y2 - y1)
    ensures Cong(p, Quot(a, m, x1, y1, x2), 0)
  {
    var q, l := Quot(a, m, x1, y1, x2), Line(m, x1, y1, x2);
    var c1, c2 := Cubic(a, b, x1), Cubic(a, b, x2);
    CongRefl(p, y1);
    CongAdd(p, m * (x2 - x1), y2 - y1, y1, y1);
    CongMul(p, l, y2, l, y2);
    CongTrans(p, l * l, y2 * y2, c2);
    LineIdentity(a, b, m, x1, y1, x2);
    CongSym(p, y1 * y1, c1);
    CongSym(p, l * l, c2);
    CongRefl(p, y1 * y1);
    CongRefl(p, l * l);
    CongSub(p, c1, y1 * y1, y1 * y1, y1 * y1);
    CongSub(p, c2, l * l, l * l, l * l);
    CongSub(p, c2 - l * l, l * l - l * l, c1 - y1 * y1, y1 * y1 - y1 * y1);
    assert Cong(p, (x2 - x1) * q, 0);
    PrimeDividesProduct(p, x2 - x1, q);
  }

  /** The tangent at a point meets the curve there twice. */
  lemma TangentQuot(p: int, a: int, x1: int, y1: int, m: int)
    requires p > 0 && Cong(p, m * (2 * y1), 3 * x1 * x1 + a)
    ensures Cong(p, Quot(a, m, x1, y1, x1), 0)
  {
    assert Quot(a, m, x1, y1, x1) == (3 * x1 * x1 + a) - m * (2 * y1);
    CongRefl(p, 3 * x1 * x1 + a);
    CongSub(p, 3 * x1 * x1 + a, 3 * x1 * x1 + a, m * (2 * y1), 3 * x1 * x1 + a);
  }

  /** Taking the points of a chord in the other order gives the same slope and third point. */
  lemma ChordSymmetric(p: int, x1: int, y1: int, x2: int, y2: int, m: int, m': int)
    requires IsPrime(p) && !Cong(p, x2 - x1, 0)
    requires Cong(p, m * (x2 - x1), y2 - y1) && Cong(p, m' * (x1 - x2), y1 - y2)
    ensures Cong(p, m, m')
  {
    var d := x2 - x1;
    CongScale(p, m' * (x1 - x2), y1 - y2, -1);
    assert -1 * (m' * (x1 - x2)) == d * m' && -1 * (y1 - y2) == y2 - y1;
    CongSym(p, d * m', y2 - y1);
    assert m * d == d * m;
    CongTrans(p, d * m, y2 - y1, d * m');
    PrimeInvertible(d, p);
    CancelFactor(p, d, m, m');
  }
}
