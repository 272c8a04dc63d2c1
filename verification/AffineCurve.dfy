/** The affine addition formulas of crypto/ec_p256.py (section 2.2.1 of SEC 1) over an
    arbitrary prime modulus, and their closure and commutativity. */
module AffineCurve {
  import opened Bits
  import opened Wrappers
  import opened ModArith
  import opened CurveAlgebra

  datatype Point = Infinity | Affine(x: int, y: int)

  predicate OnCurve(p: int, a: int, b: int, q: Point)
    requires p > 0
  {
    q == Infinity
    || (0 <= q.x < p && 0 <= q.y < p && (q.y * q.y) % p == Cubic(a, b, q.x) % p)
  }

  /** The point on the line of slope m through (x1, y1) and a point above x2, reflected. */
  function ThirdOnLine(p: int, x1: int, y1: int, x2: int, m: int): Point
    requires p > 0
  {
    var x3 := (m * m - x1 - x2) % p;
    Affine(x3, (m * (x1 - x3) - y1) % p)
  }

  // None stands for the ValueError of a failed inversion.

  function Double(p: int, a: int, q: Point): Option<Point>
    requires p > 0
  {
    if q == Infinity || q.y == 0 then Some(Infinity)
    else
      match ModInv((2 * q.y) % p, p)
      case None => None
      case Some(inv) => Some(ThirdOnLine(p, q.x, q.y, q.x, ((3 * q.x * q.x + a) * inv) % p))
  }

  function Sum(p: int, a: int, q1: Point, q2: Point): Option<Point>
    requires p > 0
  {
    if q1 == Infinity then Some(q2)
    else if q2 == Infinity then Some(q1)
    else if q1.x == q2.x then
      if (q1.y + q2.y) % p == 0 then Some(Infinity) else Double(p, a, q1)
    else
      match ModInv((q2.x - q1.x) % p, p)
      case None => None
      case Some(inv) => Some(ThirdOnLine(p, q1.x, q1.y, q2.x, ((q2.y - q1.y) * inv) % p))
  }

  // ---- Slopes --------------------------------------------------------------------

  lemma SlopeCong(p: int, num: int, den: int, m: int)
    requires p > 0 && ModInv(den % p, p).Some?
    requires m == (num * ModInv(den % p, p).value) % p
    ensures Cong(p, m * den, num)
  {
    var inv := ModInv(den % p, p).value;
    ModInvIsInverse(den % p, p);
    hide ModInv, Cong;
    CongMod(p, num * inv);
    CongMod(p, den);
    CongMul(p, m, num * inv, den, den % p);
    CongScale(p, (den % p) * inv, 1, num);
    RegroupSlope(num, inv, den % p);
    CongTrans(p, m * den, (num * inv) * (den % p), num);
  }

  lemma RegroupSlope(num: int, inv: int, d: int)
    ensures (num * inv) * d == num * (d * inv)
  {
  }

  /** The third point of a line that meets the curve above x1 and x2 lies on the curve. */
  lemma ThirdOnCurve(p: int, a: int, b: int, x1: int, y1: int, x2: int, m: int)
    requires p > 0
    requires Cong(p, y1 * y1, Cubic(a, b, x1)) && Cong(p, Quot(a, m, x1, y1, x2), 0)
    ensures OnCurve(p, a, b, ThirdOnLine(p, x1, y1, x2, m))
  {
    hide Quot, Cubic, Cong;
    var x3 := (m * m - x1 - x2) % p;
    var y3 := (m * (x1 - x3) - y1) % p;
    CongMod(p, m * m - x1 - x2);
    CongMod(p, m * (x1 - x3) - y1);
    ThirdPoint(p, a, b, x1, y1, x2, m, x3, y3);
    CongIsEqualMod(p, y3 * y3, Cubic(a, b, x3));
  }

  // ---- Chords and tangents -----------------------------------------------------------

  lemma ThirdCongs(p: int, x1: int, y1: int, x2: int, m: int, x3: int, y3: int)
    requires p > 0 && Affine(x3, y3) == ThirdOnLine(p, x1, y1, x2, m)
    ensures Cong(p, x1 + x2 + x3, m * m) && Cong(p, -y3 - y1, m * (x3 - x1))
  {
    hide Cong;
    CongMod(p, m * m - x1 - x2);
    CongRefl(p, x1 + x2);
    CongAdd(p, x3, m * m - x1 - x2, x1 + x2, x1 + x2);
    assert x3 + (x1 + x2) == x1 + x2 + x3 && m * m - x1 - x2 + (x1 + x2) == m * m;
    CongMod(p, m * (x1 - x3) - y1);
    CongRefl(p, -y1);
    CongSub(p, -y1, -y1, y3, m * (x1 - x3) - y1);
    assert -y1 - (m * (x1 - x3) - y1) == m * (x3 - x1);
  }

  /** On a line of slope num / den: minus the third point lies on it, and the three x add up to the square
      of the slope. */
  lemma OnLine(p: int, num: int, den: int, m: int, x1: int, y1: int, x2: int, x3: int, y3: int)
    requires p > 0 && Cong(p, m * den, num) && Affine(x3, y3) == ThirdOnLine(p, x1, y1, x2, m)
    ensures Cong(p, num * (x3 - x1), den * (-y3 - y1))
    ensures Cong(p, (x1 + x2 + x3) * (den * den), num * num)
  {
    ThirdCongs(p, x1, y1, x2, m, x3, y3);
    hide Cong, ThirdOnLine;
    CongScale(p, -y3 - y1, m * (x3 - x1), den);
    CongScale(p, m * den, num, x3 - x1);
    Regroup3(den, m, x3 - x1);
    CongTrans(p, den * (-y3 - y1), (m * den) * (x3 - x1), num * (x3 - x1));
    CongSym(p, den * (-y3 - y1), num * (x3 - x1));
    CongScale(p, x1 + x2 + x3, m * m, den * den);
    CongMul(p, m * den, num, m * den, num);
    Regroup4(m, den);
    CongTrans(p, (x1 + x2 + x3) * (den * den), (m * den) * (m * den), num * num);
  }

  lemma Regroup3(d: int, m: int, x: int)
    ensures d * (m * x) == (m * d) * x
  {
  }

  lemma Regroup4(m: int, d: int)
    ensures (m * m) * (d * d) == (m * d) * (m * d)
  {
  }

  lemma ChordSum(p: int, a: int, x1: int, y1: int, x2: int, y2: int, x3: int, y3: int)
    requires p > 0 && x1 != x2 && Sum(p, a, Affine(x1, y1), Affine(x2, y2)) == Some(Affine(x3, y3))
    ensures Cong(p, (y2 - y1) * (x3 - x1), (x2 - x1) * (-y3 - y1))
    ensures Cong(p, (x1 + x2 + x3) * ((x2 - x1) * (x2 - x1)), (y2 - y1) * (y2 - y1))
    ensures 0 <= x3 < p && 0 <= y3 < p
  {
    hide Cong, ModInv;
    var m := ((y2 - y1) * ModInv((x2 - x1) % p, p).value) % p;
    SlopeCong(p, y2 - y1, x2 - x1, m);
    OnLine(p, y2 - y1, x2 - x1, m, x1, y1, x2, x3, y3);
  }

  lemma TangentDouble(p: int, a: int, x1: int, y1: int, x3: int, y3: int)
    requires p > 0 && Double(p, a, Affine(x1, y1)) == Some(Affine(x3, y3))
    ensures Cong(p, (3 * x1 * x1 + a) * (x3 - x1), 2 * y1 * (-y3 - y1))
    ensures Cong(p, (2 * x1 + x3) * (4 * y1 * y1), (3 * x1 * x1 + a) * (3 * x1 * x1 + a))
    ensures 0 <= x3 < p && 0 <= y3 < p
  {
    hide Cong, ModInv;
    var m := ((3 * x1 * x1 + a) * ModInv((2 * y1) % p, p).value) % p;
    SlopeCong(p, 3 * x1 * x1 + a, 2 * y1, m);
    OnLine(p, 3 * x1 * x1 + a, 2 * y1, m, x1, y1, x1, x3, y3);
    FourSquares(y1);
  }

  lemma FourSquares(y: int)
    ensures (2 * y) * (2 * y) == 4 * y * y
  {
  }

  /** At most one point satisfies the two congruences. */
  lemma OneThirdPoint(p: int, num: int, den: int, x1: int, y1: int, x2: int, x3: int, y3: int, x4: int, y4: int)
    requires p > 0 && ModInv(den, p).Some?
    requires 0 <= x3 < p && 0 <= y3 < p && 0 <= x4 < p && 0 <= y4 < p
    requires Cong(p, num * (x3 - x1), den * (-y3 - y1)) && Cong(p, num * (x4 - x1), den * (-y4 - y1))
    requires Cong(p, (x1 + x2 + x3) * (den * den), num * num) && Cong(p, (x1 + x2 + x4) * (den * den), num * num)
    ensures x3 == x4 && y3 == y4
  {
    hide Cong, ModInv;
    CongSym(p, (x1 + x2 + x4) * (den * den), num * num);
    CongTrans(p, (x1 + x2 + x3) * (den * den), num * num, (x1 + x2 + x4) * (den * den));
    CancelSquare(p, den, x1 + x2 + x3, x1 + x2 + x4);
    CancelTerm(p, x1 + x2, x3, x4);
    SmallMultiple(p, x3, x4);
    CongSym(p, num * (x3 - x1), den * (-y3 - y1));
    CongTrans(p, den * (-y3 - y1), num * (x3 - x1), den * (-y4 - y1));
    CancelFactor(p, den, -y3 - y1, -y4 - y1);
    CongScale(p, -y3 - y1, -y4 - y1, -1);
    CancelTerm(p, y1, y3, y4);
    SmallMultiple(p, y3, y4);
  }

  lemma CancelTerm(p: int, c: int, a: int, b: int)
    requires p > 0 && Cong(p, c + a, c + b)
    ensures Cong(p, a, b)
  {
    CongRefl(p, c);
    CongSub(p, c + a, c + b, c, c);
  }

  lemma CancelSquare(p: int, d: int, a: int, b: int)
    requires p > 0 && ModInv(d, p).Some? && Cong(p, a * (d * d), b * (d * d))
    ensures Cong(p, a, b)
  {
    hide Cong, ModInv;
    assert a * (d * d) == d * (d * a) && b * (d * d) == d * (d * b);
    CancelFactor(p, d, d * a, d * b);
    CancelFactor(p, d, a, b);
  }

  lemma DoubleInvertible(p: int, y: int)
    requires IsPrime(p) && p > 2 && 0 < y < p
    ensures ModInv((2 * y) % p, p).Some? && !Cong(p, 2 * y, 0)
  {
    SmallMod(p, 2);
    SmallMod(p, y);
    SmallMod(p, 0);
    CongIsEqualMod(p, 2, 0);
    CongIsEqualMod(p, y, 0);
    hide IsPrime, ModInv, Cong;
    if Cong(p, 2 * y, 0) {
      PrimeDividesProduct(p, 2, y);
    }
    PrimeInvertible(2 * y, p);
    ModInvOfRemainder(2 * y, p);
  }

  lemma DifferenceInvertible(p: int, d: int)
    requires IsPrime(p) && -p < d < p && d != 0
    ensures ModInv(d % p, p).Some? && !Cong(p, d, 0)
  {
    CongIsEqualMod(p, d, 0);
    SmallMod(p, 0);
    SmallMod(p, if d > 0 then d else d + p);
    CongIntro(p, d, d + p, -1);
    CongIsEqualMod(p, d, d + p);
    hide IsPrime, ModInv, Cong;
    PrimeInvertible(d, p);
    ModInvOfRemainder(d, p);
  }

  // ---- What the sum is, on coordinates -------------------------------------------------

  /** The point below or above (x3, y3) lies on the line through (x1, y1) and (x2, y2), and the square of
      its slope is x1 + x2 + x3. */
  ghost predicate ReflectsChord(p: int, x1: int, y1: int, x2: int, y2: int, x3: int, y3: int)
    requires p > 0
  {
    && 0 <= x3 < p && 0 <= y3 < p
    && Cong(p, (y2 - y1) * (x3 - x1), (x2 - x1) * (-y3 - y1))
    && Cong(p, (x1 + x2 + x3) * ((x2 - x1) * (x2 - x1)), (y2 - y1) * (y2 - y1))
  }

  /** The same for the tangent at (x1, y1). */
  ghost predicate ReflectsTangent(p: int, a: int, x1: int, y1: int, x3: int, y3: int)
    requires p > 0
  {
    && 0 <= x3 < p && 0 <= y3 < p
    && Cong(p, (3 * x1 * x1 + a) * (x3 - x1), 2 * y1 * (-y3 - y1))
    && Cong(p, (2 * x1 + x3) * (4 * y1 * y1), (3 * x1 * x1 + a) * (3 * x1 * x1 + a))
  }

  /** The sum of two points is the third point of their chord, reflected at the x axis: that one and no
      other. */
  lemma ChordSumIff(p: int, a: int, x1: int, y1: int, x2: int, y2: int, x3: int, y3: int)
    requires IsPrime(p) && 0 <= x1 < p && 0 <= x2 < p && x1 != x2
    ensures Sum(p, a, Affine(x1, y1), Affine(x2, y2)) == Some(Affine(x3, y3))
            <==> ReflectsChord(p, x1, y1, x2, y2, x3, y3)
    ensures Sum(p, a, Affine(x1, y1), Affine(x2, y2)) != Some(Infinity)
  {
    DifferenceInvertible(p, x2 - x1);
    PrimeInvertible(x2 - x1, p);
    hide Cong, ModInv, IsPrime, ThirdOnLine;
    var r := Sum(p, a, Affine(x1, y1), Affine(x2, y2)).value;
    ThirdIsAffine(p, x1, y1, x2, ((y2 - y1) * ModInv((x2 - x1) % p, p).value) % p);
    ChordSum(p, a, x1, y1, x2, y2, r.x, r.y);
    if ReflectsChord(p, x1, y1, x2, y2, x3, y3) {
      OneThirdPoint(p, y2 - y1, x2 - x1, x1, y1, x2, x3, y3, r.x, r.y);
    }
  }

  lemma ThirdIsAffine(p: int, x1: int, y1: int, x2: int, m: int)
    requires p > 0
    ensures ThirdOnLine(p, x1, y1, x2, m).Affine?
  {
  }

  /** Twice a point is the third point of its tangent, reflected at the x axis: that one and no other. */
  lemma TangentDoubleIff(p: int, a: int, x1: int, y1: int, x3: int, y3: int)
    requires IsPrime(p) && p > 2 && 0 < y1 < p
    ensures Double(p, a, Affine(x1, y1)) == Some(Affine(x3, y3)) <==> ReflectsTangent(p, a, x1, y1, x3, y3)
    ensures Double(p, a, Affine(x1, y1)) != Some(Infinity)
  {
    DoubleInvertible(p, y1);
    PrimeInvertible(2 * y1, p);
    hide Cong, ModInv, IsPrime, ThirdOnLine;
    var r := Double(p, a, Affine(x1, y1)).value;
    ThirdIsAffine(p, x1, y1, x1, ((3 * x1 * x1 + a) * ModInv((2 * y1) % p, p).value) % p);
    TangentDouble(p, a, x1, y1, r.x, r.y);
    if ReflectsTangent(p, a, x1, y1, x3, y3) {
      FourSquares(y1);
      OneThirdPoint(p, 3 * x1 * x1 + a, 2 * y1, x1, y1, x1, x3, y3, r.x, r.y);
    }
  }

  // ---- Closure ---------------------------------------------------------------------

  lemma OnCurveCong(p: int, a: int, b: int, q: Point)
    requires p > 0 && q != Infinity && OnCurve(p, a, b, q)
    ensures Cong(p, q.y * q.y, Cubic(a, b, q.x))
  {
    CongIsEqualMod(p, q.y * q.y, Cubic(a, b, q.x));
  }

  /** Doubling a point of the curve never fails and stays on the curve. */
  lemma DoubleClosed(p: int, a: int, b: int, q: Point)
    requires IsPrime(p) && p > 2 && OnCurve(p, a, b, q)
    ensures Double(p, a, q).Some? && OnCurve(p, a, b, Double(p, a, q).value)
  {
    if q != Infinity && q.y != 0 {
      DoubleInvertible(p, q.y);
      OnCurveCong(p, a, b, q);
      var m := ((3 * q.x * q.x + a) * ModInv((2 * q.y) % p, p).value) % p;
      hide IsPrime, Cong, Cubic, OnCurve, ModInv;
      SlopeCong(p, 3 * q.x * q.x + a, 2 * q.y, m);
      TangentQuot(p, a, q.x, q.y, m);
      ThirdOnCurve(p, a, b, q.x, q.y, q.x, m);
    }
  }

  /** Adding points of the curve never fails and stays on the curve. */
  lemma SumClosed(p: int, a: int, b: int, q1: Point, q2: Point)
    requires IsPrime(p) && p > 2 && OnCurve(p, a, b, q1) && OnCurve(p, a, b, q2)
    ensures Sum(p, a, q1, q2).Some? && OnCurve(p, a, b, Sum(p, a, q1, q2).value)
  {
    DoubleClosed(p, a, b, q1);
    if q1 != Infinity && q2 != Infinity && q1.x != q2.x {
      DifferenceInvertible(p, q2.x - q1.x);
      OnCurveCong(p, a, b, q1);
      OnCurveCong(p, a, b, q2);
      var m := ((q2.y - q1.y) * ModInv((q2.x - q1.x) % p, p).value) % p;
      hide IsPrime, Cong, Cubic, OnCurve, ModInv, Double;
      SlopeCong(p, q2.y - q1.y, q2.x - q1.x, m);
      ChordQuot(p, a, b, q1.x, q1.y, q2.x, q2.y, m);
      ThirdOnCurve(p, a, b, q1.x, q1.y, q2.x, m);
    }
  }

  // ---- Commutativity ------------------------------------------------------------------

  lemma SquareRoots(p: int, y1: int, y2: int)
    requires IsPrime(p) && 0 <= y1 < p && 0 <= y2 < p && (y1 * y1) % p == (y2 * y2) % p
    ensures y1 == y2 || (y1 + y2) % p == 0
  {
    CongIsEqualMod(p, y1 * y1, y2 * y2);
    CongRefl(p, y2 * y2);
    CongSub(p, y1 * y1, y2 * y2, y2 * y2, y2 * y2);
    assert y1 * y1 - y2 * y2 == (y1 - y2) * (y1 + y2);
    PrimeDividesProduct(p, y1 - y2, y1 + y2);
    if Cong(p, y1 + y2, 0) {
      CongIsEqualMod(p, y1 + y2, 0);
    } else {
      CongRefl(p, y2);
      CongAdd(p, y1 - y2, 0, y2, y2);
      SmallMultiple(p, y1, y2);
    }
  }

  /** Two points of the curve with one x coordinate are equal or opposite. */
  lemma SameX(p: int, a: int, b: int, q1: Point, q2: Point)
    requires IsPrime(p) && OnCurve(p, a, b, q1) && OnCurve(p, a, b, q2)
    requires q1 != Infinity && q2 != Infinity && q1.x == q2.x
    ensures q1 == q2 || (q1.y + q2.y) % p == 0
  {
    hide Cubic;
    SquareRoots(p, q1.y, q2.y);
  }

  lemma ChordCommutes(p: int, x1: int, y1: int, x2: int, y2: int, m: int, m': int, x3: int)
    requires IsPrime(p) && !Cong(p, x2 - x1, 0)
    requires Cong(p, m * (x2 - x1), y2 - y1) && Cong(p, m' * (x1 - x2), y1 - y2)
    requires 0 <= m < p && 0 <= m' < p
    ensures m == m' && (m * (x1 - x3) - y1) % p == (m * (x2 - x3) - y2) % p
  {
    ChordSymmetric(p, x1, y1, x2, y2, m, m');
    SmallMultiple(p, m, m');
    var s := m * (x1 - x3) - y1;
    var t := m * (x2 - x3) - y2;
    assert t - s == m * (x2 - x1) - (y2 - y1);
    CongRefl(p, y2 - y1);
    CongSub(p, m * (x2 - x1), y2 - y1, y2 - y1, y2 - y1);
    CongRefl(p, s);
    CongAdd(p, t - s, 0, s, s);
    CongIsEqualMod(p, t, s);
  }

  /** Addition commutes on every branch: identity, inverse, doubling and chord. */
  lemma SumCommutes(p: int, a: int, b: int, q1: Point, q2: Point)
    requires IsPrime(p) && OnCurve(p, a, b, q1) && OnCurve(p, a, b, q2)
    ensures Sum(p, a, q1, q2) == Sum(p, a, q2, q1)
  {
    hide Double;
    if q1 != Infinity && q2 != Infinity {
      if q1.x == q2.x {
        SameX(p, a, b, q1, q2);
      } else {
        var d, d' := q2.x - q1.x, q1.x - q2.x;
        DifferenceInvertible(p, d);
        DifferenceInvertible(p, d');
        hide IsPrime, Cong, OnCurve, ModInv;
        var m := ((q2.y - q1.y) * ModInv(d % p, p).value) % p;
        var m' := ((q1.y - q2.y) * ModInv(d' % p, p).value) % p;
        SlopeCong(p, q2.y - q1.y, d, m);
        SlopeCong(p, q1.y - q2.y, d', m');
        ChordCommutes(p, q1.x, q1.y, q2.x, q2.y, m, m', (m * m - q1.x - q2.x) % p);
        assert m * m - q1.x - q2.x == m * m - q2.x - q1.x;
      }
    }
  }

  // ---- Identity and inverse ---------------------------------------------------------------

  function Negate(p: int, q: Point): Point
    requires p > 0
  {
    if q == Infinity then Infinity else Affine(q.x, (p - q.y) % p)
  }

  lemma SumInverse(p: int, a: int, b: int, q: Point)
    requires p > 0 && OnCurve(p, a, b, q)
    ensures OnCurve(p, a, b, Negate(p, q)) && Sum(p, a, q, Negate(p, q)) == Some(Infinity)
  {
    hide Cubic;
    if q != Infinity && q.y != 0 {
      SmallMod(p, p - q.y);
      NegativeSquare(p, q.y);
      CongIsEqualMod(p, p, 0);
      CongIntro(p, p, 0, 1);
    }
  }

  /** Only a point's negation adds to it to give the identity. */
  lemma OppositeSum(p: int, a: int, b: int, q1: Point, q2: Point)
    requires IsPrime(p) && p > 2 && OnCurve(p, a, b, q1) && OnCurve(p, a, b, q2)
    ensures Sum(p, a, q1, q2) == Some(Infinity) <==> q2 == Negate(p, q1)
  {
    hide Cubic;
    if q1.Affine? && q2.Affine? {
      if q1.x != q2.x {
        hide IsPrime, Sum;
        ChordSumIff(p, a, q1.x, q1.y, q2.x, q2.y, 0, 0);
      } else {
        ZeroSum(p, q1.y, q2.y);
        SameX(p, a, b, q1, q2);
        hide IsPrime, Double, OnCurve;
        if q1.y != 0 {
          TangentDoubleIff(p, a, q1.x, q1.y, 0, 0);
        }
      }
    }
  }

  lemma ZeroSum(p: int, y1: int, y2: int)
    requires 0 <= y1 < p && 0 <= y2 < p
    ensures (y1 + y2) % p == 0 <==> y2 == (p - y1) % p
  {
    SmallMod(p, if y1 == 0 then 0 else p - y1);
    ModOfP(p);
    if y1 + y2 < p {
      SmallMod(p, y1 + y2);
    } else {
      DivUnique(y1 + y2, p, 1, y1 + y2 - p);
    }
  }

  lemma ModOfP(p: int)
    requires p > 0
    ensures p % p == 0
  {
    DivUnique(p, p, 1, 0);
  }

  lemma SmallMod(p: int, x: int)
    requires 0 <= x < p
    ensures x % p == x
  {
  }

  lemma NegativeSquare(p: int, y: int)
    requires p > 0
    ensures ((p - y) * (p - y)) % p == (y * y) % p
  {
    assert (p - y) * (p - y) - y * y == p * (p - 2 * y);
    CongIntro(p, (p - y) * (p - y), y * y, p - 2 * y);
    CongIsEqualMod(p, (p - y) * (p - y), y * y);
  }

  /** Doubling is adding a point to itself. */
  lemma DoubleIsSum(p: int, a: int, b: int, q: Point)
    requires p > 2 && p % 2 == 1 && OnCurve(p, a, b, q)
    ensures Double(p, a, q) == Sum(p, a, q, q)
  {
    hide Cubic, ModInv, ThirdOnLine;
    if q != Infinity {
      TwiceMod(p, q.y);
    }
  }

  lemma TwiceMod(p: int, y: int)
    requires p % 2 == 1 && 0 <= y < p
    ensures (y + y) % p == 0 <==> y == 0
  {
    if y + y < p {
      SmallMod(p, y + y);
    } else {
      DivUnique(y + y, p, 1, y + y - p);
    }
  }
}
