/** Congruences, inverses and primes: what crypto/ec_p256.py and crypto/ecdsa.py take from
    Python's `%` and `pow(a, -1, m)`. */
module ModArith {
  import opened Bits
  import opened Wrappers

  // ---- Congruence ---------------------------------------------------------

  /** a and b leave the same remainder modulo p. */
  ghost predicate Cong(p: int, a: int, b: int)
    requires p > 0
  {
    exists k: int :: Differ(p, k, a, b)
  }

  ghost predicate Differ(p: int, k: int, a: int, b: int) {
    a - b == p * k
  }

  ghost predicate Multiple(p: int, k: int, n: int) {
    n == p * k
  }

  lemma CongIntro(p: int, a: int, b: int, k: int)
    requires p > 0 && a - b == p * k
    ensures Cong(p, a, b)
  {
    assert Differ(p, k, a, b);
  }

  lemma CongRefl(p: int, a: int)
    requires p > 0
    ensures Cong(p, a, a)
  {
    CongIntro(p, a, a, 0);
  }

  lemma CongSym(p: int, a: int, b: int)
    requires p > 0 && Cong(p, a, b)
    ensures Cong(p, b, a)
  {
    var k :| Differ(p, k, a, b);
    assert b - a == p * -k;
    CongIntro(p, b, a, -k);
  }

  lemma CongTrans(p: int, a: int, b: int, c: int)
    requires p > 0 && Cong(p, a, b) && Cong(p, b, c)
    ensures Cong(p, a, c)
  {
    var k :| Differ(p, k, a, b);
    var l :| Differ(p, l, b, c);
    assert p * k + p * l == p * (k + l);
    CongIntro(p, a, c, k + l);
  }

  lemma CongAdd(p: int, a: int, b: int, c: int, d: int)
    requires p > 0 && Cong(p, a, b) && Cong(p, c, d)
    ensures Cong(p, a + c, b + d)
  {
    var k :| Differ(p, k, a, b);
    var l :| Differ(p, l, c, d);
    assert p * k + p * l == p * (k + l);
    CongIntro(p, a + c, b + d, k + l);
  }

  lemma CongScale(p: int, a: int, b: int, c: int)
    requires p > 0 && Cong(p, a, b)
    ensures Cong(p, c * a, c * b) && Cong(p, a * c, b * c)
  {
    var k :| Differ(p, k, a, b);
    ScaleMultiple(p, k, c);
    assert c * a - c * b == c * (a - b);
    CongIntro(p, c * a, c * b, k * c);
  }

  lemma ScaleMultiple(p: int, k: int, c: int)
    ensures c * (p * k) == p * (k * c)
  {
  }

  lemma CongSub(p: int, a: int, b: int, c: int, d: int)
    requires p > 0 && Cong(p, a, b) && Cong(p, c, d)
    ensures Cong(p, a - c, b - d)
  {
    CongScale(p, c, d, -1);
    CongAdd(p, a, b, -1 * c, -1 * d);
  }

  lemma CongMul(p: int, a: int, b: int, c: int, d: int)
    requires p > 0 && Cong(p, a, b) && Cong(p, c, d)
    ensures Cong(p, a * c, b * d)
  {
    CongScale(p, a, b, c);
    CongScale(p, c, d, b);
    CongTrans(p, a * c, b * c, b * d);
  }

  lemma CongMod(p: int, a: int)
    requires p > 0
    ensures Cong(p, a % p, a) && Cong(p, a, a % p)
  {
    assert a == p * (a / p) + a % p;
    CongIntro(p, a, a % p, a / p);
    CongSym(p, a, a % p);
  }

  /** Congruent numbers have equal remainders, and conversely. */
  lemma CongIsEqualMod(p: int, a: int, b: int)
    requires p > 0
    ensures Cong(p, a, b) <==> a % p == b % p
  {
    CongMod(p, a);
    CongMod(p, b);
    if a % p == b % p {
      CongTrans(p, a, a % p, b);
    } else if Cong(p, a, b) {
      CongTrans(p, a % p, a, b);
      CongTrans(p, a % p, b, b % p);
      SmallMultiple(p, a % p, b % p);
    }
  }

  lemma SmallMultiple(p: int, a: int, b: int)
    requires p > 0 && 0 <= a < p && 0 <= b < p && Cong(p, a, b)
    ensures a == b
  {
    var k :| Differ(p, k, a, b);
    MulAtLeast(p, k);
  }

  // ---- Greatest common divisors ----------------------------------------------

  datatype Bezout = Bezout(g: nat, x: int, y: int)

  ghost predicate Divides(d: int, n: int) {
    exists k: int :: Multiple(d, k, n)
  }

  lemma DividesIntro(d: int, n: int, k: int)
    requires n == d * k
    ensures Divides(d, n)
  {
    assert Multiple(d, k, n);
  }

  lemma DividesComb(d: int, m: int, n: int, c: int)
    requires Divides(d, m) && Divides(d, n)
    ensures Divides(d, c * m + n)
  {
    var k :| Multiple(d, k, m);
    var l :| Multiple(d, l, n);
    ScaleMultiple(d, k, c);
    assert c * m + n == d * (k * c) + d * l == d * (k * c + l);
    DividesIntro(d, c * m + n, k * c + l);
  }

  /** The extended Euclidean algorithm. */
  function EGcd(a: nat, b: nat): (r: Bezout)
    ensures a * r.x + b * r.y == r.g
    decreases b
  {
    if b == 0 then Bezout(a, 1, 0)
    else
      var s := EGcd(b, a % b);
      BezoutStep(a, b, s);
      Bezout(s.g, s.y, s.x - (a / b) * s.y)
  }

  lemma BezoutStep(a: nat, b: nat, s: Bezout)
    requires b > 0 && b * s.x + (a % b) * s.y == s.g
    ensures a * s.y + b * (s.x - (a / b) * s.y) == s.g
  {
    var q, r := a / b, a % b;
    assert a == b * q + r;
    assert (b * q + r) * s.y + b * (s.x - q * s.y) == b * s.x + r * s.y by {
      assert (b * q) * s.y == b * (q * s.y);
    }
  }

  lemma {:induction false} EGcdDivides(a: nat, b: nat)
    ensures Divides(EGcd(a, b).g, a) && Divides(EGcd(a, b).g, b)
    decreases b
  {
    if b == 0 {
      DividesIntro(a, a, 1);
      DividesIntro(a, 0, 0);
    } else {
      EGcdDivides(b, a % b);
      DividesComb(EGcd(a, b).g, b, a % b, a / b);
      assert a == (a / b) * b + a % b;
    }
  }

  lemma DivisorBound(d: int, n: int)
    requires Divides(d, n) && d >= 0 && n > 0
    ensures 0 < d <= n && n % d == 0
  {
    var k :| Multiple(d, k, n);
    if d > 0 {
      MulAtLeast(d, k);
      MultipleRemainder(d, k);
    }
  }

  lemma MultipleRemainder(d: int, k: int)
    requires d > 0
    ensures (d * k) % d == 0
  {
    CongIntro(d, d * k, 0, k);
    CongIsEqualMod(d, d * k, 0);
  }

  // ---- Inverses ------------------------------------------------------------------

  /** `pow(a, -1, m)`: None stands for the ValueError of a number that is not invertible. */
  function ModInv(a: int, m: int): (r: Option<int>)
    requires m > 0
    ensures r.Some? ==> 0 <= r.value < m
  {
    var b := EGcd(a % m, m);
    if b.g == 1 then Some(b.x % m) else None
  }

  /** The number returned is an inverse. */
  lemma ModInvIsInverse(a: int, m: int)
    requires m > 0 && ModInv(a, m).Some?
    ensures Cong(m, a * ModInv(a, m).value, 1)
  {
    var b, r := EGcd(a % m, m), a % m;
    CongIntro(m, r * b.x, 1, -b.y);
    CongMod(m, a);
    CongMod(m, b.x);
    CongMul(m, a, r, b.x % m, b.x);
    CongTrans(m, a * (b.x % m), r * b.x, 1);
  }

  lemma ModInvOfRemainder(a: int, m: int)
    requires m > 0
    ensures ModInv(a % m, m) == ModInv(a, m)
  {
    assert (a % m) % m == a % m;
  }

  ghost predicate IsPrime(p: int) {
    p > 1 && forall d :: 1 < d < p ==> p % d != 0
  }

  /** Modulo a prime, only multiples of it have no inverse. */
  lemma PrimeInvertible(a: int, p: int)
    requires IsPrime(p) && !Cong(p, a, 0)
    ensures ModInv(a, p).Some?
  {
    var r := a % p;
    var g := EGcd(r, p).g;
    CongIsEqualMod(p, a, 0);
    EGcdDivides(r, p);
    DivisorBound(g, r);
    DivisorBound(g, p);
  }

  /** A prime that divides a product divides a factor. */
  lemma PrimeDividesProduct(p: int, a: int, b: int)
    requires IsPrime(p) && Cong(p, a * b, 0)
    ensures Cong(p, a, 0) || Cong(p, b, 0)
  {
    if !Cong(p, a, 0) {
      PrimeInvertible(a, p);
      CancelFactor(p, a, b, 0);
    }
  }

  /** Invertible factors cancel. */
  lemma CancelFactor(p: int, a: int, b: int, c: int)
    requires p > 0 && ModInv(a, p).Some? && Cong(p, a * b, a * c)
    ensures Cong(p, b, c)
  {
    var i := ModInv(a, p).value;
    ModInvIsInverse(a, p);
    CongScale(p, a * b, a * c, i);
    Regroup(i, a, b);
    Regroup(i, a, c);
    CongScale(p, a * i, 1, b);
    CongScale(p, a * i, 1, c);
    CongSym(p, (a * i) * b, b);
    CongTrans(p, b, (a * i) * b, (a * i) * c);
    CongTrans(p, b, (a * i) * c, c);
  }

  lemma Regroup(i: int, a: int, b: int)
    ensures i * (a * b) == (a * i) * b
  {
  }
}
