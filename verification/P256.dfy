/** crypto/ec_p256.py: affine arithmetic on P-256 (section 2.2.1 of SEC 1), scalar
    multiplication and point encoding. */
module P256 {
  import opened Bits
  import opened Wrappers
  import opened ModArith
  import opened CurveAlgebra
  import opened AffineCurve

  const P: int := 0xFFFFFFFF_00000001_00000000_00000000_00000000_FFFFFFFF_FFFFFFFF_FFFFFFFF
  const A: int := P - 3
  const B: int := 0x5AC635D8_AA3A93E7_B3EBBD55_769886BC_651D06B0_CC53B0F6_3BCE3C3E_27D2604B
  const N: int := 0xFFFFFFFF_00000000_FFFFFFFF_FFFFFFFF_BCE6FAAD_A7179E84_F3B9CAC2_FC632551
  const GX: int := 0x6B17D1F2_E12C4247_F8BCE6E5_63A440F2_77037D81_2DEB33A0_F4A13945_D898C296
  const GY: int := 0x4FE342E2_FE1A7F9B_8EE7EB4A_7C0F9E16_2BCE3357_6B315ECE_CBB64068_37BF51F5

  const G: Point := Affine(GX, GY)

  predicate IsOnCurve(q: Point) {
    OnCurve(P, A, B, q)
  }

  function PointDouble(q: Point): Option<Point> {
    Double(P, A, q)
  }

  function PointAdd(q1: Point, q2: Point): Option<Point> {
    Sum(P, A, q1, q2)
  }

  function Neg(q: Point): Point {
    Negate(P, q)
  }

  /** The double-and-add loop from a given state. */
  function Ladder(k: nat, result: Point, addend: Point): Option<Point> {
    if k == 0 then Some(result)
    else
      var sum := if k % 2 == 1 then PointAdd(result, addend) else Some(result);
      match (sum, PointDouble(addend))
      case (Some(s), Some(d)) => Ladder(k / 2, s, d)
      case _ => None
  }

  function ScalarMul(k: int, q: Point): Option<Point> {
    if q == Infinity || k % N == 0 then Some(Infinity)
    else if k < 0 then Ladder(-k, Infinity, Neg(q))
    else Ladder(k, Infinity, q)
  }

  /** `scalar_mul`, the loop. */
  method ScalarMulLoop(k: int, q: Point) returns (r: Option<Point>)
    ensures r == ScalarMul(k, q)
  {
    hide PointAdd, PointDouble, Neg;
    if q == Infinity || k % N == 0 {
      return Some(Infinity);
    }
    var n, addend := k, q;
    if k < 0 {
      n, addend := -k, Neg(q);
    }
    var result := Infinity;
    while n != 0
      invariant n >= 0 && Ladder(n, result, addend) == ScalarMul(k, q)
    {
      if n % 2 == 1 {
        var sum := PointAdd(result, addend);
        if sum == None {
          return None;
        }
        result := sum.value;
      }
      var double := PointDouble(addend);
      if double == None {
        return None;
      }
      addend := double.value;
      n := n / 2;
    }
    r := Some(result);
  }

  // ---- The group operation ------------------------------------------------------------

  type CurvePoint = q: Point | IsOnCurve(q) witness Infinity

  /** The identity. */
  const ZERO: CurvePoint := Infinity

  /** Point addition on the curve, where it never fails (AddIsPointAdd). */
  function Add(q1: CurvePoint, q2: CurvePoint): CurvePoint {
    var r := PointAdd(q1, q2);
    if r.Some? && IsOnCurve(r.value) then r.value else Infinity
  }

  /** Over the prime field, addition never fails, stays on the curve and commutes. */
  lemma AddIsPointAdd(q1: CurvePoint, q2: CurvePoint)
    requires IsPrime(P)
    ensures PointAdd(q1, q2) == Some(Add(q1, q2)) == PointAdd(q2, q1)
  {
    hide IsPrime, Sum, OnCurve;
    SumClosed(P, A, B, q1, q2);
    SumCommutes(P, A, B, q1, q2);
  }

  lemma AddIdentity(q: CurvePoint)
    ensures Add(q, Infinity) == q && Add(Infinity, q) == q
  {
    hide OnCurve;
  }

  lemma DoubleIsAdd(q: CurvePoint)
    requires IsPrime(P)
    ensures PointDouble(q) == Some(Add(q, q))
  {
    hide IsPrime, Sum, Double, OnCurve;
    AddIsPointAdd(q, q);
    DoubleIsSum(P, A, B, q);
  }

  lemma AddInverse(q: CurvePoint)
    ensures IsOnCurve(Neg(q)) && PointAdd(q, Neg(q)) == Some(Infinity)
  {
    hide Sum, OnCurve, Negate;
    SumInverse(P, A, B, q);
  }

  /** The k-fold sum of a point. */
  function Times(k: nat, q: CurvePoint): CurvePoint {
    if k == 0 then Infinity else Add(Times(k - 1, q), q)
  }

  /** The k-fold sum for every integer k. */
  function TimesInt(k: int, q: CurvePoint): CurvePoint {
    AddInverse(q);
    if k >= 0 then Times(k, q) else Times(-k, Neg(q))
  }

  ghost predicate AddAssociates(a: CurvePoint, b: CurvePoint, c: CurvePoint) {
    Add(Add(a, b), c) == Add(a, Add(b, c))
  }

  /** Addition on the curve is associative. */
  ghost predicate Associative() {
    forall a: CurvePoint, b: CurvePoint, c: CurvePoint :: AddAssociates(a, b, c)
  }

  /** The order of every point divides N. */
  ghost predicate OrderN() {
    forall q: CurvePoint :: Times(N, q) == Infinity
  }

  /** The published facts about P-256 that this development takes as hypotheses. */
  ghost predicate StandardFacts() {
    IsPrime(P) && IsPrime(N) && Associative() && OrderN()
  }

  // ---- Scalar multiplication -------------------------------------------------------------

  lemma {:induction false} TimesAdd(j: nat, k: nat, q: CurvePoint)
    requires Associative()
    ensures Times(j + k, q) == Add(Times(j, q), Times(k, q))
    decreases k
  {
    hide Add, IsOnCurve;
    if k == 0 {
      AddIdentity(Times(j, q));
    } else {
      TimesAdd(j, k - 1, q);
      assert AddAssociates(Times(j, q), Times(k - 1, q), q);
    }
  }

  lemma {:induction false} TimesTimes(j: nat, k: nat, q: CurvePoint)
    requires Associative()
    ensures Times(j, Times(k, q)) == Times(j * k, q)
    decreases j
  {
    hide Add, IsOnCurve;
    if j > 0 {
      TimesTimes(j - 1, k, q);
      TimesAdd((j - 1) * k, k, q);
      assert (j - 1) * k + k == j * k;
    }
  }

  lemma {:induction false} TimesInfinity(k: nat)
    ensures Times(k, Infinity) == Infinity
  {
    if k > 0 {
      TimesInfinity(k - 1);
      AddIdentity(Infinity);
    }
  }

  lemma TimesOne(q: CurvePoint)
    ensures Times(1, q) == q
  {
    AddIdentity(q);
  }

  /** Multiples of a point depend on the scalar modulo N only. */
  lemma TimesMod(k: nat, q: CurvePoint)
    requires Associative() && OrderN()
    ensures Times(k, q) == Times(k % N, q)
  {
    hide Add, Times, IsOnCurve;
    var t, r := k / N, k % N;
    assert k == t * N + r;
    TimesAdd(t * N, r, q);
    TimesTimes(t, N, q);
    TimesInfinity(t);
    AddIdentity(Times(r, q));
  }

  /** The invariant of the loop: result + k * addend. */
  lemma {:induction false} LadderIsTimes(k: nat, result: CurvePoint, addend: CurvePoint)
    requires IsPrime(P) && Associative()
    ensures Ladder(k, result, addend) == Some(Add(result, Times(k, addend)))
    decreases k
  {
    hide IsPrime, Add, PointAdd, PointDouble, IsOnCurve, Times;
    if k == 0 {
      AddIdentity(result);
      TimesZero(addend);
    } else {
      var double := Add(addend, addend);
      DoubleIsAdd(addend);
      AddIsPointAdd(result, addend);
      TimesOne(addend);
      TimesAdd(1, 1, addend);
      TimesTimes(k / 2, 2, addend);
      assert double == Times(2, addend);
      assert Times(k / 2, double) == Times(k / 2 * 2, addend);
      if k % 2 == 1 {
        LadderIsTimes(k / 2, Add(result, addend), double);
        TimesAdd(1, k / 2 * 2, addend);
        assert AddAssociates(result, addend, Times(k / 2, double));
      } else {
        LadderIsTimes(k / 2, result, double);
      }
    }
  }

  /** `scalar_mul` computes the k-fold sum, for every integer and every point of the curve. */
  lemma ScalarMulIsTimes(k: int, q: CurvePoint)
    requires StandardFacts()
    ensures ScalarMul(k, q) == Some(TimesInt(k, q))
  {
    hide IsPrime, Add, PointAdd, PointDouble, IsOnCurve, Times, Neg, Ladder, Associative, OrderN;
    AddInverse(q);
    var n: nat := if k >= 0 then k else -k;
    var r: CurvePoint := if k >= 0 then q else Neg(q);
    if q == Infinity {
      InfinityNeg();
      TimesInfinity(n);
    } else if k % N == 0 {
      NegMultiple(k);
      TimesMod(n, r);
      TimesZero(r);
    } else {
      LadderIsTimes(n, ZERO, r);
      AddIdentity(Times(n, r));
    }
  }

  lemma InfinityNeg()
    ensures Neg(Infinity) == Infinity
  {
  }

  lemma TimesZero(q: CurvePoint)
    ensures Times(0, q) == Infinity
  {
  }

  lemma NegMultiple(k: int)
    requires k % N == 0
    ensures -k % N == 0
  {
  }

  /** No nontrivial multiple of a point other than infinity is infinity. */
  lemma TimesNonzero(k: nat, q: CurvePoint)
    requires StandardFacts() && q != Infinity && 1 <= k < N
    ensures Times(k, q) != Infinity
  {
    hide IsPrime, Add, Times, IsOnCurve, Associative, OrderN, ModInv;
    SmallScalarInvertible(k);
    var i: nat := ModInv(k, N).value;
    ProductNonNegative(i, k);
    TimesTimes(i, k, q);
    TimesMod(i * k, q);
    TimesInfinity(i);
    TimesOne(q);
  }

  lemma ProductNonNegative(i: nat, k: nat)
    ensures i * k >= 0
  {
  }

  lemma SmallScalarInvertible(k: int)
    requires IsPrime(N) && 1 <= k < N
    ensures ModInv(k, N).Some? && (ModInv(k, N).value * k) % N == 1
  {
    CongIsEqualMod(N, k, 0);
    hide IsPrime;
    PrimeInvertible(k, N);
    ModInvIsInverse(k, N);
    CongIsEqualMod(N, k * ModInv(k, N).value, 1);
  }

  /** The field modulus is the prime of the curve's name, and the group order lies where the theorem of
      Hasse wants it. */
  lemma Parameters()
    ensures P == TWO64 * TWO64 * TWO64 * TWO64 - TWO64 * TWO64 * TWO64 * TWO32 + TWO64 * TWO64 * TWO64
              + TWO64 * TWO32 - 1
    ensures (P + 1 - N) * (P + 1 - N) <= 4 * P && N < P
  {
  }

  lemma GeneratorOnCurve()
    ensures IsOnCurve(G) && G != Infinity
  {
  }

  // ---- Encoding ---------------------------------------------------------------------------

  lemma FieldElementFits()
    ensures P < Pow256(32) && N < Pow256(32)
  {
    Pow256Of32();
  }

  /** A 256-bit big-endian field; None stands for OverflowError. */
  function To32(x: int): (r: Option<seq<Byte>>)
    ensures r.Some? ==> |r.value| == 32
  {
    if 0 <= x < Pow256(32) then Some(ToBE(x, 32)) else None
  }

  function PointToBytes(q: Point): Option<seq<Byte>> {
    if q == Infinity || To32(q.x).None? || To32(q.y).None? then None
    else Some([0x04] + To32(q.x).value + To32(q.y).value)
  }

  function PointFromBytes(data: seq<Byte>): (r: Option<Point>)
    ensures r.Some? ==> r.value != Infinity && IsOnCurve(r.value)
  {
    if |data| != 65 || data[0] != 0x04 then None
    else
      var q := Affine(FromBE(data[1..33]), FromBE(data[33..65]));
      if IsOnCurve(q) then Some(q) else None
  }

  /** Two 32-byte fields are the encodings of the numbers they stand for. */
  lemma FieldsOf(x: int, field: seq<Byte>)
    requires |field| == 32
    ensures To32(x) == Some(field) <==> FromBE(field) == x
  {
    hide Pow256, ToBE, FromBE;
    ToFromBE(field);
    if 0 <= x < Pow256(32) {
      FromToBE(x, 32);
    }
  }

  /** The encoding of a point: 0x04 and both coordinates, big-endian in 32 bytes each (section 2.3.3 of
      SEC 1, uncompressed). */
  lemma EncodedPoint(q: Point, data: seq<Byte>)
    ensures PointToBytes(q) == Some(data)
       <==> q.Affine? && |data| == 65 && data[0] == 4 && FromBE(data[1..33]) == q.x && FromBE(data[33..65]) == q.y
  {
    hide Pow256, To32, FromBE;
    if |data| == 65 {
      assert data == [data[0]] + data[1..33] + data[33..65];
      if q.Affine? {
        FieldsOf(q.x, data[1..33]);
        FieldsOf(q.y, data[33..65]);
      }
    }
    if PointToBytes(q) == Some(data) {
      assert data[1..33] == To32(q.x).value && data[33..65] == To32(q.y).value;
    }
  }

  /** The decoder accepts exactly the encodings of the affine points of the curve. */
  lemma DecodeIffEncode(data: seq<Byte>, q: Point)
    ensures PointFromBytes(data) == Some(q)
       <==> q != Infinity && IsOnCurve(q) && PointToBytes(q) == Some(data)
  {
    EncodedPoint(q, data);
    hide IsOnCurve, FromBE, PointToBytes;
  }

  predicate IsValidPrivateKey(d: int) {
    1 <= d <= N - 1
  }
}
