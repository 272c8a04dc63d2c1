/** crypto/ecdsa.py: signing and verification on P-256 with SHA-256
    (section 6.4 of FIPS 186-4) and the 64-byte signature encoding. */
module Ecdsa {
  import opened Bits
  import opened Wrappers
  import opened ModArith
  import opened AffineCurve
  import opened P256
  import Sha256

  datatype Signature = Signature(r: int, s: int)

  predicate InRange(x: int) {
    1 <= x <= N - 1
  }

  /** `_bits2int`: the leftmost qlen bits, kept as they are when they reach N or more. */
  function Bits2Int(data: seq<Byte>, qlen: nat): nat {
    if 8 * |data| > qlen then Shr(FromBE(data), 8 * |data| - qlen) else FromBE(data)
  }

  function HashToScalar(message: seq<Byte>): nat {
    Bits2Int(Sha256.Digest(message), 256)
  }

  datatype SignError = BadKey | NoSignature | InversionFailed

  /** One pass of the loop in `sign`; the value is None when r or s comes out zero. */
  function Attempt(d: int, z: int, k: int): Result<Option<Signature>, SignError> {
    match ScalarMul(k, G)
    case None => Err(InversionFailed)
    case Some(kG) =>
      if kG == Infinity then Err(InversionFailed)
      else if kG.x % N == 0 then Ok(None)
      else
        match ModInv(k, N)
        case None => Err(InversionFailed)
        case Some(kInv) =>
          var s := (kInv * (z + (kG.x % N) * d)) % N;
          if s == 0 then Ok(None) else Ok(Some(Signature(kG.x % N, s)))
  }

  /** The outcome of `sign` when the deterministic generator yields `k`, as it does on every pass. */
  function Sign(d: int, message: seq<Byte>, k: int): Result<Signature, SignError> {
    if !IsValidPrivateKey(d) then Err(BadKey)
    else
      match Attempt(d, HashToScalar(message), k)
      case Err(e) => Err(e)
      case Ok(None) => Err(NoSignature)
      case Ok(Some(sig)) => Ok(sig)
  }

  /** `sign`: up to a thousand passes that all recompute the same k. */
  method SignLoop(d: int, message: seq<Byte>, k: int) returns (r: Result<Signature, SignError>)
    ensures r == Sign(d, message, k)
  {
    hide Attempt, HashToScalar;
    if !IsValidPrivateKey(d) {
      return Err(BadKey);
    }
    var z := HashToScalar(message);
    for i := 0 to 1000
      invariant i > 0 ==> Attempt(d, z, k) == Ok(None)
    {
      var attempt := Attempt(d, z, k);
      if attempt.Err? {
        return Err(attempt.error);
      }
      if attempt.value.Some? {
        return Ok(attempt.value.value);
      }
    }
    r := Err(NoSignature);
  }

  /** The point whose x coordinate `verify` compares with r; None stands for an exception. */
  function VerifyPoint(q: Point, z: int, sig: Signature): Option<Point> {
    match ModInv(sig.s, N)
    case None => None
    case Some(w) =>
      match (ScalarMul((z * w) % N, G), ScalarMul((sig.r * w) % N, q))
      case (Some(a), Some(b)) => PointAdd(a, b)
      case _ => None
  }

  /** `verify`. */
  predicate Verify(publicKey: seq<Byte>, message: seq<Byte>, sig: Signature) {
    && InRange(sig.r) && InRange(sig.s)
    && PointFromBytes(publicKey).Some?
    && Matches(VerifyPoint(PointFromBytes(publicKey).value, HashToScalar(message), sig), sig.r)
  }

  /** The last comparison of `verify`. */
  predicate Matches(point: Option<Point>, r: int) {
    point.Some? && point.value != Infinity && point.value.x % N == r
  }

  // ---- Every signature verifies ----------------------------------------------------

  /** The scalar identity behind verification: u1 + u2 d = k modulo the order. */
  lemma ScalarIdentity(n: int, z: int, r: int, d: int, k: int, kInv: int, s: int, w: int)
    requires n > 0
    requires Cong(n, k * kInv, 1) && Cong(n, s, kInv * (z + r * d)) && Cong(n, s * w, 1)
    ensures Cong(n, (z * w) % n + ((r * w) % n) * d, k)
  {
    var t := z + r * d;
    // k s = t
    CongScale(n, s, kInv * t, k);
    Rearrange(k, kInv, t);
    CongScale(n, k * kInv, 1, t);
    CongTrans(n, k * s, (k * kInv) * t, t);
    // t w = k
    CongScale(n, k * s, t, w);
    CongSym(n, (k * s) * w, t * w);
    Rearrange(k, s, w);
    CongScale(n, s * w, 1, k);
    CongTrans(n, t * w, k * (s * w), k);
    // u1 + u2 d = t w
    CongMod(n, z * w);
    CongMod(n, r * w);
    CongScale(n, (r * w) % n, r * w, d);
    CongAdd(n, (z * w) % n, z * w, ((r * w) % n) * d, (r * w) * d);
    Distribute(z, r, d, w);
    CongTrans(n, (z * w) % n + ((r * w) % n) * d, t * w, k);
  }

  lemma Rearrange(a: int, b: int, c: int)
    ensures a * (b * c) == (a * b) * c
  {
  }

  lemma Distribute(z: int, r: int, d: int, w: int)
    ensures z * w + (r * w) * d == (z + r * d) * w
  {
  }

  lemma InRangeInvertible(x: int)
    requires IsPrime(N) && InRange(x)
    ensures ModInv(x, N).Some?
  {
    SmallScalarInvertible(x);
  }

  /** u1 G + u2 (d G) is k G when u1 + u2 d is k modulo N. */
  lemma CombinedPoint(u1: nat, u2: nat, d: nat, k: nat)
    requires StandardFacts() && InRange(k) && Cong(N, u1 + u2 * d, k) && u2 * d >= 0
    ensures IsOnCurve(G) && IsOnCurve(Times(d, G))
    ensures PointAdd(Times(u1, G), Times(u2, Times(d, G))) == Some(Times(k, G))
  {
    GeneratorOnCurve();
    hide IsOnCurve, Times, Add, PointAdd, Associative, OrderN, IsPrime, Cong;
    AddIsPointAdd(Times(u1, G), Times(u2, Times(d, G)));
    TimesTimes(u2, d, G);
    TimesAdd(u1, u2 * d, G);
    TimesMod(u1 + u2 * d, G);
    TimesMod(k, G);
    CongIsEqualMod(N, u1 + u2 * d, k);
  }

  /** Every scalar multiple by a valid scalar is an encodable point. */
  lemma PublicPoint(d: int)
    requires StandardFacts() && IsValidPrivateKey(d)
    ensures IsOnCurve(G) && ScalarMul(d, G) == Some(Times(d, G))
    ensures Times(d, G) != Infinity && PointToBytes(Times(d, G)).Some?
    ensures PointFromBytes(PointToBytes(Times(d, G)).value) == Some(Times(d, G))
  {
    GeneratorOnCurve();
    ScalarMulIsTimes(d, G);
    TimesNonzero(d, G);
    FieldElementFits();
    var q := Times(d, G);
    assert PointToBytes(q).Some?;
    hide Times, StandardFacts;
    DecodeIffEncode(PointToBytes(q).value, q);
  }

  /** A signature that `sign` returns has both parts in range, and verifies under the public
      key of the signer; hashes of N or more are not reduced first. */
  lemma SignedVerifies(d: int, message: seq<Byte>, k: int)
    requires StandardFacts() && InRange(k)
    requires Sign(d, message, k).Ok?
    ensures InRange(Sign(d, message, k).value.r) && InRange(Sign(d, message, k).value.s)
    ensures ScalarMul(d, G).Some? && PointToBytes(ScalarMul(d, G).value).Some?
    ensures Verify(PointToBytes(ScalarMul(d, G).value).value, message, Sign(d, message, k).value)
  {
    hide StandardFacts, HashToScalar, Times, ScalarMul, IsOnCurve, PointToBytes, PointFromBytes, VerifyPoint, Matches;
    var z, sig := HashToScalar(message), Sign(d, message, k).value;
    SignRange(d, message, k);
    PublicPoint(d);
    SignatureEquation(d, z, k, sig);
    AttemptMatches(d, z, k, sig);
  }

  lemma SignRange(d: int, message: seq<Byte>, k: int)
    requires Sign(d, message, k).Ok?
    ensures IsValidPrivateKey(d)
    ensures Attempt(d, HashToScalar(message), k) == Ok(Some(Sign(d, message, k).value))
  {
    hide Attempt, HashToScalar;
  }

  /** `verify` recomputes kG from a signature. */
  lemma AttemptMatches(d: int, z: int, k: int, sig: Signature)
    requires StandardFacts() && IsValidPrivateKey(d) && InRange(k) && z >= 0
    requires IsOnCurve(G) && IsOnCurve(Times(d, G))
    requires Attempt(d, z, k) == Ok(Some(sig))
    ensures InRange(sig.r) && InRange(sig.s)
    ensures Matches(VerifyPoint(Times(d, G), z, sig), sig.r)
  {
    hide IsPrime, Associative, OrderN, Times, Add, PointAdd, ScalarMul, IsOnCurve, ModInv, Cong, Attempt;
    SignatureEquation(d, z, k, sig);
    InRangeInvertible(sig.s);
    var w := ModInv(sig.s, N).value;
    var u1, u2 := (z * w) % N, (sig.r * w) % N;
    VerifyScalars(d, z, k, sig, w);
    ScalarMulIsTimes(u1, G);
    ScalarMulIsTimes(u2, Times(d, G));
    NatProduct(u2, d);
    CombinedPoint(u1, u2, d, k);
  }

  lemma NatProduct(a: nat, b: nat)
    ensures a * b >= 0
  {
  }

  /** What a returned signature satisfies. */
  lemma SignatureEquation(d: int, z: int, k: int, sig: Signature)
    requires StandardFacts() && InRange(k) && Attempt(d, z, k) == Ok(Some(sig))
    ensures InRange(sig.r) && InRange(sig.s) && IsOnCurve(G)
    ensures Times(k, G) != Infinity && sig.r == Times(k, G).x % N
    ensures ModInv(k, N).Some? && Cong(N, sig.s, ModInv(k, N).value * (z + sig.r * d))
  {
    hide IsPrime, Associative, OrderN, Times, Add, PointAdd, ScalarMul, ModInv, Cong;
    GeneratorOnCurve();
    hide IsOnCurve;
    ScalarMulIsTimes(k, G);
    CongMod(N, ModInv(k, N).value * (z + sig.r * d));
  }

  lemma VerifyScalars(d: int, z: int, k: int, sig: Signature, w: int)
    requires ModInv(k, N).Some? && Cong(N, sig.s, ModInv(k, N).value * (z + sig.r * d))
    requires ModInv(sig.s, N) == Some(w)
    ensures Cong(N, (z * w) % N + ((sig.r * w) % N) * d, k)
  {
    hide ModInv, Cong;
    ModInvIsInverse(k, N);
    ModInvIsInverse(sig.s, N);
    ScalarIdentity(N, z, sig.r, d, k, ModInv(k, N).value, sig.s, w);
  }

  // ---- When there is a signature --------------------------------------------------------

  /** Neither r nor s comes out zero: r is the x coordinate of kG, s a multiple of z + r d. */
  predicate Signable(d: int, z: int, k: int) {
    hide ScalarMul, IsOnCurve;
    && IsValidPrivateKey(d)
    && var kG := ScalarMul(k, G);
       kG.Some? && kG.value != Infinity && kG.value.x % N != 0 && (z + (kG.value.x % N) * d) % N != 0
  }

  /** A product with an invertible factor vanishes exactly when the other factor does. */
  lemma InverseKeepsZero(n: int, k: int, kInv: int, t: int)
    requires n > 0 && Cong(n, k * kInv, 1)
    ensures Cong(n, kInv * t, 0) <==> Cong(n, t, 0)
  {
    if Cong(n, t, 0) {
      CongScale(n, t, 0, kInv);
    }
    if Cong(n, kInv * t, 0) {
      CongScale(n, kInv * t, 0, k);
      Rearrange(k, kInv, t);
      CongScale(n, k * kInv, 1, t);
      CongSym(n, (k * kInv) * t, t);
      CongTrans(n, t, k * (kInv * t), 0);
    }
  }

  lemma VanishesModulo(n: int, t: int)
    requires n > 0
    ensures Cong(n, t, 0) <==> t % n == 0
  {
    CongIsEqualMod(n, t, 0);
  }

  /** `sign` returns a signature exactly for valid keys whose r and s are not zero. */
  lemma SignIff(d: int, message: seq<Byte>, k: int)
    requires StandardFacts() && InRange(k)
    ensures Sign(d, message, k).Ok? <==> Signable(d, HashToScalar(message), k)
  {
    hide StandardFacts, HashToScalar, Times, ScalarMul, IsOnCurve, PointToBytes, PointFromBytes, ModInv, Cong;
    PublicPoint(k);
    NonceInvertible(k);
    ModInvIsInverse(k, N);
    var z, r := HashToScalar(message), ScalarMul(k, G).value.x % N;
    var kInv := ModInv(k, N).value;
    InverseKeepsZero(N, k, kInv, z + r * d);
    VanishesModulo(N, kInv * (z + r * d));
    VanishesModulo(N, z + r * d);
  }

  lemma NonceInvertible(k: int)
    requires StandardFacts() && InRange(k)
    ensures ModInv(k, N).Some?
  {
    hide IsPrime, Associative, OrderN, ModInv;
    InRangeInvertible(k);
  }

  /** u1 G + u2 Q. */
  function Combined(u1: nat, u2: nat, q: CurvePoint): CurvePoint
    requires IsOnCurve(G)
  {
    Add(Times(u1, G), Times(u2, q))
  }

  lemma SwapFactors(a: int, v: int, w: int)
    ensures (a * w) * v == (a * v) * w
  {
  }

  lemma InverseUnique(n: int, a: int, v: int, w: int)
    requires n > 0 && 0 <= v < n && 0 <= w < n && Cong(n, a * v, 1) && Cong(n, a * w, 1)
    ensures v == w
  {
    hide Cong;
    // v = v (a w) = (a v) w = w
    CongScale(n, a * w, 1, v);
    CongScale(n, a * v, 1, w);
    SwapFactors(a, v, w);
    CongSym(n, (a * w) * v, v);
    CongTrans(n, v, (a * v) * w, w);
    CongIsEqualMod(n, v, w);
  }

  /** The point that `verify` computes, for the inverse w of s. */
  lemma VerifyPointIs(z: nat, q: CurvePoint, sig: Signature, w: nat)
    requires StandardFacts() && InRange(sig.s) && sig.r >= 0 && w < N && Cong(N, sig.s * w, 1)
    ensures IsOnCurve(G) && z * w >= 0 && sig.r * w >= 0
    ensures VerifyPoint(q, z, sig) == Some(Combined(z * w, sig.r * w, q))
  {
    hide IsPrime, Associative, OrderN, Times, Add, PointAdd, ScalarMul, ModInv, Cong, IsOnCurve;
    GeneratorIsOnCurve();
    NatProduct(z, w);
    NatProduct(sig.r, w);
    InRangeInvertible(sig.s);
    ModInvIsInverse(sig.s, N);
    InverseUnique(N, sig.s, ModInv(sig.s, N).value, w);
    var u1, u2 := (z * w) % N, (sig.r * w) % N;
    ScalarMulIsTimes(u1, G);
    ScalarMulIsTimes(u2, q);
    AddIsPointAdd(Times(u1, G), Times(u2, q));
    TimesMod(z * w, G);
    TimesMod(sig.r * w, q);
  }

  lemma GeneratorIsOnCurve()
    ensures IsOnCurve(G)
  {
    GeneratorOnCurve();
  }

  predicate Accepts(point: CurvePoint, r: int) {
    point != Infinity && point.x % N == r
  }

  /** r is in range, the key decodes to a point Q, and (z w) G + (r w) Q is not the identity and has
      an x coordinate of r modulo the order. */
  predicate Accepted(publicKey: seq<Byte>, z: nat, sig: Signature, w: nat) {
    hide *;
    && IsOnCurve(G) && sig.r >= 0 && z * w >= 0 && sig.r * w >= 0
    && 1 <= sig.r <= N - 1 && PointFromBytes(publicKey).Some? && IsOnCurve(PointFromBytes(publicKey).value)
    && Accepts(Combined(z * w, sig.r * w, PointFromBytes(publicKey).value), sig.r)
  }

  /** When `verify` accepts a pair with s in range (section 6.4.2 of FIPS 186-4), told with sums of
      points; w is the inverse of s. */
  lemma VerifyIff(publicKey: seq<Byte>, message: seq<Byte>, sig: Signature, w: nat)
    requires StandardFacts() && InRange(sig.s) && w < N && Cong(N, sig.s * w, 1)
    ensures Verify(publicKey, message, sig) <==> Accepted(publicKey, HashToScalar(message), sig, w)
  {
    hide StandardFacts, HashToScalar, Combined, VerifyPoint, IsOnCurve, PointFromBytes, Cong, Accepts;
    GeneratorIsOnCurve();
    if InRange(sig.r) && PointFromBytes(publicKey).Some? {
      VerifyPointIs(HashToScalar(message), PointFromBytes(publicKey).value, sig, w);
      AcceptsIsMatch(Combined(HashToScalar(message) * w, sig.r * w, PointFromBytes(publicKey).value), sig.r);
    }
  }

  lemma AcceptsIsMatch(point: CurvePoint, r: int)
    ensures Accepts(point, r) <==> Matches(Some(point), r)
  {
  }

  // ---- Encoding ----------------------------------------------------------------------

  function SignatureToBytes(sig: Signature): Option<seq<Byte>> {
    if To32(sig.r).None? || To32(sig.s).None? then None
    else Some(To32(sig.r).value + To32(sig.s).value)
  }

  function SignatureFromBytes(data: seq<Byte>): Option<Signature> {
    if |data| != 64 then None else Some(Signature(FromBE(data[..32]), FromBE(data[32..])))
  }

  /** The encoding of a signature: r and s, big-endian in 32 bytes each. */
  lemma EncodedSignature(sig: Signature, data: seq<Byte>)
    ensures SignatureToBytes(sig) == Some(data)
       <==> |data| == 64 && FromBE(data[..32]) == sig.r && FromBE(data[32..]) == sig.s
  {
    hide Pow256, To32, FromBE;
    if |data| == 64 {
      assert data == data[..32] + data[32..];
      FieldsOf(sig.r, data[..32]);
      FieldsOf(sig.s, data[32..]);
    }
    if SignatureToBytes(sig) == Some(data) {
      assert data[..32] == To32(sig.r).value && data[32..] == To32(sig.s).value;
    }
  }

  /** The two encodings are inverse to each other. */
  lemma SignatureEncoding(sig: Signature, data: seq<Byte>)
    ensures SignatureToBytes(sig) == Some(data) <==> SignatureFromBytes(data) == Some(sig)
  {
    EncodedSignature(sig, data);
    hide SignatureToBytes, FromBE;
  }

  /** Scalars below N always fit their 32-byte fields. */
  lemma SignatureEncodes(sig: Signature)
    requires InRange(sig.r) && InRange(sig.s)
    ensures SignatureToBytes(sig).Some? && |SignatureToBytes(sig).value| == 64
    ensures SignatureFromBytes(SignatureToBytes(sig).value) == Some(sig)
  {
    FieldElementFits();
    SignatureEncoding(sig, SignatureToBytes(sig).value);
  }

  // ---- Signatures as bytes -----------------------------------------------------------

  /** The digest of a message, read as a big-endian number, is not shortened. */
  lemma HashIsNumber(message: seq<Byte>)
    ensures HashToScalar(message) == FromBE(Sha256.Digest(message))
  {
    hide FromBE, Sha256.Digest;
  }

  ghost predicate InverseOf(w: nat, s: int) {
    w < N && Cong(N, s * w, 1)
  }

  /** A signature of 64 bytes for the message under the key: r is its first half and s its second, both in
      [1, N-1], and r is the x coordinate of (z / s) G + (r / s) Q for the digest z and the point Q of the
      key. */
  ghost predicate Genuine(publicKey: seq<Byte>, message: seq<Byte>, signature: seq<Byte>) {
    hide *;
    && |signature| == 64
    && 1 <= FromBE(signature[..32]) <= N - 1 && 1 <= FromBE(signature[32..]) <= N - 1
    && exists w: nat :: InverseOf(w, FromBE(signature[32..])) && AcceptedBytes(publicKey, message, signature, w)
  }

  predicate AcceptedBytes(publicKey: seq<Byte>, message: seq<Byte>, signature: seq<Byte>, w: nat)
    requires |signature| == 64
  {
    hide *;
    Accepted(publicKey, FromBE(Sha256.Digest(message)), Signature(FromBE(signature[..32]), FromBE(signature[32..])), w)
  }

  /** What decoding and verifying a signature decides, for any bytes. */
  lemma BytesVerifyIff(publicKey: seq<Byte>, message: seq<Byte>, signature: seq<Byte>)
    requires StandardFacts()
    ensures SignatureFromBytes(signature).Some?
            && Verify(publicKey, message, SignatureFromBytes(signature).value)
       <==> Genuine(publicKey, message, signature)
  {
    hide StandardFacts, Verify, HashToScalar, Accepted, FromBE, Cong, Sha256.Digest;
    HashIsNumber(message);
    if |signature| == 64 {
      var sig := Signature(FromBE(signature[..32]), FromBE(signature[32..]));
      VerifyRange(publicKey, message, sig);
      if InRange(sig.s) {
        SomeInverse(sig.s);
        var v: nat :| InverseOf(v, sig.s);
        VerifyIff(publicKey, message, sig, v);
        AcceptedRange(publicKey, HashToScalar(message), sig, v);
        if Genuine(publicKey, message, signature) {
          var w: nat :| InverseOf(w, sig.s) && AcceptedBytes(publicKey, message, signature, w);
          VerifyIff(publicKey, message, sig, w);
        }
      }
    }
  }

  /** The same for a given inverse of s. */
  lemma BytesVerifyWith(publicKey: seq<Byte>, message: seq<Byte>, signature: seq<Byte>, w: nat)
    requires StandardFacts() && |signature| == 64 && InRange(FromBE(signature[32..]))
    requires InverseOf(w, FromBE(signature[32..]))
    ensures Genuine(publicKey, message, signature)
       <==> Accepted(publicKey, FromBE(Sha256.Digest(message)),
              Signature(FromBE(signature[..32]), FromBE(signature[32..])), w)
  {
    hide StandardFacts, Verify, HashToScalar, Accepted, FromBE, Cong, Sha256.Digest, Genuine;
    var sig := Signature(FromBE(signature[..32]), FromBE(signature[32..]));
    HashIsNumber(message);
    VerifyIff(publicKey, message, sig, w);
    BytesVerifyIff(publicKey, message, signature);
  }

  lemma VerifyRange(publicKey: seq<Byte>, message: seq<Byte>, sig: Signature)
    ensures Verify(publicKey, message, sig) ==> InRange(sig.r) && InRange(sig.s)
  {
    hide PointFromBytes, VerifyPoint, HashToScalar;
  }

  lemma AcceptedRange(publicKey: seq<Byte>, z: nat, sig: Signature, w: nat)
    ensures Accepted(publicKey, z, sig, w) ==> InRange(sig.r)
  {
    hide PointFromBytes, Combined, Accepts;
  }

  lemma SomeInverse(s: int)
    requires StandardFacts() && InRange(s)
    ensures exists w: nat :: InverseOf(w, s)
  {
    hide Associative, OrderN, ModInv, Cong;
    InRangeInvertible(s);
    ModInvIsInverse(s, N);
    var w := ModInv(s, N).value;
    assert 0 <= w < N;
    assert InverseOf(w, s);
  }
}
