/** crypto/ecdh.py: key agreement on P-256 (section 3.3.1 of SEC 1). */
module Ecdh {
  import opened Bits
  import opened Wrappers
  import opened ModArith
  import opened AffineCurve
  import opened P256
  import Ecdsa
  import Sha256

  /** b"SecureVault-ECDH-v1". */
  const DOMAIN_LABEL: seq<Byte> :=
    [0x53, 0x65, 0x63, 0x75, 0x72, 0x65, 0x56, 0x61, 0x75, 0x6C, 0x74, 0x2D, 0x45, 0x43, 0x44, 0x48, 0x2D, 0x76, 0x31]

  datatype Error = BadScalar | BadPeer | AtInfinity | InversionFailed | Overflow

  function RawSharedX(d: int, peer: seq<Byte>): Result<seq<Byte>, Error> {
    if !IsValidPrivateKey(d) then Err(BadScalar)
    else
      match PointFromBytes(peer)
      case None => Err(BadPeer)
      case Some(q) =>
        match ScalarMul(d, q)
        case None => Err(InversionFailed)
        case Some(s) =>
          if s == Infinity then Err(AtInfinity)
          else if To32(s.x).None? then Err(Overflow)
          else Ok(To32(s.x).value)
  }

  function SharedKey(d: int, peer: seq<Byte>, info: seq<Byte>): Result<seq<Byte>, Error> {
    match RawSharedX(d, peer)
    case Err(e) => Err(e)
    case Ok(x) => Ok(Sha256.Digest(DOMAIN_LABEL + x + info))
  }

  lemma SharedPoint(d: int, peer: seq<Byte>)
    requires StandardFacts() && IsValidPrivateKey(d) && PointFromBytes(peer).Some?
    ensures var q := PointFromBytes(peer).value;
      && IsOnCurve(q) && ScalarMul(d, q) == Some(Times(d, q))
      && Times(d, q) != Infinity && To32(Times(d, q).x).Some?
  {
    var q := PointFromBytes(peer).value;
    ScalarMulIsTimes(d, q);
    TimesNonzero(d, q);
    FieldElementFits();
  }

  /** The shared secret is computed exactly when the scalar and the peer key are valid: the
      result is never the point at infinity. */
  lemma SharedKeyDefined(d: int, peer: seq<Byte>, info: seq<Byte>)
    requires StandardFacts()
    ensures SharedKey(d, peer, info).Ok? <==> IsValidPrivateKey(d) && PointFromBytes(peer).Some?
    ensures SharedKey(d, peer, info).Ok? ==> |SharedKey(d, peer, info).value| == 32
  {
    hide StandardFacts, PointFromBytes, ScalarMul, Times, To32, IsOnCurve;
    if IsValidPrivateKey(d) && PointFromBytes(peer).Some? {
      SharedPoint(d, peer);
    }
  }

  /** The label in front of every hash is the text "SecureVault-ECDH-v1". */
  lemma LabelText()
    ensures |DOMAIN_LABEL| == |"SecureVault-ECDH-v1"|
    ensures forall i :: 0 <= i < |DOMAIN_LABEL| ==> DOMAIN_LABEL[i] == "SecureVault-ECDH-v1"[i] as int
  {
  }

  /** x is the x coordinate of d times a point that is not the identity, in 32 bytes, big-endian. */
  predicate IsSharedX(d: nat, q: CurvePoint, x: seq<Byte>) {
    hide *;
    |x| == 32 && Times(d, q).Affine? && FromBE(x) == Times(d, q).x
  }

  /** The shared key is the hash of the label, of the shared x coordinate and of the info string. */
  lemma SharedKeyIs(d: nat, peer: seq<Byte>, q: CurvePoint, info: seq<Byte>, x: seq<Byte>)
    requires StandardFacts() && IsValidPrivateKey(d) && PointFromBytes(peer) == Some(q) && IsSharedX(d, q, x)
    ensures SharedKey(d, peer, info) == Ok(Sha256.Digest(DOMAIN_LABEL + x + info))
  {
    hide StandardFacts, PointFromBytes, ScalarMul, Times, To32, IsOnCurve, FromBE, Sha256.Digest;
    SharedPoint(d, peer);
    FieldsOf(FromBE(x), x);
  }

  /** The encoded public key of a private scalar. */
  function PublicKey(d: int): Option<seq<Byte>> {
    match ScalarMul(d, G)
    case None => None
    case Some(q) => PointToBytes(q)
  }

  lemma PublicKeyDecodes(d: int)
    requires StandardFacts() && IsValidPrivateKey(d)
    ensures PublicKey(d).Some? && IsOnCurve(G)
    ensures PointFromBytes(PublicKey(d).value) == Some(Times(d, G))
  {
    hide StandardFacts, PointFromBytes, PointToBytes, ScalarMul, Times;
    Ecdsa.PublicPoint(d);
  }

  /** Both parties derive the same key. */
  lemma Agreement(a: int, b: int, info: seq<Byte>)
    requires StandardFacts() && IsValidPrivateKey(a) && IsValidPrivateKey(b)
    ensures PublicKey(a).Some? && PublicKey(b).Some?
    ensures SharedKey(a, PublicKey(b).value, info) == SharedKey(b, PublicKey(a).value, info)
    ensures SharedKey(a, PublicKey(b).value, info).Ok?
  {
    PublicKeyDecodes(a);
    PublicKeyDecodes(b);
    SharedPoint(a, PublicKey(b).value);
    SharedPoint(b, PublicKey(a).value);
    hide IsPrime, OrderN, PublicKey, PointFromBytes, ScalarMul, Times, To32, IsOnCurve, Sha256.Digest;
    TimesTimes(a, b, G);
    TimesTimes(b, a, G);
    assert a * b == b * a;
    SharedKeyDefined(a, PublicKey(b).value, info);
  }
}
