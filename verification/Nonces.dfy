/** The deterministic nonce of crypto/ecdsa.py (section 3.2 of RFC 6979 with HMAC-SHA-256 on P-256). */
module Nonces {
  import opened Bits
  import opened Wrappers
  import opened P256
  import opened Ecdsa
  import Hmac
  import Sha256

  type Bytes32 = s: seq<Byte> | |s| == 32 witness Zeros(32)

  /** K and V of the generator. */
  datatype Generator = Generator(key: Bytes32, value: Bytes32)

  /** `_int2octets` for 32 bytes. */
  function IntToOctets(x: nat): Bytes32
    requires x < N
  {
    FieldElementFits();
    ToBE(x, 32)
  }

  /** `_bits2octets`: the hash is reduced modulo N here, but not where it is signed. */
  function BitsToOctets(hash: seq<Byte>): Bytes32 {
    IntToOctets(Bits2Int(hash, 256) % N)
  }

  /** Steps b to g. */
  function Seeded(d: nat, hash: seq<Byte>): Generator
    requires d < N
  {
    var (x, h) := (IntToOctets(d), BitsToOctets(hash));
    var v0, k0 := Hmac.Repeat(0x01, 32), Zeros(32);
    var k1 := Hmac.HmacSha256(k0, v0 + [0x00] + x + h);
    var v1 := Hmac.HmacSha256(k1, v0);
    var k2 := Hmac.HmacSha256(k1, v1 + [0x01] + x + h);
    Generator(k2, Hmac.HmacSha256(k2, v1))
  }

  /** One pass of step h: the generator after the draw, whose value is the candidate. */
  function Drawn(g: Generator): Generator {
    g.(value := Hmac.HmacSha256(g.key, g.value))
  }

  /** What follows a candidate that is out of range. */
  function Rerolled(g: Generator): Generator {
    var key := Hmac.HmacSha256(g.key, g.value + [0x00]);
    Generator(key, Hmac.HmacSha256(key, g.value))
  }

  /** The generator after n candidates out of range. */
  function After(g: Generator, n: nat): Generator {
    if n == 0 then g else Rerolled(Drawn(After(g, n - 1)))
  }

  function Candidate(g: Generator, n: nat): nat {
    Bits2Int(Drawn(After(g, n)).value, 256)
  }

  /** Candidate n is the first in range. */
  ghost predicate FirstInRange(g: Generator, n: nat) {
    InRange(Candidate(g, n)) && forall j: nat :: j < n ==> !InRange(Candidate(g, j))
  }

  /** `_rfc6979_generate_k`, where it ends. */
  method GenerateK(d: nat, hash: seq<Byte>, ghost n: nat) returns (k: nat)
    requires IsValidPrivateKey(d) && FirstInRange(Seeded(d, hash), n)
    ensures k == Candidate(Seeded(d, hash), n) && InRange(k)
  {
    hide Hmac.HmacSha256, Bits2Int, Seeded;
    var g := Seeded(d, hash);
    var key: Bytes32, value: Bytes32 := g.key, g.value;
    ghost var i := 0;
    while true
      invariant i <= n && Generator(key, value) == After(g, i) && g == Seeded(d, hash)
      decreases n - i
    {
      var t: seq<Byte> := [];
      ghost var before: Bytes32 := value;
      while |t| < 32
        invariant (t == [] && value == before) || (|t| == 32 && t == value == Hmac.HmacSha256(key, before))
        decreases 32 - |t|
      {
        value := Hmac.HmacSha256(key, value);
        t := t + value;
      }
      assert Generator(key, value) == Drawn(After(g, i));
      var candidate := Bits2Int(t, 256);
      assert candidate == Candidate(g, i);
      if 1 <= candidate <= N - 1 {
        return candidate;
      }
      key := Hmac.HmacSha256(key, value + [0x00]);
      value := Hmac.HmacSha256(key, value);
      i := i + 1;
    }
  }

  /** There is one first candidate, so one nonce for a key and a message. */
  lemma OneNonce(g: Generator, m: nat, n: nat)
    requires FirstInRange(g, m) && FirstInRange(g, n)
    ensures m == n
  {
    hide Candidate;
    assert m < n ==> !InRange(Candidate(g, m));
    assert n < m ==> !InRange(Candidate(g, n));
  }

  /** The steps of section 3.2, from a to g: x is the private scalar in 32 bytes, h the digest reduced modulo
      the group order. */
  lemma SeededBy(d: nat, hash: seq<Byte>, x: Bytes32, h: Bytes32, v0: Bytes32, k0: Bytes32, k1: Bytes32, v1: Bytes32,
                 k2: Bytes32, v2: Bytes32)
    requires |hash| == 32 && d < N && FromBE(x) == d && FromBE(h) == FromBE(hash) % N
    requires (forall i :: 0 <= i < 32 ==> v0[i] == 1) && (forall i :: 0 <= i < 32 ==> k0[i] == 0)
    requires k1 == Hmac.HmacSha256(k0, v0 + [0] + x + h) && v1 == Hmac.HmacSha256(k1, v0)
    requires k2 == Hmac.HmacSha256(k1, v1 + [1] + x + h) && v2 == Hmac.HmacSha256(k2, v1)
    ensures Seeded(d, hash) == Generator(k2, v2)
  {
    hide Hmac.HmacSha256, FromBE, ToBE;
    ToFromBE(x);
    ToFromBE(h);
    assert v0 == Hmac.Repeat(0x01, 32) && k0 == Zeros(32);
  }

  /** Step h: the first candidate is the number of HMAC_K(V), and each later one that of the generator rekeyed
      with V and a zero byte. */
  lemma CandidatesAre(g: Generator, n: nat)
    ensures Candidate(g, n) == FromBE(Hmac.HmacSha256(After(g, n).key, After(g, n).value))
    ensures After(g, 0) == g
    ensures var (k, v) := (After(g, n).key, Hmac.HmacSha256(After(g, n).key, After(g, n).value));
      After(g, n + 1).key == Hmac.HmacSha256(k, v + [0])
      && After(g, n + 1).value == Hmac.HmacSha256(Hmac.HmacSha256(k, v + [0]), v)
  {
    hide Hmac.HmacSha256, FromBE;
  }

  /** Signing with the drawn nonce: the result depends on the scalar and the message alone, and a signature
      verifies. */
  lemma DeterministicSignature(d: nat, message: seq<Byte>, m: nat, n: nat)
    requires StandardFacts() && IsValidPrivateKey(d)
    requires var g := Seeded(d, Sha256.Digest(message)); FirstInRange(g, m) && FirstInRange(g, n)
    ensures var g := Seeded(d, Sha256.Digest(message));
      Sign(d, message, Candidate(g, m)) == Sign(d, message, Candidate(g, n))
    ensures var s := Sign(d, message, Candidate(Seeded(d, Sha256.Digest(message)), n));
      s.Ok? ==> ScalarMul(d, G).Some? && PointToBytes(ScalarMul(d, G).value).Some?
                && Verify(PointToBytes(ScalarMul(d, G).value).value, message, s.value)
  {
    hide StandardFacts, Candidate, Seeded, Sign, Verify, ScalarMul, PointToBytes, Sha256.Digest;
    var g := Seeded(d, Sha256.Digest(message));
    OneNonce(g, m, n);
    if Sign(d, message, Candidate(g, n)).Ok? {
      SignedVerifies(d, message, Candidate(g, n));
    }
  }
}
