/** crypto/hmac.py and crypto/kdf.py: HMAC-SHA-256 (RFC 2104) and the two keys derived with it. */
module Hmac {
  import opened Bits
  import Sha256

  const BLOCK_SIZE: nat := 64

  function Repeat(b: Byte, n: nat): (r: seq<Byte>)
    ensures |r| == n
  {
    seq(n, _ => b)
  }

  /** The key reduced or padded to one block. */
  function BlockKey(key: seq<Byte>): (r: seq<Byte>)
    ensures |r| == BLOCK_SIZE
  {
    var k := if |key| > BLOCK_SIZE then Sha256.Digest(key) else key;
    k + Zeros(BLOCK_SIZE - |k|)
  }

  function HmacSha256(key: seq<Byte>, message: seq<Byte>): (r: seq<Byte>)
    ensures |r| == 32
  {
    var k := BlockKey(key);
    var inner := Sha256.Digest(XorBytes(k, Repeat(0x36, BLOCK_SIZE)) + message);
    Sha256.Digest(XorBytes(k, Repeat(0x5C, BLOCK_SIZE)) + inner)
  }

  /** b"auth" and b"kek". */
  const LABEL_AUTH: seq<Byte> := [0x61, 0x75, 0x74, 0x68]
  const LABEL_KEK: seq<Byte> := [0x6B, 0x65, 0x6B]

  function DeriveAuthKey(master: seq<Byte>): seq<Byte> {
    HmacSha256(master, LABEL_AUTH)
  }

  function DeriveKek(master: seq<Byte>): (r: seq<Byte>)
    ensures |r| == 32
  {
    HmacSha256(master, LABEL_KEK)
  }

  /** RFC 2104: the hash of the key masked with 0x5C and of the hash of the key masked with 0x36 and the
      message, for a key filled up with zeros to 64 bytes, or first hashed when it is longer. */
  lemma HmacIs(key: seq<Byte>, message: seq<Byte>, k: seq<Byte>, outer: seq<Byte>, inner: seq<Byte>)
    requires |k| == 64 && |outer| == 64 && |inner| == 64
    requires |key| <= 64 ==> key <= k && forall i :: |key| <= i < 64 ==> k[i] == 0
    requires |key| > 64 ==> Sha256.Digest(key) <= k && forall i :: 32 <= i < 64 ==> k[i] == 0
    requires forall i :: 0 <= i < 64 ==> outer[i] == XorByte(k[i], 0x5C) && inner[i] == XorByte(k[i], 0x36)
    ensures HmacSha256(key, message) == Sha256.Digest(outer + Sha256.Digest(inner + message))
  {
    hide Sha256.Digest, Xor;
    assert BlockKey(key) == k;
    assert XorBytes(k, Repeat(0x36, BLOCK_SIZE)) == inner;
    assert XorBytes(k, Repeat(0x5C, BLOCK_SIZE)) == outer;
  }

  /** The two keys are drawn from one master key under the texts "auth" and "kek". */
  lemma DerivedKeys(master: seq<Byte>, auth: seq<Byte>, kek: seq<Byte>)
    requires |auth| == |"auth"| && forall i :: 0 <= i < |auth| ==> auth[i] == "auth"[i] as int
    requires |kek| == |"kek"| && forall i :: 0 <= i < |kek| ==> kek[i] == "kek"[i] as int
    ensures DeriveAuthKey(master) == HmacSha256(master, auth) && DeriveKek(master) == HmacSha256(master, kek)
  {
    hide HmacSha256;
    assert auth == LABEL_AUTH && kek == LABEL_KEK;
  }
}
