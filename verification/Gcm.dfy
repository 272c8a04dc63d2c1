/** crypto/gcm.py: counter mode, and authenticated encryption and decryption
    (sections 6.5 and 7 of SP 800-38D). */
module Gcm {
  import opened Bits
  import opened Wrappers
  import Aes
  import AesCipher
  import Ghash

  const MAX_PT_LEN: int := 0x10_00000000 - 32

  /** Lengths whose bit count fits the 64-bit fields of the GHASH input. */
  const LEN_LIMIT: int := 0x20000000_00000000

  // ---- Counter mode --------------------------------------------------------

  /** `_inc32`: increment the last four bytes modulo 2^32. */
  function Inc32(b: Block): Block {
    b[..12] + ToBE4((FromBE(b[12..]) + 1) % TWO32)
  }

  function Counter(icb: Block, k: nat): Block {
    if k == 0 then icb else Inc32(Counter(icb, k - 1))
  }

  /** Byte i of the output is byte i of the input masked with byte i % 16 of counter block i / 16. */
  function Ctr(key: seq<Byte>, icb: Block, data: seq<Byte>): (out: seq<Byte>)
    requires Aes.ValidKey(key)
    ensures |out| == |data|
  {
    seq(|data|, i requires 0 <= i < |data| =>
      XorByte(data[i], Aes.Encrypt(key, Counter(icb, i / 16))[i % 16]))
  }

  /** `_gctr`, the loop. */
  method Gctr(cipher: AesCipher.AES, icb: Block, data: seq<Byte>) returns (out: seq<Byte>)
    requires cipher.Valid()
    ensures out == Ctr(cipher.key, icb, data)
  {
    hide Aes.Encrypt, Inc32, XorByte, Aes.RoundKeys;
    out := [];
    var counter := icb;
    var i := 0;
    while i < |data|
      invariant 0 <= i && i % 16 == 0
      invariant out == Ctr(cipher.key, icb, data)[..(if i <= |data| then i else |data|)]
      invariant counter == Counter(icb, i / 16)
    {
      var keystream := cipher.EncryptBlock(counter);
      var n := if i + 16 <= |data| then i + 16 else |data|;
      CtrChunk(cipher.key, icb, data, i, n);
      out := out + XorBytes(data[i..n], keystream.value);
      counter := Inc32(counter);
      i := i + 16;
    }
  }

  lemma CtrChunk(key: seq<Byte>, icb: Block, data: seq<Byte>, i: nat, n: nat)
    requires Aes.ValidKey(key) && i % 16 == 0 && i <= n <= |data| && n <= i + 16
    ensures Ctr(key, icb, data)[..n]
         == Ctr(key, icb, data)[..i] + XorBytes(data[i..n], Aes.Encrypt(key, Counter(icb, i / 16)))
  {
    hide Aes.Encrypt, Counter, XorByte;
    var masked := XorBytes(data[i..n], Aes.Encrypt(key, Counter(icb, i / 16)));
    forall j | i <= j < n ensures Ctr(key, icb, data)[j] == masked[j - i] {
      assert j / 16 == i / 16 && j % 16 == j - i;
    }
  }

  /** Counter mode is its own inverse. */
  lemma CtrInvolution(key: seq<Byte>, icb: Block, data: seq<Byte>)
    requires Aes.ValidKey(key)
    ensures Ctr(key, icb, Ctr(key, icb, data)) == data
  {
    hide Aes.Encrypt, Counter, Xor;
    forall i | 0 <= i < |data| ensures Ctr(key, icb, Ctr(key, icb, data))[i] == data[i] {
      XorCancel(data[i], Aes.Encrypt(key, Counter(icb, i / 16))[i % 16]);
    }
  }

  // ---- Counter blocks --------------------------------------------------------

  type Nonce = s: seq<Byte> | |s| == 12 witness Zeros(12)

  /** The pre-counter block J0 of a 96-bit nonce. */
  function J0(nonce: Nonce): Block {
    nonce + [0, 0, 0, 1]
  }

  lemma {:induction false} CounterValue(nonce: Nonce, k: nat)
    ensures Counter(J0(nonce), k) == nonce + ToBE4((1 + k) % TWO32)
  {
    hide ToBE4, FromBE;
    if k == 0 {
      FromOne();
      ToFromField([0, 0, 0, 1]);
    } else {
      CounterValue(nonce, k - 1);
      Inc32Value(nonce, k % TWO32);
      SuccModulo(k % TWO32, k);
    }
  }

  lemma Inc32Value(nonce: Nonce, x: nat)
    requires x < TWO32
    ensures Inc32(nonce + ToBE4(x)) == nonce + ToBE4((1 + x) % TWO32)
  {
    hide ToBE4, FromBE;
    var b := nonce + ToBE4(x);
    assert b[..12] == nonce && b[12..] == ToBE4(x);
    FromToBE4(x);
  }

  lemma SuccModulo(j: nat, k: nat)
    ensures (1 + j) % TWO32 == (1 + k) % TWO32 <==> j % TWO32 == k % TWO32
  {
  }

  lemma FromOne()
    ensures FromBE([0, 0, 0, 1]) == 1
  {
    assert [0, 0, 0, 1][..3] == [0, 0, 0] && [0, 0, 0][..2] == [0, 0] && [0, 0][..1] == [0] && [0][..0] == [];
    assert FromBE([0, 0, 0]) == 256 * FromBE([0, 0]) && FromBE([0, 0]) == 256 * FromBE([0]);
  }

  lemma ToBE4Injective(nonce: seq<Byte>, a: nat, b: nat)
    requires a < TWO32 && b < TWO32
    ensures nonce + ToBE4(a) == nonce + ToBE4(b) ==> a == b
  {
    hide ToBE4;
    FromToBE4(a);
    FromToBE4(b);
    assert (nonce + ToBE4(a))[|nonce|..] == ToBE4(a) && (nonce + ToBE4(b))[|nonce|..] == ToBE4(b);
  }

  /** Counter blocks repeat exactly with period 2^32. */
  lemma CountersDistinct(nonce: Nonce, j: nat, k: nat)
    ensures Counter(J0(nonce), j) == Counter(J0(nonce), k) <==> j % TWO32 == k % TWO32
  {
    hide ToBE4, Counter;
    CounterValue(nonce, j);
    CounterValue(nonce, k);
    SuccModulo(j, k);
    ToBE4Injective(nonce, (1 + j) % TWO32, (1 + k) % TWO32);
  }

  /** The block whose encipherment is the hash subkey. */
  const SUBKEY_INPUT: Block := Zeros(16)

  lemma CounterIsSubkeyInput(nonce: Nonce, k: nat)
    ensures Counter(J0(nonce), k) == SUBKEY_INPUT <==> nonce == Zeros(12) && (1 + k) % TWO32 == 0
  {
    hide ToBE4, Counter;
    var a := (1 + k) % TWO32;
    CounterValue(nonce, k);
    FromToBE4(a);
    FromZeros(4);
    ToFromField(Zeros(4));
    assert (nonce + ToBE4(a))[..12] == nonce && (nonce + ToBE4(a))[12..] == ToBE4(a);
    assert SUBKEY_INPUT[..12] == Zeros(12) && SUBKEY_INPUT[12..] == Zeros(4);
    assert SUBKEY_INPUT == Zeros(12) + Zeros(4);
  }

  lemma {:induction false} FromZeros(n: nat)
    ensures FromBE(Zeros(n)) == 0
  {
    if n > 0 {
      FromZeros(n - 1);
      assert Zeros(n)[..n - 1] == Zeros(n - 1);
    }
  }

  /** Blocks enciphered for `len` bytes of data: counters 1 to BlockCount(len). */
  function BlockCount(len: nat): nat {
    (len + 15) / 16
  }

  /** Counter block `j` is neither counter block `k` nor the subkey input. */
  predicate Apart(nonce: Nonce, j: nat, k: nat) {
    Counter(J0(nonce), j) != Counter(J0(nonce), k) && Counter(J0(nonce), j) != SUBKEY_INPUT
  }

  /** Under the zero nonce, the AES inputs for the data are distinct from each other, from J0
      and from the subkey input if and only if the data is within the length bound. */
  lemma LengthBoundIsExact(len: nat)
    ensures len <= MAX_PT_LEN
       <==> forall j: nat, k: nat :: 1 <= j <= BlockCount(len) && k < j ==> Apart(Zeros(12), j, k)
  {
    hide Counter;
    var nonce: Nonce := Zeros(12);
    if len <= MAX_PT_LEN {
      forall j: nat, k: nat | 1 <= j <= BlockCount(len) && k < j ensures Apart(nonce, j, k) {
        CountersDistinct(nonce, j, k);
        CounterIsSubkeyInput(nonce, j);
      }
    } else {
      var j: nat := TWO32 - 1;
      CounterIsSubkeyInput(nonce, j);
      assert !Apart(nonce, j, 0);
    }
  }

  /** Under every nonce, the counter blocks for the data and J0 are pairwise distinct exactly when there
      are fewer than 2^32 of the former; within the length bound there always are. */
  lemma CountersApart(nonce: Nonce, len: nat)
    ensures BlockCount(len) < TWO32
       <==> forall j: nat, k: nat :: k < j <= BlockCount(len) ==> Counter(J0(nonce), j) != Counter(J0(nonce), k)
    ensures len <= MAX_PT_LEN ==> BlockCount(len) < TWO32
  {
    hide Counter, J0;
    if BlockCount(len) < TWO32 {
      forall j: nat, k: nat | k < j <= BlockCount(len) ensures Counter(J0(nonce), j) != Counter(J0(nonce), k) {
        CountersDistinct(nonce, j, k);
      }
    } else {
      CountersDistinct(nonce, TWO32, 0);
    }
  }

  // ---- The tag -----------------------------------------------------------------

  /** `_zero_pad`. */
  function ZeroPad(n: nat): (r: seq<Byte>)
    ensures (n + |r|) % 16 == 0 && |r| < 16
  {
    PadLength(n);
    Zeros((16 - n % 16) % 16)
  }

  lemma PadLength(n: nat)
    ensures (n + (16 - n % 16) % 16) % 16 == 0
  {
    if n % 16 == 0 {
      assert (16 - n % 16) % 16 == 0;
    } else {
      assert (16 - n % 16) % 16 == 16 - n % 16;
    }
  }

  function Padded(s: seq<Byte>): (r: seq<Byte>)
    ensures |r| % 16 == 0 && |s| <= |r| < |s| + 16 && r[..|s|] == s
  {
    s + ZeroPad(|s|)
  }

  function Len64(n: nat): (r: seq<Byte>)
    requires n < LEN_LIMIT
    ensures |r| == 8
  {
    ToBE8(8 * n)
  }

  function Lengths(aad: seq<Byte>, c: seq<Byte>): Block
    requires |aad| < LEN_LIMIT && |c| < LEN_LIMIT
  {
    Len64(|aad|) + Len64(|c|)
  }

  /** A || 0-pad || C || 0-pad || len(A) || len(C). */
  function GhashInput(aad: seq<Byte>, c: seq<Byte>): (r: seq<Byte>)
    requires |aad| < LEN_LIMIT && |c| < LEN_LIMIT
    ensures |r| % 16 == 0
  {
    AlignedSum(|Padded(aad)|, |Padded(c)|, 16);
    Padded(aad) + Padded(c) + Lengths(aad, c)
  }

  lemma AlignedSum(a: nat, b: nat, c: nat)
    requires a % 16 == 0 && b % 16 == 0 && c % 16 == 0
    ensures (a + b + c) % 16 == 0
  {
  }

  lemma Len64Injective(m: nat, n: nat)
    requires m < LEN_LIMIT && n < LEN_LIMIT
    ensures Len64(m) == Len64(n) ==> m == n
  {
    hide ToBE8;
    FromToBE8(8 * m);
    FromToBE8(8 * n);
  }

  /** The hashed string determines the data it authenticates. */
  lemma GhashInputInjective(aad: seq<Byte>, c: seq<Byte>, aad': seq<Byte>, c': seq<Byte>)
    requires |aad| < LEN_LIMIT && |c| < LEN_LIMIT && |aad'| < LEN_LIMIT && |c'| < LEN_LIMIT
    requires GhashInput(aad, c) == GhashInput(aad', c')
    ensures aad == aad' && c == c'
  {
    hide Len64, Padded;
    var s, s' := GhashInput(aad, c), GhashInput(aad', c');
    assert s[|s| - 16..] == Lengths(aad, c) && s'[|s'| - 16..] == Lengths(aad', c');
    assert Lengths(aad, c)[..8] == Len64(|aad|) && Lengths(aad', c')[..8] == Len64(|aad'|);
    assert Lengths(aad, c)[8..] == Len64(|c|) && Lengths(aad', c')[8..] == Len64(|c'|);
    Len64Injective(|aad|, |aad'|);
    Len64Injective(|c|, |c'|);
    PaddedLength(aad, aad');
    PaddedLength(c, c');
    var p := |Padded(aad)|;
    assert s[..p] == Padded(aad) && s'[..p] == Padded(aad');
    assert s[p..|s| - 16] == Padded(c) && s'[p..|s| - 16] == Padded(c');
  }

  /** The next multiple of 16. */
  function RoundUp(n: nat): nat {
    (n + 15) / 16 * 16
  }

  /** The string that is hashed, byte by byte: the associated data and the ciphertext, each filled up with
      zeros to whole blocks, and both lengths in bits, in eight bytes each. */
  lemma HashedBytes(aad: seq<Byte>, c: seq<Byte>)
    requires |aad| < LEN_LIMIT && |c| < LEN_LIMIT
    ensures var (x, p, q) := (GhashInput(aad, c), RoundUp(|aad|), RoundUp(|aad|) + RoundUp(|c|));
      && |x| == q + 16
      && x[..|aad|] == aad && (forall i :: |aad| <= i < p ==> x[i] == 0)
      && x[p..p + |c|] == c && (forall i :: p + |c| <= i < q ==> x[i] == 0)
      && FromBE(x[q..q + 8]) == 8 * |aad| && FromBE(x[q + 8..]) == 8 * |c|
  {
    hide ToBE8, FromBE;
    var (x, p, q) := (GhashInput(aad, c), RoundUp(|aad|), RoundUp(|aad|) + RoundUp(|c|));
    PaddedIs(aad);
    PaddedIs(c);
    FromToBE8(8 * |aad|);
    FromToBE8(8 * |c|);
    assert x[q..q + 8] == Len64(|aad|) && x[q + 8..] == Len64(|c|);
    assert x[p..q] == Padded(c);
    assert forall i :: 0 <= i < p ==> x[i] == Padded(aad)[i];
    assert forall i :: p <= i < q ==> x[i] == Padded(c)[i - p];
  }

  lemma PaddedIs(s: seq<Byte>)
    ensures |Padded(s)| == RoundUp(|s|) && forall i :: |s| <= i < |Padded(s)| ==> Padded(s)[i] == 0
  {
    var n := |Padded(s)|;
    DivUnique(|s| + 15, 16, n / 16, |s| + 15 - n);
  }

  lemma PaddedLength(s: seq<Byte>, t: seq<Byte>)
    requires |s| == |t|
    ensures |Padded(s)| == |Padded(t)|
  {
  }

  function Subkey(key: seq<Byte>): Block
    requires Aes.ValidKey(key)
  {
    Aes.Encrypt(key, SUBKEY_INPUT)
  }

  function Tag(key: seq<Byte>, nonce: Nonce, aad: seq<Byte>, c: seq<Byte>): (t: Block)
    requires Aes.ValidKey(key) && |aad| < LEN_LIMIT && |c| < LEN_LIMIT
  {
    XorBytes(Ghash.Hash(Subkey(key), GhashInput(aad, c)), Aes.Encrypt(key, J0(nonce)))
  }

  // ---- Encryption and decryption -------------------------------------------------

  datatype Sealed = Sealed(ciphertext: seq<Byte>, tag: seq<Byte>)
  datatype Error = BadKey | BadNonce | TooLong | Overflow

  function Validate(key: seq<Byte>, nonce: seq<Byte>): Option<Error> {
    if !Aes.ValidKey(key) then Some(BadKey)
    else if |nonce| != 12 then Some(BadNonce)
    else None
  }

  /** The outcome of `encrypt`. */
  function Seal(key: seq<Byte>, nonce: seq<Byte>, plaintext: seq<Byte>, aad: seq<Byte>): Result<Sealed, Error> {
    if Validate(key, nonce).Some? then Err(Validate(key, nonce).value)
    else if |plaintext| > MAX_PT_LEN then Err(TooLong)
    else if |aad| >= LEN_LIMIT then Err(Overflow)
    else
      var c := Ctr(key, Inc32(J0(nonce)), plaintext);
      Ok(Sealed(c, Tag(key, nonce, aad, c)))
  }

  /** The outcome of `decrypt`; the value is None when authentication fails. */
  function Open(key: seq<Byte>, nonce: seq<Byte>, c: seq<Byte>, tag: seq<Byte>, aad: seq<Byte>):
    Result<Option<seq<Byte>>, Error>
  {
    if Validate(key, nonce).Some? then Err(Validate(key, nonce).value)
    else if |tag| != 16 then Ok(None)
    else if |aad| >= LEN_LIMIT || |c| >= LEN_LIMIT then Err(Overflow)
    else if Tag(key, nonce, aad, c) != tag then Ok(None)
    else Ok(Some(Ctr(key, Inc32(J0(nonce)), c)))
  }

  /** Byte i of the plaintext is masked with the encipherment of the nonce and the counter that
      starts at 2. */
  predicate Masked(key: seq<Byte>, nonce: Nonce, p: seq<Byte>, c: seq<Byte>, i: nat) {
    hide *;
    i < |p| && i < |c| && i / 16 + 2 < TWO32 && Aes.ValidKey(key)
    && c[i] == XorByte(p[i], Aes.Encrypt(key, nonce + ToBE4(i / 16 + 2))[i % 16])
  }

  /** The tag is the hash of associated data, ciphertext and lengths, under the encipherment of
      the zero block, masked with the encipherment of the nonce and the counter 1. */
  predicate Tagged(key: seq<Byte>, nonce: Nonce, aad: seq<Byte>, s: Sealed) {
    hide Aes.Encrypt, GhashInput, Ghash.Hash, XorBytes, ToBE4;
    && Aes.ValidKey(key) && |aad| < LEN_LIMIT && |s.ciphertext| < LEN_LIMIT
    && s.tag == XorBytes(Ghash.Hash(Aes.Encrypt(key, Zeros(16)), GhashInput(aad, s.ciphertext)),
                         Aes.Encrypt(key, nonce + ToBE4(1)))
  }

  /** What encryption computes (sections 6.5 and 7.1 of SP 800-38D), with the counters spelled out. */
  lemma SealedBytes(key: seq<Byte>, nonce: seq<Byte>, p: seq<Byte>, aad: seq<Byte>)
    requires Seal(key, nonce, p, aad).Ok?
    ensures |nonce| == 12 && |Seal(key, nonce, p, aad).value.ciphertext| == |p|
    ensures Tagged(key, nonce, aad, Seal(key, nonce, p, aad).value)
    ensures forall i :: 0 <= i < |p| ==> Masked(key, nonce, p, Seal(key, nonce, p, aad).value.ciphertext, i)
  {
    hide Aes.Encrypt, XorByte, ToBE4, Inc32, GhashInput, Ghash.Hash, J0, Counter;
    FirstCounter(nonce);
    forall i | 0 <= i < |p| ensures Masked(key, nonce, p, Seal(key, nonce, p, aad).value.ciphertext, i) {
      CounterOfNext(J0(nonce), i / 16);
      CounterValue(nonce, i / 16 + 1);
      assert (1 + (i / 16 + 1)) % TWO32 == i / 16 + 2;
    }
  }

  /** When encryption raises: for keys that are not of 16 or 32 bytes, nonces that are not of 12, more than
      2^36 - 32 bytes of data, or associated data whose length in bits takes more than 64. */
  lemma SealDefined(key: seq<Byte>, nonce: seq<Byte>, p: seq<Byte>, aad: seq<Byte>)
    ensures Seal(key, nonce, p, aad).Ok?
       <==> (|key| == 16 || |key| == 32) && |nonce| == 12 && |p| <= 16 * TWO32 - 32 && 8 * |aad| < TWO64
  {
    hide Ctr, Tag, Inc32, J0;
  }

  /** When decryption raises: a tag of another length is no match before the lengths are looked at. */
  lemma OpenDefined(key: seq<Byte>, nonce: seq<Byte>, c: seq<Byte>, tag: seq<Byte>, aad: seq<Byte>)
    ensures Open(key, nonce, c, tag, aad).Ok?
       <==> (|key| == 16 || |key| == 32) && |nonce| == 12
            && (|tag| == 16 ==> 8 * |c| < TWO64 && 8 * |aad| < TWO64)
    ensures Open(key, nonce, c, tag, aad).Ok? && Open(key, nonce, c, tag, aad).value.Some? ==>
      |tag| == 16 && |Open(key, nonce, c, tag, aad).value.value| == |c|
  {
    hide Ctr, Tag, Inc32, J0;
  }

  lemma FirstCounter(nonce: Nonce)
    ensures J0(nonce) == nonce + ToBE4(1)
  {
    CounterValue(nonce, 0);
  }

  lemma {:induction false} CounterOfNext(b: Block, k: nat)
    ensures Counter(Inc32(b), k) == Counter(b, k + 1)
  {
    hide Inc32;
    if k > 0 {
      CounterOfNext(b, k - 1);
    }
  }

  /** Decryption yields `p` within the length bound exactly when encrypting `p` gives the
      ciphertext and the tag. */
  lemma OpenIffSeal(key: seq<Byte>, nonce: seq<Byte>, p: seq<Byte>, c: seq<Byte>, tag: seq<Byte>, aad: seq<Byte>)
    ensures Seal(key, nonce, p, aad) == Ok(Sealed(c, tag))
       <==> Open(key, nonce, c, tag, aad) == Ok(Some(p)) && |c| <= MAX_PT_LEN
  {
    hide Tag, Ctr, Inc32, J0;
    if Validate(key, nonce).None? {
      var icb := Inc32(J0(nonce));
      CtrInvolution(key, icb, p);
      CtrInvolution(key, icb, c);
    }
  }

  /** A sealed message opens to itself, and with the same length. */
  lemma OpenSeal(key: seq<Byte>, nonce: seq<Byte>, p: seq<Byte>, aad: seq<Byte>)
    requires Seal(key, nonce, p, aad).Ok?
    ensures var s := Seal(key, nonce, p, aad).value;
      && |s.ciphertext| == |p| && |s.tag| == 16
      && Open(key, nonce, s.ciphertext, s.tag, aad) == Ok(Some(p))
  {
    var s := Seal(key, nonce, p, aad).value;
    OpenIffSeal(key, nonce, p, s.ciphertext, s.tag, aad);
  }

  /** `_consttime_equal` of crypto/hmac.py. */
  method ConstTimeEqual(a: seq<Byte>, b: seq<Byte>) returns (r: bool)
    ensures r <==> a == b
  {
    if |a| != |b| {
      return false;
    }
    var diff: nat := 0;
    for i := 0 to |a|
      invariant diff == 0 <==> a[..i] == b[..i]
    {
      XorIsZero(a[i], b[i]);
      OrIsZero(diff, Xor(a[i], b[i]));
      assert a[..i + 1] == a[..i] + [a[i]] && b[..i + 1] == b[..i] + [b[i]];
      diff := Or(diff, Xor(a[i], b[i]));
    }
    assert a[..|a|] == a && b[..|b|] == b;
    r := diff == 0;
  }

  method ComputeTag(cipher: AesCipher.AES, nonce: Nonce, aad: seq<Byte>, c: seq<Byte>) returns (tag: Block)
    requires cipher.Valid() && |aad| < LEN_LIMIT && |c| < LEN_LIMIT
    ensures tag == Tag(cipher.key, nonce, aad, c)
  {
    hide Aes.Encrypt, GhashInput, Ghash.Hash, XorBytes, J0;
    var h := cipher.EncryptBlock(SUBKEY_INPUT);
    var s := Ghash.GHash(h.value, GhashInput(aad, c));
    var mask := cipher.EncryptBlock(J0(nonce));
    tag := XorBytes(s, mask.value);
  }

  /** `encrypt`. */
  method Encrypt(key: seq<Byte>, nonce: seq<Byte>, plaintext: seq<Byte>, aad: seq<Byte>)
    returns (r: Result<Sealed, Error>)
    ensures r == Seal(key, nonce, plaintext, aad)
  {
    hide Tag, Ctr, Inc32, J0;
    if Validate(key, nonce).Some? {
      return Err(Validate(key, nonce).value);
    }
    if |plaintext| > MAX_PT_LEN {
      return Err(TooLong);
    }
    if |aad| >= LEN_LIMIT {
      return Err(Overflow);
    }
    var cipher := AesCipher.MakeAes(key);
    var ciphertext := Gctr(cipher.value, Inc32(J0(nonce)), plaintext);
    var tag := ComputeTag(cipher.value, nonce, aad, ciphertext);
    r := Ok(Sealed(ciphertext, tag));
  }

  /** `decrypt`: the tag is compared before anything is decrypted. */
  method Decrypt(key: seq<Byte>, nonce: seq<Byte>, ciphertext: seq<Byte>, tag: seq<Byte>, aad: seq<Byte>)
    returns (r: Result<Option<seq<Byte>>, Error>)
    ensures r == Open(key, nonce, ciphertext, tag, aad)
  {
    hide Tag, Ctr, Inc32, J0;
    if Validate(key, nonce).Some? {
      return Err(Validate(key, nonce).value);
    }
    if |tag| != 16 {
      return Ok(None);
    }
    if |aad| >= LEN_LIMIT || |ciphertext| >= LEN_LIMIT {
      return Err(Overflow);
    }
    var cipher := AesCipher.MakeAes(key);
    var expected := ComputeTag(cipher.value, nonce, aad, ciphertext);
    var same := ConstTimeEqual(expected, tag);
    if !same {
      return Ok(None);
    }
    var plaintext := Gctr(cipher.value, Inc32(J0(nonce)), ciphertext);
    r := Ok(Some(plaintext));
  }

  // ---- Tampering with one block ------------------------------------------------------

  /** Ciphertexts that differ, but only inside the sixteen bytes of block `k`. */
  ghost predicate TamperedBlock(c: seq<Byte>, c': seq<Byte>, k: nat) {
    |c| == |c'| && c != c' && forall i :: 0 <= i < |c| && i / 16 != k ==> c[i] == c'[i]
  }

  lemma TamperedPadded(c: seq<Byte>, c': seq<Byte>, k: nat)
    requires TamperedBlock(c, c', k)
    ensures Ghash.DifferAtBlock(Padded(c), Padded(c'), k)
  {
    var s, s' := Padded(c), Padded(c');
    var i :| 0 <= i < |c| && c[i] != c'[i];
    assert i / 16 == k && i == 16 * k + i % 16;
    assert Ghash.BlockAt(s, k)[i % 16] == s[i] && Ghash.BlockAt(s', k)[i % 16] == s'[i];
  }

  lemma DifferInside(p: seq<Byte>, a: seq<Byte>, b: seq<Byte>, q: seq<Byte>, k: nat)
    requires |p| % 16 == 0 && |q| % 16 == 0 && Ghash.DifferAtBlock(a, b, k)
    ensures Ghash.DifferAtBlock(p + a + q, p + b + q, |p| / 16 + k)
  {
    var s, s', m := p + a + q, p + b + q, |p| / 16 + k;
    assert Ghash.BlockAt(s, m) == Ghash.BlockAt(a, k) && Ghash.BlockAt(s', m) == Ghash.BlockAt(b, k);
    forall j | 0 <= j < |s| && j / 16 != m ensures s[j] == s'[j] {
      if |p| <= j < |p| + |a| {
        assert (j - |p|) / 16 == j / 16 - |p| / 16;
        assert s[j] == a[j - |p|] && s'[j] == b[j - |p|];
      }
    }
  }

  lemma TamperedInput(aad: seq<Byte>, c: seq<Byte>, c': seq<Byte>, k: nat)
    requires |aad| < LEN_LIMIT && |c| < LEN_LIMIT
    requires TamperedBlock(c, c', k)
    ensures Ghash.DifferAtBlock(GhashInput(aad, c), GhashInput(aad, c'), |Padded(aad)| / 16 + k)
  {
    hide Padded, Len64, Ghash.DifferAtBlock;
    TamperedPadded(c, c', k);
    DifferInside(Padded(aad), Padded(c), Padded(c'), Lengths(aad, c), k);
  }

  lemma TamperedLength(c: seq<Byte>, c': seq<Byte>, k: nat)
    requires TamperedBlock(c, c', k)
    ensures |c| == |c'|
  {
  }

  /** With a nonzero subkey, an accepted ciphertext altered inside one block is rejected. */
  lemma TamperedBlockRejected(key: seq<Byte>, nonce: seq<Byte>, c: seq<Byte>, c': seq<Byte>,
                              tag: seq<Byte>, aad: seq<Byte>, k: nat)
    requires Ghash.NoZeroDivisors()
    requires Aes.ValidKey(key) && Ghash.BlockInt(Subkey(key)) != 0
    requires Open(key, nonce, c, tag, aad).Ok? && Open(key, nonce, c, tag, aad).value.Some?
    requires TamperedBlock(c, c', k)
    ensures Open(key, nonce, c', tag, aad) == Ok(None)
  {
    hide Tag, Ghash.NoZeroDivisors, TamperedBlock, Ctr, Inc32, J0, Subkey, Ghash.BlockInt;
    TamperedLength(c, c', k);
    TamperedTag(key, nonce, aad, c, c', k);
  }

  lemma TamperedTag(key: seq<Byte>, nonce: Nonce, aad: seq<Byte>, c: seq<Byte>, c': seq<Byte>, k: nat)
    requires Ghash.NoZeroDivisors()
    requires Aes.ValidKey(key) && Ghash.BlockInt(Subkey(key)) != 0
    requires |aad| < LEN_LIMIT && |c| < LEN_LIMIT && |c'| < LEN_LIMIT
    requires TamperedBlock(c, c', k)
    ensures Tag(key, nonce, aad, c) != Tag(key, nonce, aad, c')
  {
    hide TamperedBlock, GhashInput, Ghash.Hash, Ghash.DifferAtBlock, Ghash.BlockInt, Tag, Subkey, Padded,
         Ghash.NoZeroDivisors;
    TamperedInput(aad, c, c', k);
    Ghash.OneBlockChangesHash(Subkey(key), GhashInput(aad, c), GhashInput(aad, c'), |Padded(aad)| / 16 + k);
    if Tag(key, nonce, aad, c) == Tag(key, nonce, aad, c') {
      TagDetermines(key, nonce, aad, c, c');
    }
  }

  lemma TagDetermines(key: seq<Byte>, nonce: Nonce, aad: seq<Byte>, c: seq<Byte>, c': seq<Byte>)
    requires Aes.ValidKey(key) && |aad| < LEN_LIMIT && |c| < LEN_LIMIT && |c'| < LEN_LIMIT
    requires Tag(key, nonce, aad, c) == Tag(key, nonce, aad, c')
    ensures Ghash.Hash(Subkey(key), GhashInput(aad, c)) == Ghash.Hash(Subkey(key), GhashInput(aad, c'))
  {
    hide GhashInput, Ghash.Hash, XorBytes, J0, Subkey, Aes.Encrypt;
    var mask := Aes.Encrypt(key, J0(nonce));
    XorBytesCancel(Ghash.Hash(Subkey(key), GhashInput(aad, c)), mask);
    XorBytesCancel(Ghash.Hash(Subkey(key), GhashInput(aad, c')), mask);
  }
}
