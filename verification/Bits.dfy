/** Python integers as the program uses them: bytes, shifts, bitwise operators and
    big-endian encodings, all over unbounded naturals. */
module Bits {

  type Byte = x: int | 0 <= x < 256

  function Pow2(n: nat): (r: nat)
    ensures r >= 1
  {
    if n == 0 then 1 else 2 * Pow2(n - 1)
  }

  /** Python `a ^ b` on non-negative integers. */
  function Xor(a: nat, b: nat): nat
    decreases a + b
  {
    if a == 0 && b == 0 then 0 else 2 * Xor(a / 2, b / 2) + (a + b) % 2
  }

  /** Python `a | b` on non-negative integers. */
  function Or(a: nat, b: nat): nat
    decreases a + b
  {
    if a == 0 && b == 0 then 0
    else 2 * Or(a / 2, b / 2) + (if a % 2 == 0 && b % 2 == 0 then 0 else 1)
  }

  /** Python `a & b` on non-negative integers. */
  function And(a: nat, b: nat): nat
    decreases a
  {
    if a == 0 then 0 else 2 * And(a / 2, b / 2) + (if a % 2 == 1 && b % 2 == 1 then 1 else 0)
  }

  /** Python `a >> n`. */
  function Shr(a: nat, n: nat): nat {
    DivNonNegative(a, Pow2(n));
    a / Pow2(n)
  }

  /** Whether bit `n` of `a` is set, by peeling bits off the low end. */
  predicate Bit(a: nat, n: nat) {
    if n == 0 then a % 2 == 1 else Bit(a / 2, n - 1)
  }

  lemma DivNonNegative(a: int, m: int)
    requires a >= 0 && m > 0
    ensures a / m >= 0
  {
    if a / m <= -1 {
      MulAtLeast(m, a / m);
    }
  }

  // ---- Shifts ----------------------------------------------------------

  lemma {:induction false} Pow2Add(m: nat, n: nat)
    ensures Pow2(m + n) == Pow2(m) * Pow2(n)
  {
    if m > 0 {
      Pow2Add(m - 1, n);
      assert 2 * (Pow2(m - 1) * Pow2(n)) == (2 * Pow2(m - 1)) * Pow2(n);
    }
  }

  lemma MulAtLeast(m: int, k: int)
    requires m > 0
    ensures k >= 1 ==> m * k >= m
    ensures k <= -1 ==> m * k <= -m
  {
    if k >= 1 {
      assert m * k == m * (k - 1) + m && m * (k - 1) >= 0;
    } else if k <= -1 {
      assert m * k == m * (k + 1) - m && m * (k + 1) <= 0;
    }
  }

  lemma DivUnique(a: int, m: int, q: int, r: int)
    requires m > 0 && a == m * q + r && 0 <= r < m
    ensures a / m == q && a % m == r
  {
    var q', r' := a / m, a % m;
    assert m * (q - q') == r' - r;
    MulAtLeast(m, q - q');
  }

  lemma TwiceMul(n: int, q: int)
    ensures (2 * n) * q == 2 * (n * q)
  {
  }

  lemma HalfThenDiv(a: nat, n: nat)
    requires n > 0
    ensures (a / 2) / n == a / (2 * n)
  {
    var q, r := (a / 2) / n, (a / 2) % n;
    TwiceMul(n, q);
    DivUnique(a, 2 * n, q, 2 * r + a % 2);
  }

  lemma ModHalf(x: nat, m: nat)
    requires m > 0
    ensures x % (2 * m) == 2 * ((x / 2) % m) + x % 2
  {
    var q, r := (x / 2) / m, (x / 2) % m;
    TwiceMul(m, q);
    DivUnique(x, 2 * m, q, 2 * r + x % 2);
  }

  /** `(a >> n) & 1` reads bit `n`. */
  lemma {:induction false} BitIsShift(a: nat, n: nat)
    ensures Bit(a, n) == (Shr(a, n) % 2 == 1)
  {
    if n > 0 {
      BitIsShift(a / 2, n - 1);
      HalfThenDiv(a, Pow2(n - 1));
    }
  }

  // ---- Bitwise reasoning -----------------------------------------------

  lemma XorUnfold(a: nat, b: nat)
    ensures Xor(a, b) == 2 * Xor(a / 2, b / 2) + (a + b) % 2
  {
    if a == 0 && b == 0 {
      XorZero(0);
    }
  }

  lemma XorHalf(a: nat, b: nat)
    ensures Xor(a, b) / 2 == Xor(a / 2, b / 2)
    ensures (Xor(a, b) % 2 == 1) == ((a % 2 == 1) != (b % 2 == 1))
  {
    XorUnfold(a, b);
    hide Xor;
  }

  lemma {:induction false} XorBit(a: nat, b: nat, n: nat)
    ensures Bit(Xor(a, b), n) == (Bit(a, n) != Bit(b, n))
  {
    hide Xor;
    XorHalf(a, b);
    if n > 0 {
      XorBit(a / 2, b / 2, n - 1);
    }
  }

  lemma XorBits()
    ensures forall a: nat, b: nat, n: nat :: Bit(Xor(a, b), n) == (Bit(a, n) != Bit(b, n))
  {
    forall a: nat, b: nat, n: nat ensures Bit(Xor(a, b), n) == (Bit(a, n) != Bit(b, n)) {
      XorBit(a, b, n);
    }
  }

  lemma {:induction false} BitMod(x: nat, n: nat, j: nat)
    ensures Bit(x % Pow2(n), j) == (j < n && Bit(x, j))
  {
    if n == 0 {
      BitOfZero(j);
    } else {
      var m := x % Pow2(n);
      ModHalf(x, Pow2(n - 1));
      assert m / 2 == (x / 2) % Pow2(n - 1) && m % 2 == x % 2;
      hide Pow2;
      if j > 0 {
        BitMod(x / 2, n - 1, j - 1);
      }
    }
  }

  lemma {:induction false} BitOfZero(j: nat)
    ensures !Bit(0, j)
  {
    if j > 0 {
      BitOfZero(j - 1);
    }
  }

  ghost predicate SameBits(a: nat, b: nat) {
    forall n: nat :: Bit(a, n) == Bit(b, n)
  }

  /** Two integers with the same bits are equal. */
  lemma {:induction false} BitsExtensional(a: nat, b: nat)
    requires SameBits(a, b)
    ensures a == b
    decreases a + b
  {
    if a != 0 || b != 0 {
      assert Bit(a, 0) == Bit(b, 0);
      forall n: nat ensures Bit(a / 2, n) == Bit(b / 2, n) {
        assert Bit(a, n + 1) == Bit(b, n + 1);
      }
      BitsExtensional(a / 2, b / 2);
    }
  }

  // ---- Exclusive-or is an abelian group of exponent two -----------------

  lemma {:induction false} XorZero(a: nat)
    ensures Xor(a, 0) == a && Xor(0, a) == a
  {
    if a > 0 {
      XorZero(a / 2);
    }
  }

  lemma {:induction false} XorSelf(a: nat)
    ensures Xor(a, a) == 0
  {
    if a > 0 {
      XorSelf(a / 2);
    }
  }

  lemma {:induction false} XorComm(a: nat, b: nat)
    ensures Xor(a, b) == Xor(b, a)
    decreases a + b
  {
    if a + b > 0 {
      XorComm(a / 2, b / 2);
    }
  }

  lemma XorAssoc(a: nat, b: nat, c: nat)
    ensures Xor(Xor(a, b), c) == Xor(a, Xor(b, c))
  {
    XorBits();
    BitsExtensional(Xor(Xor(a, b), c), Xor(a, Xor(b, c)));
  }

  /** Rearranges a sum of four terms. */
  lemma XorSwap(a: nat, b: nat, c: nat, d: nat)
    ensures Xor(Xor(a, b), Xor(c, d)) == Xor(Xor(a, c), Xor(b, d))
  {
    XorBits();
    BitsExtensional(Xor(Xor(a, b), Xor(c, d)), Xor(Xor(a, c), Xor(b, d)));
  }

  /** Adding the same term twice changes nothing. */
  lemma XorCancel(a: nat, b: nat)
    ensures Xor(Xor(a, b), b) == a
  {
    XorAssoc(a, b, b);
    XorSelf(b);
    XorZero(a);
  }

  lemma XorIsZero(a: nat, b: nat)
    ensures Xor(a, b) == 0 <==> a == b
  {
    XorSelf(a);
    XorCancel(a, b);
    XorZero(b);
  }

  lemma {:induction false} XorBound(a: nat, b: nat, n: nat)
    requires a < Pow2(n) && b < Pow2(n)
    ensures Xor(a, b) < Pow2(n)
  {
    if n > 0 {
      XorBound(a / 2, b / 2, n - 1);
    }
  }

  /** Python `a << n`. */
  function Shl(a: nat, n: nat): nat {
    if n == 0 then a else 2 * Shl(a, n - 1)
  }

  /** Exclusive-or acts on the high and low parts of a number separately. */
  lemma {:induction false} XorSplit(k: nat, a: nat, b: nat, x: nat, y: nat)
    requires x < Pow2(k) && y < Pow2(k)
    ensures Xor(Shl(a, k) + x, Shl(b, k) + y) == Shl(Xor(a, b), k) + Xor(x, y)
    decreases k
  {
    hide Xor;
    if k == 0 {
      XorZero(0);
    } else {
      XorSplit(k - 1, a, b, x / 2, y / 2);
      var p, q := Shl(a, k) + x, Shl(b, k) + y;
      ShlAddHalf(a, k, x);
      ShlAddHalf(b, k, y);
      XorUnfold(p, q);
      XorUnfold(x, y);
    }
  }

  lemma ShlByte(a: nat)
    ensures Shl(a, 8) == 256 * a && Pow2(8) == 256
  {
    assert Shl(a, 8) == 16 * Shl(a, 4) by {
      assert Shl(a, 8) == 4 * Shl(a, 6) && Shl(a, 6) == 4 * Shl(a, 4);
    }
    assert Shl(a, 4) == 4 * Shl(a, 2) && Shl(a, 2) == 4 * Shl(a, 0);
  }

  lemma XorAppendByte(a: nat, b: nat, x: Byte, y: Byte)
    ensures Xor(256 * a + x, 256 * b + y) == 256 * Xor(a, b) + Xor(x, y)
  {
    hide Xor;
    ShlByte(a);
    ShlByte(b);
    ShlByte(Xor(a, b));
    XorSplit(8, a, b, x, y);
  }

  lemma ShlAddHalf(a: nat, k: nat, x: nat)
    requires k > 0
    ensures (Shl(a, k) + x) / 2 == Shl(a, k - 1) + x / 2 && (Shl(a, k) + x) % 2 == x % 2
  {
  }

  lemma {:induction false} OrIsZero(a: nat, b: nat)
    ensures Or(a, b) == 0 <==> a == 0 && b == 0
    decreases a + b
  {
    if a + b > 0 {
      OrIsZero(a / 2, b / 2);
    }
  }

  // ---- Byte strings ----------------------------------------------------

  function XorByte(a: Byte, b: Byte): (r: Byte) {
    XorBound(a, b, 8);
    Xor(a, b)
  }

  /** `bytes(x ^ y for x, y in zip(a, b))`: as long as the shorter operand. */
  function XorBytes(a: seq<Byte>, b: seq<Byte>): (r: seq<Byte>)
    ensures |r| == if |a| <= |b| then |a| else |b|
    ensures forall i :: 0 <= i < |r| ==> r[i] == XorByte(a[i], b[i])
  {
    seq(if |a| <= |b| then |a| else |b|,
        i requires 0 <= i < |a| && 0 <= i < |b| => XorByte(a[i], b[i]))
  }

  /** Masking twice with the same key stream restores the data. */
  lemma XorBytesCancel(a: seq<Byte>, k: seq<Byte>)
    requires |a| <= |k|
    ensures XorBytes(XorBytes(a, k), k) == a
  {
    forall i | 0 <= i < |a| ensures XorBytes(XorBytes(a, k), k)[i] == a[i] {
      XorCancel(a[i], k[i]);
    }
  }

  function Zeros(n: nat): (r: seq<Byte>)
    ensures |r| == n && forall i :: 0 <= i < n ==> r[i] == 0
  {
    seq(n, _ => 0)
  }

  /** Sixteen bytes: the block of AES and of GCM. */
  type Block = s: seq<Byte> | |s| == 16 witness Zeros(16)

  // ---- Big-endian integers ---------------------------------------------

  /** Number of values an n-byte field can hold. */
  function Pow256(n: nat): (r: nat)
    ensures r >= 1
  {
    if n == 0 then 1 else 256 * Pow256(n - 1)
  }

  /** `x.to_bytes(n, "big")`; Python raises OverflowError outside the precondition. */
  function ToBE(x: nat, n: nat): (s: seq<Byte>)
    requires x < Pow256(n)
    ensures |s| == n
  {
    if n == 0 then [] else ToBE(x / 256, n - 1) + [x % 256]
  }

  /** `int.from_bytes(s, "big")`. */
  function FromBE(s: seq<Byte>): (x: nat)
    ensures x < Pow256(|s|)
  {
    if s == [] then 0 else 256 * FromBE(s[..|s| - 1]) + s[|s| - 1]
  }

  lemma {:induction false} FromToBE(x: nat, n: nat)
    requires x < Pow256(n)
    ensures FromBE(ToBE(x, n)) == x
  {
    if n > 0 {
      FromToBE(x / 256, n - 1);
      assert ToBE(x, n)[..n - 1] == ToBE(x / 256, n - 1);
    }
  }

  /** The first byte is the most significant one. */
  lemma {:induction false} FirstByte(s: seq<Byte>)
    requires s != []
    ensures FromBE(s) == s[0] * Pow256(|s| - 1) + FromBE(s[1..])
  {
    var n := |s| - 1;
    if n > 0 {
      FirstByte(s[..n]);
      assert s[..n][1..] == s[1..][..n - 1];
      var lead := s[0] * Pow256(n - 1);
      assert s[0] * (256 * Pow256(n - 1)) == 256 * lead;
    }
  }

  lemma BEStep(x: nat, b: Byte)
    ensures (256 * x + b) / 256 == x && (256 * x + b) % 256 == b
  {
  }

  lemma {:induction false} ToFromBE(s: seq<Byte>)
    ensures ToBE(FromBE(s), |s|) == s
  {
    if s != [] {
      ToFromBE(s[..|s| - 1]);
      BEStep(FromBE(s[..|s| - 1]), s[|s| - 1]);
      assert s == s[..|s| - 1] + [s[|s| - 1]];
    }
  }

  const TWO16: int := 0x1_0000
  const TWO32: int := 0x1_00000000
  const TWO64: int := 0x1_00000000_00000000

  lemma Pow256Fields()
    ensures Pow256(2) == TWO16 && Pow256(4) == TWO32 && Pow256(8) == TWO64
  {
    assert Pow256(4) == 0x10000 * Pow256(2);
    assert Pow256(6) == 0x10000 * Pow256(4) && Pow256(8) == 0x10000 * Pow256(6);
  }

  // Fixed-width fields.

  function ToBE2(x: nat): (r: seq<Byte>)
    requires x < TWO16
    ensures |r| == 2
  {
    Pow256Fields();
    ToBE(x, 2)
  }

  function ToBE4(x: nat): (r: seq<Byte>)
    requires x < TWO32
    ensures |r| == 4
  {
    Pow256Fields();
    ToBE(x, 4)
  }

  function ToBE8(x: nat): (r: seq<Byte>)
    requires x < TWO64
    ensures |r| == 8
  {
    Pow256Fields();
    ToBE(x, 8)
  }

  lemma FromToBE2(x: nat)
    requires x < TWO16
    ensures FromBE(ToBE2(x)) == x
  {
    Pow256Fields();
    FromToBE(x, 2);
  }

  lemma FromToBE4(x: nat)
    requires x < TWO32
    ensures FromBE(ToBE4(x)) == x
  {
    Pow256Fields();
    FromToBE(x, 4);
  }

  lemma FromToBE8(x: nat)
    requires x < TWO64
    ensures FromBE(ToBE8(x)) == x
  {
    Pow256Fields();
    FromToBE(x, 8);
  }

  lemma ToFromField(b: seq<Byte>)
    ensures |b| == 2 ==> FromBE(b) < TWO16 && ToBE2(FromBE(b)) == b
    ensures |b| == 4 ==> FromBE(b) < TWO32 && ToBE4(FromBE(b)) == b
    ensures |b| == 8 ==> FromBE(b) < TWO64 && ToBE8(FromBE(b)) == b
  {
    Pow256Fields();
    ToFromBE(b);
  }

  lemma {:induction false} Pow256IsPow2(n: nat)
    ensures Pow256(n) == Pow2(8 * n)
  {
    if n > 0 {
      Pow256IsPow2(n - 1);
      Pow2Add(8, 8 * (n - 1));
      assert Pow2(8) == 256;
    }
  }

  lemma Pow2Square(n: nat, v: nat)
    requires Pow2(n) == v
    ensures Pow2(n + n) == v * v
  {
    Pow2Add(n, n);
  }

  lemma Pow256Of32()
    ensures Pow256(32) == 0x1_00000000_00000000_00000000_00000000_00000000_00000000_00000000_00000000
  {
    ShlByte(0);
    hide Pow256;
    Pow2Square(8, 0x100);
    Pow2Square(16, 0x10000);
    Pow2Square(32, TWO32);
    Pow2Square(64, TWO64);
    Pow2Square(128, 0x1_00000000_00000000_00000000_00000000);
    Pow256IsPow2(32);
  }

  /** Exclusive-or of byte strings is exclusive-or of the integers they encode. */
  lemma {:induction false} FromBEXor(a: seq<Byte>, b: seq<Byte>)
    requires |a| == |b|
    ensures FromBE(XorBytes(a, b)) == Xor(FromBE(a), FromBE(b))
  {
    if a != [] {
      hide Xor;
      var n := |a| - 1;
      FromBEXor(a[..n], b[..n]);
      assert XorBytes(a, b)[..n] == XorBytes(a[..n], b[..n]);
      XorAppendByte( FromBE(a[..n]), FromBE(b[..n]), a[n], b[n]);
    }
  }
}
