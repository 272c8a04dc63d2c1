/** The bytes of crypto/aes.py as polynomials over GF(2): `_gmul` multiplies them modulo
    x^8 + x^4 + x^3 + x + 1 (section 4.2 of FIPS 197). */
module AesField {
  import opened Aes
  import opened Bits
  import opened Polynomials
  import AesPermutation

  /** x^8 + x^4 + x^3 + x + 1. */
  const BYTE_MODULUS: Poly := seq(9, i => i == 0 || i == 1 || i == 3 || i == 4 || i == 8)

  /** The polynomial a byte stands for: its lowest bit is the constant term. */
  function ByteCoeffs(b: Byte): (p: Poly)
    ensures |p| == 8
  {
    seq(8, i requires 0 <= i < 8 => Bit(b, i))
  }

  /** The remainder modulo BYTE_MODULUS, by Horner's rule. */
  function ByteReduce(p: Poly): Byte {
    if p == [] then 0
    else XorByte(if p[0] then 1 else 0, XTime(ByteReduce(p[1..])))
  }

  function ByteQuotient(p: Poly): Poly {
    if p == [] then [] else [Bit(ByteReduce(p[1..]), 7)] + ByteQuotient(p[1..])
  }

  // ---- Bits of the constants -----------------------------------------------

  lemma BitsOfModulus(j: nat)
    ensures Bit(0x1B, j) == (j == 0 || j == 1 || j == 3 || j == 4)
  {
    if j > 4 {
      assert Pow2(5) == 32;
      BitHigh(0x1B, 5, j);
    } else {
      assert Bit(0x1B, 0) && Bit(0x1B, 1) == Bit(13, 0) && Bit(0x1B, 2) == Bit(13, 1) && Bit(13, 1) == Bit(6, 0);
      assert Bit(0x1B, 3) == Bit(13, 2) && Bit(13, 2) == Bit(6, 1) && Bit(6, 1) == Bit(3, 0);
      assert Bit(0x1B, 4) == Bit(13, 3) && Bit(13, 3) == Bit(6, 2) && Bit(6, 2) == Bit(3, 1) && Bit(3, 1) == Bit(1, 0);
    }
  }

  lemma BitOfUnit(j: nat)
    ensures Bit(1, j) == (j == 0)
  {
    if j > 0 {
      BitHigh(1, 1, j);
    }
  }

  lemma ByteHigh(b: Byte, j: nat)
    requires j >= 8
    ensures !Bit(b, j)
  {
    assert Pow2(8) == 256;
    BitHigh(b, 8, j);
  }

  // ---- Reduction keeps sums and products ---------------------------------------

  lemma {:induction false} ByteReduceAdd(p: Poly, q: Poly)
    ensures ByteReduce(PolyAdd(p, q)) == XorByte(ByteReduce(p), ByteReduce(q))
    decreases |p|
  {
    var s := PolyAdd(p, q);
    if p == [] {
      XorComm(0, ByteReduce(q));
      XorZero(ByteReduce(q));
      assert s == q by {
        assert forall i :: 0 <= i < |s| ==> s[i] == Coef(s, i) && q[i] == Coef(q, i);
      }
    } else if q == [] {
      XorZero(ByteReduce(p));
      assert s == p by {
        assert forall i :: 0 <= i < |s| ==> s[i] == Coef(s, i) && p[i] == Coef(p, i);
      }
    } else {
      assert s[1..] == PolyAdd(p[1..], q[1..]);
      hide XTime, Xor;
      var a: Byte, b: Byte := if p[0] then 1 else 0, if q[0] then 1 else 0;
      ByteReduceAdd(p[1..], q[1..]);
      AesPermutation.XTimeXor(ByteReduce(p[1..]), ByteReduce(q[1..]));
      XorSwap(a, XTime(ByteReduce(p[1..])), b, XTime(ByteReduce(q[1..])));
      Units();
      assert s[0] == (p[0] != q[0]);
    }
  }

  lemma Units()
    ensures Xor(1, 1) == 0 && Xor(0, 0) == 0 && Xor(1, 0) == 1 && Xor(0, 1) == 1
  {
  }

  lemma ByteReduceShift(p: Poly)
    ensures ByteReduce(Shift(p)) == XTime(ByteReduce(p))
  {
    assert Shift(p)[1..] == p;
    XorComm(0, XTime(ByteReduce(p)));
    XorZero(XTime(ByteReduce(p)));
  }

  lemma XTimeZero()
    ensures XTime(0) == 0
  {
  }

  /** Multiplying the first factor by x multiplies the product by x. */
  lemma {:induction false} GMulXTime(a: Byte, b: Byte, n: nat)
    ensures GMulFrom(XTime(a), b, n) == XTime(GMulFrom(a, b, n))
    decreases n
  {
    XTimeZero();
    hide XTime, Xor;
    if n > 0 {
      GMulXTime(XTime(a), b / 2, n - 1);
      AesPermutation.XTimeXor(if b % 2 == 1 then a else 0, GMulFrom(XTime(a), b / 2, n - 1));
    }
  }

  /** The n lowest coefficients. */
  function LowBits(b: Byte, n: nat): Poly {
    if n == 0 then [] else [b % 2 == 1] + LowBits(b / 2, n - 1)
  }

  lemma {:induction false} GMulFromIsProduct(p: Poly, b: Byte, n: nat)
    ensures GMulFrom(ByteReduce(p), b, n) == ByteReduce(PolyMul(LowBits(b, n), p))
    decreases n
  {
    hide XTime, Xor;
    if n > 0 {
      var rest := PolyMul(LowBits(b / 2, n - 1), p);
      assert LowBits(b, n)[1..] == LowBits(b / 2, n - 1);
      GMulFromIsProduct(p, b / 2, n - 1);
      GMulXTime(ByteReduce(p), b / 2, n - 1);
      ByteReduceShift(rest);
      ByteReduceAdd(if b % 2 == 1 then p else [], Shift(rest));
    }
  }

  lemma LowBitsAreCoeffs(b: Byte)
    ensures LowBits(b, 8) == ByteCoeffs(b)
  {
    hide LowBits, Bit;
    LowBitsAt(b, 8, 0);
    forall i | 0 <= i < 8 ensures LowBits(b, 8)[i] == Bit(b, i) {
      LowBitsAt(b, 8, i);
    }
  }

  lemma {:induction false} LowBitsAt(b: Byte, n: nat, i: nat)
    requires i < n
    ensures |LowBits(b, n)| == n && LowBits(b, n)[i] == Bit(b, i)
  {
    if i > 0 {
      LowBitsAt(b / 2, n - 1, i - 1);
    } else if n > 1 {
      LowBitsAt(b / 2, n - 1, 0);
    }
  }

  // ---- Reduction is the remainder ------------------------------------------------

  /** Polynomials of degree below 8 are their own remainder. */
  lemma {:induction false} ByteReduceShort(p: Poly, j: nat)
    requires |p| <= 8
    ensures Bit(ByteReduce(p), j) == Coef(p, j)
    decreases |p|
  {
    if p == [] {
      BitOfZero(j);
    } else {
      var t := ByteReduce(p[1..]);
      hide Bit, XTime, Xor;
      ByteReduceShort(p[1..], 7);
      AesPermutation.XTimeBit(t, j);
      XorBit(if p[0] then 1 else 0, XTime(t), j);
      BitOfZero(j);
      BitOfUnit(j);
      if j > 0 {
        ByteReduceShort(p[1..], j - 1);
      }
    }
  }

  lemma ByteReduceCoeffs(b: Byte)
    ensures ByteReduce(ByteCoeffs(b)) == b
  {
    var r := ByteReduce(ByteCoeffs(b));
    forall j: nat ensures Bit(r, j) == Bit(b, j) {
      ByteReduceShort(ByteCoeffs(b), j);
      if j >= 8 {
        ByteHigh(b, j);
      }
    }
    BitsExtensional(r, b);
  }

  /** Every polynomial is a multiple of BYTE_MODULUS plus its reduction. */
  lemma ByteReduceIsRemainder(p: Poly)
    ensures Same(p, PolyAdd(PolyMul(ByteQuotient(p), BYTE_MODULUS), ByteCoeffs(ByteReduce(p))))
  {
    forall i: nat
      ensures Coef(p, i) == Coef(PolyAdd(PolyMul(ByteQuotient(p), BYTE_MODULUS), ByteCoeffs(ByteReduce(p))), i)
    {
      ByteRemainderCoef(p, i);
    }
  }

  lemma ByteCoeffsBit(b: Byte, i: nat)
    ensures Coef(ByteCoeffs(b), i) == (i < 8 && Bit(b, i))
  {
  }

  lemma {:induction false} ByteRemainderCoef(p: Poly, i: nat)
    ensures Coef(p, i) == (Coef(PolyMul(ByteQuotient(p), BYTE_MODULUS), i) != Coef(ByteCoeffs(ByteReduce(p)), i))
    decreases |p|
  {
    hide Bit, XTime, Xor;
    ByteCoeffsBit(ByteReduce(p), i);
    if p == [] {
      BitOfZero(i);
    } else {
      var t, q := ByteReduce(p[1..]), ByteQuotient(p[1..]);
      assert ByteQuotient(p)[1..] == q && ByteQuotient(p)[0] == Bit(t, 7);
      ShiftCoef(PolyMul(q, BYTE_MODULUS), i);
      if i > 0 {
        ByteRemainderCoef(p[1..], i - 1);
        ByteCoeffsBit(t, i - 1);
      }
      AesPermutation.XTimeBit(t, i);
      XorBit(if p[0] then 1 else 0, XTime(t), i);
      BitOfZero(i);
      BitOfUnit(i);
      BitsOfModulus(i);
    }
  }

  // ---- The specification of the multiplication ---------------------------------------

  /** Multiplying bytes is multiplying their polynomials modulo BYTE_MODULUS. */
  lemma GMulIsPolynomialProduct(a: Byte, b: Byte)
    ensures GMul(a, b) == ByteReduce(PolyMul(ByteCoeffs(b), ByteCoeffs(a)))
    ensures exists q: Poly ::
      Same(PolyMul(ByteCoeffs(b), ByteCoeffs(a)), PolyAdd(PolyMul(q, BYTE_MODULUS), ByteCoeffs(GMul(a, b))))
  {
    hide ByteReduce, GMulFrom, PolyMul;
    GMulFromIsProduct(ByteCoeffs(a), b, 8);
    ByteReduceCoeffs(a);
    LowBitsAreCoeffs(b);
    ByteReduceIsRemainder(PolyMul(ByteCoeffs(b), ByteCoeffs(a)));
  }
}
