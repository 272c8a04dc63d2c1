/** crypto/aes.py against the text of FIPS 197: the substitution table is inversion followed by an
    affine map, and the key schedule and the rounds are given byte by byte. */
module AesStandard {
  import opened Aes
  import opened Bits
  import opened SBoxes
  import AesField
  import AesPermutation

  // ---- Bytes as bit vectors, on which the table is worked out ---------------

  function Twice(x: bv8): bv8 {
    (x << 1) ^ (if x & 0x80 != 0 then 0x1B else 0)
  }

  function TimesFrom(x: bv8, y: bv8, n: nat): bv8
    decreases n
  {
    if n == 0 then 0 else Sum(Scaled(y, x), TimesFrom(Twice(x), y >> 1, n - 1))
  }

  function Sum(x: bv8, y: bv8): bv8 {
    x ^ y
  }

  function Scaled(y: bv8, x: bv8): bv8 {
    if y & 1 != 0 then x else 0
  }

  /** The product of two bytes, with the eight passes written out. */
  function Times(x: bv8, y: bv8): bv8 {
    var x1 := Twice(x);
    var x2 := Twice(x1);
    var x3 := Twice(x2);
    var x4 := Twice(x3);
    var x5 := Twice(x4);
    var x6 := Twice(x5);
    Sum(Scaled(y, x), Sum(Scaled(y >> 1, x1), Sum(Scaled(y >> 2, x2), Sum(Scaled(y >> 3, x3),
      Sum(Scaled(y >> 4, x4), Sum(Scaled(y >> 5, x5), Sum(Scaled(y >> 6, x6), Sum(Scaled(y >> 7, Twice(x6)), 0))))))))
  }

  /** The affine map of section 5.1.1. */
  function Affine(y: bv8): bv8 {
    y ^ (y << 1) ^ (y << 2) ^ (y << 3) ^ (y << 4) ^ (y >> 4) ^ (y >> 5) ^ (y >> 6) ^ (y >> 7) ^ 0x63
  }

  /** Whether bit i is set. */
  predicate At(x: bv8, i: nat)
    requires i < 8
  {
    if i == 0 then x & 1 != 0 else if i == 1 then x & 2 != 0
    else if i == 2 then x & 4 != 0 else if i == 3 then x & 8 != 0
    else if i == 4 then x & 16 != 0 else if i == 5 then x & 32 != 0
    else if i == 6 then x & 64 != 0 else x & 128 != 0
  }

  lemma {:induction false} BitOf(x: bv8, i: nat)
    requires i < 8
    ensures Bit(x as int, i) == At(x, i)
  {
    assert (x >> 1) as int == x as int / 2;
    if i > 0 {
      BitOf(x >> 1, i - 1);
    }
  }

  /** A byte and a bit vector with the same eight bits are the same number. */
  lemma SameByte(b: Byte, x: bv8)
    requires forall i :: 0 <= i < 8 ==> Bit(b, i) == At(x, i)
    ensures b == x as int
  {
    hide Bit, At;
    forall j: nat ensures Bit(b, j) == Bit(x as int, j) {
      if j < 8 {
        BitOf(x, j);
      } else {
        AesField.ByteHigh(b, j);
        AesField.ByteHigh(x as int, j);
      }
    }
    BitsExtensional(b, x as int);
  }

  lemma AtXor(x: bv8, y: bv8, i: nat)
    requires i < 8
    ensures At(Sum(x, y), i) == (At(x, i) != At(y, i))
  {
    if i == 0 {
    } else if i == 1 {
    } else if i == 2 {
    } else if i == 3 {
    } else if i == 4 {
    } else if i == 5 {
    } else if i == 6 {
    } else {
    }
  }

  lemma AtTwice(x: bv8, i: nat)
    requires i < 8
    ensures At(Twice(x), i)
         == ((i > 0 && At(x, i - 1)) != (At(x, 7) && (i == 0 || i == 1 || i == 3 || i == 4)))
  {
  }

  lemma XorOf(x: bv8, y: bv8)
    ensures XorByte(x as int, y as int) == Sum(x, y) as int
  {
    hide Bit, At, Xor, Sum, Pow2;
    var a: Byte, b: Byte := x as int, y as int;
    var r := XorByte(a, b);
    forall i | 0 <= i < 8 ensures Bit(r, i) == At(Sum(x, y), i) {
      XorBit(a, b, i);
      BitOf(x, i);
      BitOf(y, i);
      AtXor(x, y, i);
    }
    SameByte(r, Sum(x, y));
  }

  lemma XTimeOf(x: bv8)
    ensures XTime(x as int) == Twice(x) as int
  {
    hide Bit, At, XTime, Twice;
    forall i | 0 <= i < 8 ensures Bit(XTime(x as int), i) == At(Twice(x), i) {
      AesPermutation.XTimeBit(x as int, i);
      AesField.BitsOfModulus(i);
      AtTwice(x, i);
      BitOf(x, 7);
      if i > 0 {
        BitOf(x, i - 1);
      }
    }
    SameByte(XTime(x as int), Twice(x));
  }

  lemma {:induction false} TimesOf(x: bv8, y: bv8, n: nat)
    ensures GMulFrom(x as int, y as int, n) == TimesFrom(x, y, n) as int
    decreases n
  {
    hide Xor, XTime, Sum;
    if n > 0 {
      XTimeOf(x);
      TimesOf(Twice(x), y >> 1, n - 1);
      XorOf(Scaled(y, x), TimesFrom(Twice(x), y >> 1, n - 1));
      assert (y >> 1) as int == y as int / 2 && (y as int % 2 == 1) == (y & 1 != 0);
    }
  }

  lemma GMulOf(x: bv8, y: bv8)
    ensures GMul(x as int, y as int) == Times(x, y) as int
  {
    hide GMulFrom, Twice, Scaled, Sum;
    TimesOf(x, y, 8);
    TimesUnrolled(x, y);
  }

  lemma TimesUnrolled(x: bv8, y: bv8)
    ensures TimesFrom(x, y, 8) == Times(x, y)
  {
    hide Twice, Scaled, Sum;
    var x2 := Twice(Twice(x));
    var x4 := Twice(Twice(x2));
    var x6 := Twice(Twice(x4));
    assert TimesFrom(x6, y >> 6, 2) == Sum(Scaled(y >> 6, x6), Sum(Scaled(y >> 7, Twice(x6)), 0));
    assert TimesFrom(x4, y >> 4, 4)
        == Sum(Scaled(y >> 4, x4), Sum(Scaled(y >> 5, Twice(x4)), TimesFrom(x6, y >> 6, 2)));
    assert TimesFrom(x2, y >> 2, 6)
        == Sum(Scaled(y >> 2, x2), Sum(Scaled(y >> 3, Twice(x2)), TimesFrom(x4, y >> 4, 4)));
  }

  lemma AtAffine(y: bv8, i: nat)
    requires i < 8
    ensures At(Affine(y), i)
         == (((((At(y, i) != At(y, (i + 4) % 8)) != At(y, (i + 5) % 8)) != At(y, (i + 6) % 8)) != At(y, (i + 7) % 8))
             != (i == 0 || i == 1 || i == 5 || i == 6))
  {
    if i == 0 {
    } else if i == 1 {
    } else if i == 2 {
    } else if i == 3 {
    } else if i == 4 {
    } else if i == 5 {
    } else if i == 6 {
    } else {
    }
  }

  // ---- The substitution table (section 5.1.1) ------------------------------

  function Image(y: bv8): Byte {
    Affine(y) as int
  }

  /** y inverts x + k, unless that is zero. */
  predicate Inverts(x: bv8, k: bv8, y: bv8) {
    x + k != 0 ==> Times(x + k, y) == 1
  }

  /** A row of the table, which begins at entry x, and the inverses of its sixteen indices. */
  predicate RowGood(row: seq<Byte>, x: bv8, c0: bv8, c1: bv8, c2: bv8, c3: bv8, c4: bv8, c5: bv8, c6: bv8, c7: bv8,
                    c8: bv8, c9: bv8, c10: bv8, c11: bv8, c12: bv8, c13: bv8, c14: bv8, c15: bv8)
  {
    && row == [Image(c0), Image(c1), Image(c2), Image(c3),
               Image(c4), Image(c5), Image(c6), Image(c7),
               Image(c8), Image(c9), Image(c10), Image(c11),
               Image(c12), Image(c13), Image(c14), Image(c15)]
    && Inverts(x, 0, c0)
    && Inverts(x, 1, c1) && Inverts(x, 2, c2) && Inverts(x, 3, c3)
    && Inverts(x, 4, c4) && Inverts(x, 5, c5) && Inverts(x, 6, c6)
    && Inverts(x, 7, c7) && Inverts(x, 8, c8) && Inverts(x, 9, c9)
    && Inverts(x, 10, c10) && Inverts(x, 11, c11) && Inverts(x, 12, c12)
    && Inverts(x, 13, c13) && Inverts(x, 14, c14) && Inverts(x, 15, c15)
  }

  /** Bit i of the entry s, for an index whose inverse is c. */
  predicate AffineBit(s: Byte, c: Byte, i: nat) {
    Bit(s, i) == (((((Bit(c, i) != Bit(c, (i + 4) % 8)) != Bit(c, (i + 5) % 8)) != Bit(c, (i + 6) % 8))
                   != Bit(c, (i + 7) % 8)) != Bit(0x63, i))
  }

  /** The entry of b is the affine image of the inverse of b. */
  ghost predicate Substituted(b: Byte) {
    exists c: Byte :: GMul(b, c) == 1 && forall i :: 0 <= i < 8 ==> AffineBit(SBox(b), c, i)
  }

  lemma BitsOfConstant(i: nat)
    requires i < 8
    ensures Bit(0x63, i) == (i == 0 || i == 1 || i == 5 || i == 6)
  {
    BitOf(0x63, i);
    hide Bit;
  }

  lemma BitIsAffine(y: bv8, i: nat)
    requires i < 8
    ensures AffineBit(Affine(y) as int, y as int, i)
  {
    hide Affine, Bit, At;
    AtAffine(y, i);
    BitsOfConstant(i);
    BitOf(Affine(y), i);
    BitOf(y, i);
    BitOf(y, (i + 4) % 8);
    BitOf(y, (i + 5) % 8);
    BitOf(y, (i + 6) % 8);
    BitOf(y, (i + 7) % 8);
  }

  lemma EntryIsAffine(b: Byte, x: bv8, y: bv8)
    requires b == x as int && SBox(b) == Affine(y) as int && Times(x, y) == 1
    ensures Substituted(b)
  {
    hide SBox, Times, Affine, GMul, AffineBit;
    var c: Byte := y as int;
    GMulOf(x, y);
    forall i | 0 <= i < 8 ensures AffineBit(SBox(b), c, i) {
      BitIsAffine(y, i);
    }
  }

  lemma AddOf(x: bv8, k: bv8)
    requires x & 15 == 0 && k < 16
    ensures (x + k) as int == x as int + k as int
  {
  }

  predicate StartsRow(x: bv8, b: Byte) {
    x & 15 == 0 && x as int == b / 16 * 16
  }

  lemma EntryAt(b: Byte, x: bv8, k: bv8, y: bv8)
    requires StartsRow(x, b)
    ensures b != 0 && b % 16 == k as int && SBox(b) == Image(y) && Inverts(x, k, y) ==> Substituted(b)
  {
    hide SBox, Times, Affine, Substituted;
    if b != 0 && b % 16 == k as int && SBox(b) == Image(y) && Inverts(x, k, y) {
      AddOf(x, k);
      EntryIsAffine(b, x + k, y);
    }
  }

  lemma RowStartsWith(row: seq<Byte>, x: bv8, c0: bv8, c1: bv8, c2: bv8, c3: bv8, c4: bv8, c5: bv8, c6: bv8,
              c7: bv8, c8: bv8, c9: bv8, c10: bv8, c11: bv8, c12: bv8, c13: bv8, c14: bv8, c15: bv8)
    requires |row| == 16 && RowGood(row, x, c0, c1, c2, c3, c4, c5, c6, c7, c8, c9, c10, c11, c12, c13, c14, c15)
    ensures row[0] == Image(c0) && row[1] == Image(c1) && row[2] == Image(c2) && row[3] == Image(c3)
    ensures row[4] == Image(c4) && row[5] == Image(c5) && row[6] == Image(c6) && row[7] == Image(c7)
  {
    hide Image, Inverts;
  }

  lemma RowEndsWith(row: seq<Byte>, x: bv8, c0: bv8, c1: bv8, c2: bv8, c3: bv8, c4: bv8, c5: bv8, c6: bv8,
              c7: bv8, c8: bv8, c9: bv8, c10: bv8, c11: bv8, c12: bv8, c13: bv8, c14: bv8, c15: bv8)
    requires |row| == 16 && RowGood(row, x, c0, c1, c2, c3, c4, c5, c6, c7, c8, c9, c10, c11, c12, c13, c14, c15)
    ensures row[8] == Image(c8) && row[9] == Image(c9) && row[10] == Image(c10) && row[11] == Image(c11)
    ensures row[12] == Image(c12) && row[13] == Image(c13) && row[14] == Image(c14) && row[15] == Image(c15)
  {
    hide Image, Inverts;
  }

  lemma RowInverts(row: seq<Byte>, x: bv8, c0: bv8, c1: bv8, c2: bv8, c3: bv8, c4: bv8, c5: bv8, c6: bv8,
              c7: bv8, c8: bv8, c9: bv8, c10: bv8, c11: bv8, c12: bv8, c13: bv8, c14: bv8, c15: bv8)
    requires RowGood(row, x, c0, c1, c2, c3, c4, c5, c6, c7, c8, c9, c10, c11, c12, c13, c14, c15)
    ensures Inverts(x, 0, c0) && Inverts(x, 1, c1) && Inverts(x, 2, c2) && Inverts(x, 3, c3)
    ensures Inverts(x, 4, c4) && Inverts(x, 5, c5) && Inverts(x, 6, c6) && Inverts(x, 7, c7)
    ensures Inverts(x, 8, c8) && Inverts(x, 9, c9) && Inverts(x, 10, c10) && Inverts(x, 11, c11)
    ensures Inverts(x, 12, c12) && Inverts(x, 13, c13) && Inverts(x, 14, c14) && Inverts(x, 15, c15)
  {
    hide Image, Inverts;
  }

  lemma EntryOfRow(b: Byte, row: seq<Byte>, x: bv8, c0: bv8, c1: bv8, c2: bv8, c3: bv8, c4: bv8, c5: bv8, c6: bv8,
                   c7: bv8, c8: bv8, c9: bv8, c10: bv8, c11: bv8, c12: bv8, c13: bv8, c14: bv8, c15: bv8)
    requires StartsRow(x, b) && |row| == 16 && SBox(b) == row[b % 16]
    requires RowGood(row, x, c0, c1, c2, c3, c4, c5, c6, c7, c8, c9, c10, c11, c12, c13, c14, c15)
    ensures b != 0 ==> Substituted(b)
  {
    hide SBox, Image, Inverts, Substituted, StartsRow, RowGood;
    RowStartsWith(row, x, c0, c1, c2, c3, c4, c5, c6, c7, c8, c9, c10, c11, c12, c13, c14, c15);
    RowEndsWith(row, x, c0, c1, c2, c3, c4, c5, c6, c7, c8, c9, c10, c11, c12, c13, c14, c15);
    RowInverts(row, x, c0, c1, c2, c3, c4, c5, c6, c7, c8, c9, c10, c11, c12, c13, c14, c15);
    EntryAt(b, x, 0, c0);
    EntryAt(b, x, 1, c1);
    EntryAt(b, x, 2, c2);
    EntryAt(b, x, 3, c3);
    EntryAt(b, x, 4, c4);
    EntryAt(b, x, 5, c5);
    EntryAt(b, x, 6, c6);
    EntryAt(b, x, 7, c7);
    EntryAt(b, x, 8, c8);
    EntryAt(b, x, 9, c9);
    EntryAt(b, x, 10, c10);
    EntryAt(b, x, 11, c11);
    EntryAt(b, x, 12, c12);
    EntryAt(b, x, 13, c13);
    EntryAt(b, x, 14, c14);
    EntryAt(b, x, 15, c15);
  }

  lemma Row0(b: Byte)
    requires b / 16 == 0
    ensures b != 0 ==> Substituted(b)
  {
    hide Substituted;
    EntryOfRow(b, SBOX[0], 0x00, 0x00, 0x01, 0x8d, 0xf6, 0xcb, 0x52, 0x7b, 0xd1,
               0xe8, 0x4f, 0x29, 0xc0, 0xb0, 0xe1, 0xe5, 0xc7);
  }

  lemma Row1(b: Byte)
    requires b / 16 == 1
    ensures b != 0 ==> Substituted(b)
  {
    hide Substituted;
    EntryOfRow(b, SBOX[1], 0x10, 0x74, 0xb4, 0xaa, 0x4b, 0x99, 0x2b, 0x60, 0x5f,
               0x58, 0x3f, 0xfd, 0xcc, 0xff, 0x40, 0xee, 0xb2);
  }

  lemma Row2(b: Byte)
    requires b / 16 == 2
    ensures b != 0 ==> Substituted(b)
  {
    hide Substituted;
    EntryOfRow(b, SBOX[2], 0x20, 0x3a, 0x6e, 0x5a, 0xf1, 0x55, 0x4d, 0xa8, 0xc9,
               0xc1, 0x0a, 0x98, 0x15, 0x30, 0x44, 0xa2, 0xc2);
  }

  lemma Row3(b: Byte)
    requires b / 16 == 3
    ensures b != 0 ==> Substituted(b)
  {
    hide Substituted;
    EntryOfRow(b, SBOX[3], 0x30, 0x2c, 0x45, 0x92, 0x6c, 0xf3, 0x39, 0x66, 0x42,
               0xf2, 0x35, 0x20, 0x6f, 0x77, 0xbb, 0x59, 0x19);
  }

  lemma Row4(b: Byte)
    requires b / 16 == 4
    ensures b != 0 ==> Substituted(b)
  {
    hide Substituted;
    EntryOfRow(b, SBOX[4], 0x40, 0x1d, 0xfe, 0x37, 0x67, 0x2d, 0x31, 0xf5, 0x69,
               0xa7, 0x64, 0xab, 0x13, 0x54, 0x25, 0xe9, 0x09);
  }

  lemma Row5(b: Byte)
    requires b / 16 == 5
    ensures b != 0 ==> Substituted(b)
  {
    hide Substituted;
    EntryOfRow(b, SBOX[5], 0x50, 0xed, 0x5c, 0x05, 0xca, 0x4c, 0x24, 0x87, 0xbf,
               0x18, 0x3e, 0x22, 0xf0, 0x51, 0xec, 0x61, 0x17);
  }

  lemma Row6(b: Byte)
    requires b / 16 == 6
    ensures b != 0 ==> Substituted(b)
  {
    hide Substituted;
    EntryOfRow(b, SBOX[6], 0x60, 0x16, 0x5e, 0xaf, 0xd3, 0x49, 0xa6, 0x36, 0x43,
               0xf4, 0x47, 0x91, 0xdf, 0x33, 0x93, 0x21, 0x3b);
  }

  lemma Row7(b: Byte)
    requires b / 16 == 7
    ensures b != 0 ==> Substituted(b)
  {
    hide Substituted;
    EntryOfRow(b, SBOX[7], 0x70, 0x79, 0xb7, 0x97, 0x85, 0x10, 0xb5, 0xba, 0x3c,
               0xb6, 0x70, 0xd0, 0x06, 0xa1, 0xfa, 0x81, 0x82);
  }

  lemma Row8(b: Byte)
    requires b / 16 == 8
    ensures b != 0 ==> Substituted(b)
  {
    hide Substituted;
    EntryOfRow(b, SBOX[8], 0x80, 0x83, 0x7e, 0x7f, 0x80, 0x96, 0x73, 0xbe, 0x56,
               0x9b, 0x9e, 0x95, 0xd9, 0xf7, 0x02, 0xb9, 0xa4);
  }

  lemma Row9(b: Byte)
    requires b / 16 == 9
    ensures b != 0 ==> Substituted(b)
  {
    hide Substituted;
    EntryOfRow(b, SBOX[9], 0x90, 0xde, 0x6a, 0x32, 0x6d, 0xd8, 0x8a, 0x84, 0x72,
               0x2a, 0x14, 0x9f, 0x88, 0xf9, 0xdc, 0x89, 0x9a);
  }

  lemma Row10(b: Byte)
    requires b / 16 == 10
    ensures b != 0 ==> Substituted(b)
  {
    hide Substituted;
    EntryOfRow(b, SBOX[10], 0xa0, 0xfb, 0x7c, 0x2e, 0xc3, 0x8f, 0xb8, 0x65, 0x48,
               0x26, 0xc8, 0x12, 0x4a, 0xce, 0xe7, 0xd2, 0x62);
  }

  lemma Row11(b: Byte)
    requires b / 16 == 11
    ensures b != 0 ==> Substituted(b)
  {
    hide Substituted;
    EntryOfRow(b, SBOX[11], 0xb0, 0x0c, 0xe0, 0x1f, 0xef, 0x11, 0x75, 0x78, 0x71,
               0xa5, 0x8e, 0x76, 0x3d, 0xbd, 0xbc, 0x86, 0x57);
  }

  lemma Row12(b: Byte)
    requires b / 16 == 12
    ensures b != 0 ==> Substituted(b)
  {
    hide Substituted;
    EntryOfRow(b, SBOX[12], 0xc0, 0x0b, 0x28, 0x2f, 0xa3, 0xda, 0xd4, 0xe4, 0x0f,
               0xa9, 0x27, 0x53, 0x04, 0x1b, 0xfc, 0xac, 0xe6);
  }

  lemma Row13(b: Byte)
    requires b / 16 == 13
    ensures b != 0 ==> Substituted(b)
  {
    hide Substituted;
    EntryOfRow(b, SBOX[13], 0xd0, 0x7a, 0x07, 0xae, 0x63, 0xc5, 0xdb, 0xe2, 0xea,
               0x94, 0x8b, 0xc4, 0xd5, 0x9d, 0xf8, 0x90, 0x6b);
  }

  lemma Row14(b: Byte)
    requires b / 16 == 14
    ensures b != 0 ==> Substituted(b)
  {
    hide Substituted;
    EntryOfRow(b, SBOX[14], 0xe0, 0xb1, 0x0d, 0xd6, 0xeb, 0xc6, 0x0e, 0xcf, 0xad,
               0x08, 0x4e, 0xd7, 0xe3, 0x5d, 0x50, 0x1e, 0xb3);
  }

  lemma Row15(b: Byte)
    requires b / 16 == 15
    ensures b != 0 ==> Substituted(b)
  {
    hide Substituted;
    EntryOfRow(b, SBOX[15], 0xf0, 0x5b, 0x23, 0x38, 0x34, 0x68, 0x46, 0x03, 0x8c,
               0xdd, 0x9c, 0x7d, 0xa0, 0xcd, 0x1a, 0x41, 0x1c);
  }

  /** Section 5.1.1 of FIPS 197, for every byte. */
  lemma SBoxIsAffineInverse(b: Byte)
    ensures SBox(0) == 0x63
    ensures b != 0 ==> exists c: Byte :: GMul(b, c) == 1 && forall i :: 0 <= i < 8 ==> AffineBit(SBox(b), c, i)
  {
    var r := b / 16;
    if r == 0 { Row0(b); }
    if r == 1 { Row1(b); }
    if r == 2 { Row2(b); }
    if r == 3 { Row3(b); }
    if r == 4 { Row4(b); }
    if r == 5 { Row5(b); }
    if r == 6 { Row6(b); }
    if r == 7 { Row7(b); }
    if r == 8 { Row8(b); }
    if r == 9 { Row9(b); }
    if r == 10 { Row10(b); }
    if r == 11 { Row11(b); }
    if r == 12 { Row12(b); }
    if r == 13 { Row13(b); }
    if r == 14 { Row14(b); }
    if r == 15 { Row15(b); }
  }

  // ---- The key schedule (section 5.2) --------------------------------------

  /** The round constants are the powers of x. */
  lemma RoundConstants(i: nat)
    requires 1 <= i < 10
    ensures |RCON| == 11 && RCON[1] == 1 && RCON[i + 1] == XTime(RCON[i])
  {
    hide XTime;
    XTimeOf(0x01);
    XTimeOf(0x02);
    XTimeOf(0x04);
    XTimeOf(0x08);
    XTimeOf(0x10);
    XTimeOf(0x20);
    XTimeOf(0x40);
    XTimeOf(0x80);
    XTimeOf(0x1B);
  }

  /** Byte p of the expanded key. */
  function KeyByte(key: seq<Byte>, p: nat): Byte
    requires ValidKey(key) && p < 16 * (Rounds(key) + 1)
  {
    RoundKeys(key)[p / 16][p % 16]
  }

  function Words(key: seq<Byte>): (r: seq<Word>)
    requires ValidKey(key)
    ensures |r| == 4 * (Rounds(key) + 1)
  {
    Expand(KeySplit(key), KeyWords(key), 4 * (Rounds(key) + 1))
  }

  lemma WordOfKeyByte(key: seq<Byte>, i: nat, j: nat)
    requires ValidKey(key) && i < 4 * (Rounds(key) + 1) && j < 4
    ensures KeyByte(key, 4 * i + j) == Words(key)[i][j]
  {
    hide Expand;
    var words := Words(key);
    var n := i / 4;
    assert (4 * i + j) / 16 == n && (4 * i + j) % 16 == 4 * (i % 4) + j;
    assert RoundKeys(key)[n] == JoinWords(words[4 * n], words[4 * n + 1], words[4 * n + 2], words[4 * n + 3]);
  }

  /** The expansion keeps what it has and appends by one rule. */
  lemma {:induction false} ExpandAt(words: seq<Word>, nk: nat, total: nat, i: nat)
    requires (nk == 4 || nk == 8) && nk <= |words| <= total <= 11 * nk && i < total
    ensures i < |words| ==> Expand(words, nk, total)[i] == words[i]
    ensures i >= |words| ==> Expand(words, nk, total)[i] == NextWord(Expand(words, nk, total)[..i], nk)
    decreases total - |words|
  {
    hide NextWord;
    if |words| < total {
      var more := words + [NextWord(words, nk)];
      ExpandAt(more, nk, total, i);
      if i == |words| {
        ExpandPrefix(words, nk, total);
      }
    }
  }

  lemma {:induction false} ExpandPrefix(words: seq<Word>, nk: nat, total: nat)
    requires (nk == 4 || nk == 8) && nk <= |words| <= total <= 11 * nk
    ensures Expand(words, nk, total)[..|words|] == words
    decreases total - |words|
  {
    hide NextWord;
    if |words| < total {
      var more := words + [NextWord(words, nk)];
      ExpandPrefix(more, nk, total);
      assert Expand(more, nk, total)[..|words|] == Expand(more, nk, total)[..|more|][..|words|];
    }
  }

  /** What is added to a byte one key length back to give byte j of word i. */
  function Added(i: nat, nk: nat, j: nat, rotated: Byte, before: Byte): Byte
    requires (nk == 4 || nk == 8) && i < 11 * nk
  {
    if i % nk == 0 then XorByte(SBox(rotated), if j == 0 then RCON[i / nk] else 0)
    else if nk == 8 && i % nk == 4 then SBox(before)
    else before
  }

  lemma NextWordAt(words: seq<Word>, nk: nat, j: nat)
    requires (nk == 4 || nk == 8) && nk <= |words| < 11 * nk && j < 4
    ensures var i := |words|;
      NextWord(words, nk)[j]
      == XorByte(words[i - nk][j], Added(i, nk, j, words[i - 1][(j + 1) % 4], words[i - 1][j]))
  {
    hide SBox, Xor;
    var temp := words[|words| - 1];
    XorZero(SBox(temp[(j + 1) % 4]));
    RotatedAt(temp, j);
    hide SubWord, RotWord;
  }

  lemma RotatedAt(w: Word, j: nat)
    requires j < 4
    ensures SubWord(RotWord(w))[j] == SBox(w[(j + 1) % 4]) && SubWord(w)[j] == SBox(w[j])
  {
    hide SBox;
    assert j == 0 || j == 1 || j == 2 || j == 3;
  }

  lemma WordSchedule(key: seq<Byte>, i: nat, j: nat)
    requires ValidKey(key) && |key| / 4 <= i < 4 * (Rounds(key) + 1) && j < 4
    ensures var (w, nk) := (Words(key), |key| / 4);
      w[i][j] == XorByte(w[i - nk][j], Added(i, nk, j, w[i - 1][(j + 1) % 4], w[i - 1][j]))
  {
    hide Expand, NextWord, XorByte, Added;
    var nk, words := |key| / 4, Words(key);
    ExpandAt(KeySplit(key), nk, |words|, i);
    NextWordAt(words[..i], nk, j);
  }

  lemma AddedMeans(i: nat, n: nat, j: nat, rotated: Byte, before: Byte)
    requires (n == 16 || n == 32) && i < 11 * (n / 4)
    ensures 4 * i % n == 0 ==> 4 * i / n < 11
    ensures 4 * i % n == 0 ==>
      Added(i, n / 4, j, rotated, before) == XorByte(SBox(rotated), if j == 0 then RCON[4 * i / n] else 0)
    ensures 4 * i % n != 0 ==>
      Added(i, n / 4, j, rotated, before) == if 4 * i % n == 16 then SBox(before) else before
  {
    hide SBox, XorByte;
    if n == 16 {
      assert 4 * i % 16 == 4 * (i % 4);
    } else {
      assert 4 * i % 32 == 4 * (i % 8);
    }
  }

  lemma KeyByteAt(key: seq<Byte>, i: nat, j: nat)
    requires ValidKey(key) && |key| / 4 <= i < 4 * (Rounds(key) + 1) && j < 4
    ensures KeyByte(key, 4 * i + j) == XorByte(KeyByte(key, 4 * i + j - |key|),
      Added(i, |key| / 4, j, KeyByte(key, 4 * i - 4 + (j + 1) % 4), KeyByte(key, 4 * i + j - 4)))
  {
    hide KeyByte, XorByte, Words, Added;
    WordSchedule(key, i, j);
    WordOfKeyByte(key, i, j);
    WordOfKeyByte(key, i - |key| / 4, j);
    WordOfKeyByte(key, i - 1, j);
    WordOfKeyByte(key, i - 1, (j + 1) % 4);
  }

  /** The key schedule, byte by byte: the key itself, and then each byte from the byte one key length
      before it and one byte of the word before it. */
  lemma KeySchedule(key: seq<Byte>, i: nat, j: nat)
    requires ValidKey(key) && i < 4 * (Rounds(key) + 1) && j < 4
    ensures Rounds(key) == if |key| == 16 then 10 else 14
    ensures 4 * i < |key| ==> KeyByte(key, 4 * i + j) == key[4 * i + j]
    ensures 4 * i >= |key| && 4 * i % |key| == 0 ==>
      KeyByte(key, 4 * i + j) == XorByte(KeyByte(key, 4 * i + j - |key|),
        XorByte(SBox(KeyByte(key, 4 * i - 4 + (j + 1) % 4)), if j == 0 then RCON[4 * i / |key|] else 0))
    ensures 4 * i >= |key| && 4 * i % |key| != 0 ==>
      KeyByte(key, 4 * i + j) == XorByte(KeyByte(key, 4 * i + j - |key|),
        if 4 * i % |key| == 16 then SBox(KeyByte(key, 4 * i + j - 4)) else KeyByte(key, 4 * i + j - 4))
  {
    hide SBox, KeyByte, XorByte, Words, Added;
    if 4 * i < |key| {
      WordOfKeyByte(key, i, j);
      FirstWords(key, i);
    } else {
      KeyByteAt(key, i, j);
      AddedMeans(i, |key|, j, KeyByte(key, 4 * i - 4 + (j + 1) % 4), KeyByte(key, 4 * i + j - 4));
    }
  }

  lemma FirstWords(key: seq<Byte>, i: nat)
    requires ValidKey(key) && i < |key| / 4
    ensures Words(key)[i] == key[4 * i..4 * i + 4]
  {
    ExpandAt(KeySplit(key), KeyWords(key), 4 * (Rounds(key) + 1), i);
  }

  // ---- The rounds (sections 5.1 and 5.1.1 to 5.1.4) -------------------------

  /** Row r of column c after SubBytes and ShiftRows. */
  function Shifted(s: Block, r: nat, c: nat): Byte
    requires r < 4 && c < 4
  {
    SBox(s[r + 4 * ((c + r) % 4)])
  }

  lemma AfterShift(s: Block, r: nat, c: nat)
    requires r < 4 && c < 4
    ensures ShiftRows(SubBytes(s))[r + 4 * c] == Shifted(s, r, c)
  {
    hide SBox;
    assert (r + 4 * c) % 4 == r && (r + 4 * c) / 4 == c;
    assert RowSource(r + 4 * c) == r + 4 * ((c + r) % 4);
  }

  lemma MixedBytes(t: Block, r: nat, c: nat)
    requires r < 4 && c < 4
    ensures MixColumns(t)[r + 4 * c] ==
      XorByte(XorByte(XorByte(GMul(t[r + 4 * c], 2), GMul(t[(r + 1) % 4 + 4 * c], 3)),
        t[(r + 2) % 4 + 4 * c]), t[(r + 3) % 4 + 4 * c])
  {
    hide GMul, XorByte;
    assert (r + 4 * c) % 4 == r && (r + 4 * c) / 4 == c;
    assert r == 0 || r == 1 || r == 2 || r == 3;
  }

  lemma RoundBytes(rks: seq<Block>, block: Block, n: nat, r: nat, c: nat)
    requires 0 < n < |rks| && r < 4 && c < 4
    ensures var s := AfterRounds(rks, block, n - 1);
      AfterRounds(rks, block, n)[r + 4 * c] ==
        XorByte(XorByte(XorByte(XorByte(GMul(Shifted(s, r, c), 2), GMul(Shifted(s, (r + 1) % 4, c), 3)),
          Shifted(s, (r + 2) % 4, c)), Shifted(s, (r + 3) % 4, c)), rks[n][r + 4 * c])
  {
    hide SBox, GMul, Xor, Shifted, MixColumns, ShiftRows, SubBytes;
    var s := AfterRounds(rks, block, n - 1);
    AfterShift(s, r, c);
    AfterShift(s, (r + 1) % 4, c);
    AfterShift(s, (r + 2) % 4, c);
    AfterShift(s, (r + 3) % 4, c);
    MixedBytes(ShiftRows(SubBytes(s)), r, c);
  }

  /** The state after n rounds under a key. */
  function State(key: seq<Byte>, block: Block, n: nat): Block
    requires ValidKey(key) && n <= Rounds(key)
  {
    AfterRounds(RoundKeys(key), block, n)
  }

  /** Each byte of the enciphered block, and of the states it comes from. */
  lemma CipherBytes(key: seq<Byte>, block: Block, n: nat, r: nat, c: nat)
    requires ValidKey(key) && 0 < n < Rounds(key) && r < 4 && c < 4
    ensures State(key, block, 0)[r + 4 * c] == XorByte(block[r + 4 * c], KeyByte(key, r + 4 * c))
    ensures var s := State(key, block, n - 1);
      State(key, block, n)[r + 4 * c] ==
        XorByte(XorByte(XorByte(XorByte(GMul(Shifted(s, r, c), 2), GMul(Shifted(s, (r + 1) % 4, c), 3)),
          Shifted(s, (r + 2) % 4, c)), Shifted(s, (r + 3) % 4, c)), KeyByte(key, 16 * n + r + 4 * c))
    ensures Encrypt(key, block)[r + 4 * c]
         == XorByte(Shifted(State(key, block, Rounds(key) - 1), r, c), KeyByte(key, 16 * Rounds(key) + r + 4 * c))
  {
    hide SBox, GMul, Xor, Shifted, MixColumns, ShiftRows, SubBytes, RoundKeys;
    AfterShift(State(key, block, Rounds(key) - 1), r, c);
    RoundBytes(RoundKeys(key), block, n, r, c);
  }
}
