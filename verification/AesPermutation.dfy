/** Every AES key permutes the 2^128 blocks: each round transformation has an inverse, so
    the rounds do, whatever the round keys. */
module AesPermutation {
  import opened Bits
  import opened SBoxes
  import opened Aes

  // ---- Linearity of multiplication by x --------------------------------------

  lemma XTimeBit(b: Byte, j: nat)
    ensures Bit(XTime(b), j) == (j < 8 && ((j > 0 && Bit(b, j - 1)) != (Bit(b, 7) && Bit(0x1B, j))))
  {
    ShlByte(0);
    hide Pow2, Xor;
    assert Bit(2 * b, j) == (j > 0 && Bit(b, j - 1));
    hide Bit;
    XorBit(2 * b, 0x1B, j);
    BitMod(Xor(2 * b, 0x1B), 8, j);
    BitMod(2 * b, 8, j);
  }

  lemma XTimeXor(a: Byte, b: Byte)
    ensures XTime(XorByte(a, b)) == XorByte(XTime(a), XTime(b))
  {
    var l, r := XTime(XorByte(a, b)), XorByte(XTime(a), XTime(b));
    hide XTime;
    forall j: nat ensures Bit(l, j) == Bit(r, j) {
      XTimeBit(a, j);
      XTimeBit(b, j);
      XTimeBit(XorByte(a, b), j);
      XorBits();
    }
    BitsExtensional(l, r);
  }

  lemma GMulSmall(a: Byte)
    ensures GMul(a, 2) == XTime(a)
    ensures GMul(a, 3) == XorByte(a, XTime(a))
  {
    hide XTime;
    GMulZero(XTime(XTime(a)), 6);
    XorZero(XTime(a));
    assert GMulFrom(a, 2, 8) == XorByte(0, GMulFrom(XTime(a), 1, 7));
    assert GMulFrom(XTime(a), 1, 7) == XorByte(XTime(a), GMulFrom(XTime(XTime(a)), 0, 6));
    assert GMulFrom(a, 3, 8) == XorByte(a, GMulFrom(XTime(a), 1, 7));
  }

  lemma {:induction false} GMulZero(a: Byte, n: nat)
    ensures GMulFrom(a, 0, n) == 0
    decreases n
  {
    if n > 0 {
      GMulZero(XTime(a), n - 1);
      XorZero(0);
    }
  }

  // ---- MixColumns has order four ----------------------------------------------

  lemma MixRowBit(a: Byte, b: Byte, c: Byte, d: Byte, j: nat)
    ensures Bit(MixRow(a, b, c, d), j)
         == (Bit(XTime(a), j) != (Bit(b, j) != (Bit(XTime(b), j) != (Bit(c, j) != Bit(d, j)))))
  {
    hide XTime, GMul;
    GMulSmall(a);
    GMulSmall(b);
    XorBits();
  }

  lemma XTimeMixRow(a: Byte, b: Byte, c: Byte, d: Byte)
    ensures XTime(MixRow(a, b, c, d)) == MixRow(XTime(a), XTime(b), XTime(c), XTime(d))
  {
    hide XTime, GMul;
    GMulSmall(a); GMulSmall(b); GMulSmall(XTime(a)); GMulSmall(XTime(b));
    XTimeXor(XorByte(XorByte(GMul(a, 2), GMul(b, 3)), c), d);
    XTimeXor(XorByte(GMul(a, 2), GMul(b, 3)), c);
    XTimeXor(GMul(a, 2), GMul(b, 3));
    XTimeXor(b, XTime(b));
  }

  /** Entry of a column after MixColumn twice. */
  function Twice(a: Byte, c: Byte): Byte {
    XorByte(a, XorByte(XTime(XTime(a)), XTime(XTime(c))))
  }

  lemma MixRowTwice(a: Byte, b: Byte, c: Byte, d: Byte)
    ensures MixRow(MixRow(a, b, c, d), MixRow(b, c, d, a), MixRow(c, d, a, b), MixRow(d, a, b, c)) == Twice(a, c)
  {
    var l := MixRow(MixRow(a, b, c, d), MixRow(b, c, d, a), MixRow(c, d, a, b), MixRow(d, a, b, c));
    hide XTime, MixRow;
    XTimeMixRow(a, b, c, d);
    XTimeMixRow(b, c, d, a);
    forall j: nat ensures Bit(l, j) == Bit(Twice(a, c), j) {
      MixRowBit(MixRow(a, b, c, d), MixRow(b, c, d, a), MixRow(c, d, a, b), MixRow(d, a, b, c), j);
      MixRowBit(a, b, c, d, j);
      MixRowBit(b, c, d, a, j);
      MixRowBit(c, d, a, b, j);
      MixRowBit(d, a, b, c, j);
      MixRowBit(XTime(a), XTime(b), XTime(c), XTime(d), j);
      MixRowBit(XTime(b), XTime(c), XTime(d), XTime(a), j);
      XorBits();
    }
    BitsExtensional(l, Twice(a, c));
  }

  lemma TwiceTwice(a: Byte, c: Byte)
    ensures Twice(Twice(a, c), Twice(c, a)) == a
  {
    var a2, c2 := XTime(XTime(a)), XTime(XTime(c));
    hide XTime;
    XTimeTwice(a, a2, c2);
    XTimeTwice(c, c2, a2);
    XorBits();
    BitsExtensional(Twice(Twice(a, c), Twice(c, a)), a);
  }

  lemma XTimeTwice(a: Byte, b: Byte, c: Byte)
    ensures XTime(XTime(XorByte(a, XorByte(b, c))))
         == XorByte(XTime(XTime(a)), XorByte(XTime(XTime(b)), XTime(XTime(c))))
  {
    hide XTime, XorByte;
    XTimeXor(a, XorByte(b, c));
    XTimeXor(b, c);
    XTimeXor(XTime(a), XorByte(XTime(b), XTime(c)));
    XTimeXor(XTime(b), XTime(c));
  }

  lemma MixColumnTwice(c: Word)
    ensures MixColumn(MixColumn(c)) == [Twice(c[0], c[2]), Twice(c[1], c[3]), Twice(c[2], c[0]), Twice(c[3], c[1])]
  {
    hide MixRow, Twice;
    MixRowTwice(c[0], c[1], c[2], c[3]);
    MixRowTwice(c[1], c[2], c[3], c[0]);
    MixRowTwice(c[2], c[3], c[0], c[1]);
    MixRowTwice(c[3], c[0], c[1], c[2]);
  }

  lemma MixColumnOrderFour(c: Word)
    ensures MixColumn(MixColumn(MixColumn(MixColumn(c)))) == c
  {
    hide MixColumn, Twice;
    var t := MixColumn(MixColumn(c));
    MixColumnTwice(c);
    MixColumnTwice(t);
    TwiceTwice(c[0], c[2]);
    TwiceTwice(c[1], c[3]);
    TwiceTwice(c[2], c[0]);
    TwiceTwice(c[3], c[1]);
    assert c == [c[0], c[1], c[2], c[3]];
  }

  function InvMixColumns(s: Block): Block {
    MixColumns(MixColumns(MixColumns(s)))
  }

  lemma ColumnOfMix(s: Block, c: nat)
    requires c < 4
    ensures Column(MixColumns(s), c) == MixColumn(Column(s, c))
  {
    hide MixColumn;
  }

  lemma EqualByColumns(s: Block, t: Block)
    requires forall c :: 0 <= c < 4 ==> Column(s, c) == Column(t, c)
    ensures s == t
  {
    forall i | 0 <= i < 16 ensures s[i] == t[i] {
      assert Column(s, i / 4)[i % 4] == s[i] && Column(t, i / 4)[i % 4] == t[i];
    }
  }

  lemma MixColumnsInverse(s: Block)
    ensures InvMixColumns(MixColumns(s)) == s && MixColumns(InvMixColumns(s)) == s
  {
    hide MixColumn, MixColumns, Column;
    var s1 := MixColumns(s);
    var s2 := MixColumns(s1);
    var s3 := MixColumns(s2);
    forall c | 0 <= c < 4 ensures Column(MixColumns(s3), c) == Column(s, c) {
      MixColumnOrderFour(Column(s, c));
      ColumnOfMix(s, c);
      ColumnOfMix(s1, c);
      ColumnOfMix(s2, c);
      ColumnOfMix(s3, c);
    }
    EqualByColumns(MixColumns(s3), s);
  }

  // ---- The other transformations ------------------------------------------------

  function InvSubBytes(s: Block): Block {
    seq(16, i requires 0 <= i < 16 => InvSBox(s[i]))
  }

  lemma SubBytesInverse(s: Block)
    ensures InvSubBytes(SubBytes(s)) == s && SubBytes(InvSubBytes(s)) == s
  {
    hide SBox, InvSBox;
    forall i | 0 <= i < 16 ensures InvSBox(SBox(s[i])) == s[i] && SBox(InvSBox(s[i])) == s[i] {
      SBoxThenInverse(s[i]);
      InverseThenSBox(s[i]);
    }
  }

  function InvRowSource(i: nat): (r: nat)
    requires i < 16
    ensures r < 16
  {
    i % 4 + 4 * ((i / 4 + 4 - i % 4) % 4)
  }

  function InvShiftRows(s: Block): Block {
    seq(16, i requires 0 <= i < 16 => s[InvRowSource(i)])
  }

  lemma CellParts(r: nat, c: nat)
    requires r < 4 && c < 4
    ensures (r + 4 * c) % 4 == r && (r + 4 * c) / 4 == c
  {
  }

  lemma RotateBack(r: nat, c: nat)
    requires r < 4 && c < 4
    ensures ((c + r) % 4 + 4 - r) % 4 == c && ((c + 4 - r) % 4 + r) % 4 == c
  {
    assert (c + r) % 4 == if c + r < 4 then c + r else c + r - 4;
    assert (c + 4 - r) % 4 == if c >= r then c - r else c + 4 - r;
  }

  /** Both directions by row and column. */
  lemma RowSourceAt(r: nat, c: nat)
    requires r < 4 && c < 4
    ensures RowSource(r + 4 * c) == r + 4 * ((c + r) % 4)
    ensures InvRowSource(r + 4 * c) == r + 4 * ((c + 4 - r) % 4)
  {
    CellParts(r, c);
  }

  lemma RowSourceInverse(i: nat)
    requires i < 16
    ensures RowSource(InvRowSource(i)) == i && InvRowSource(RowSource(i)) == i
  {
    hide RowSource, InvRowSource;
    var r, c := i % 4, i / 4;
    RowSourceAt(r, c);
    RowSourceAt(r, (c + r) % 4);
    RowSourceAt(r, (c + 4 - r) % 4);
    RotateBack(r, c);
  }

  lemma ShiftRowsInverse(s: Block)
    ensures InvShiftRows(ShiftRows(s)) == s && ShiftRows(InvShiftRows(s)) == s
  {
    hide RowSource, InvRowSource;
    forall i: nat | i < 16 ensures InvShiftRows(ShiftRows(s))[i] == s[i] && ShiftRows(InvShiftRows(s))[i] == s[i] {
      RowSourceInverse(i);
    }
  }

  lemma AddRoundKeyInverse(s: Block, k: Block)
    ensures AddRoundKey(AddRoundKey(s, k), k) == s
  {
    XorBytesCancel(s, k);
  }

  // ---- The rounds -----------------------------------------------------------------

  function Round(s: Block, k: Block): Block {
    AddRoundKey(MixColumns(ShiftRows(SubBytes(s))), k)
  }

  function InvRound(s: Block, k: Block): Block {
    InvSubBytes(InvShiftRows(InvMixColumns(AddRoundKey(s, k))))
  }

  lemma RoundInverse(s: Block, k: Block)
    ensures InvRound(Round(s, k), k) == s && Round(InvRound(s, k), k) == s
  {
    hide SubBytes, ShiftRows, MixColumns, AddRoundKey, InvSubBytes, InvShiftRows, InvMixColumns;
    AddRoundKeyInverse(MixColumns(ShiftRows(SubBytes(s))), k);
    MixColumnsInverse(ShiftRows(SubBytes(s)));
    ShiftRowsInverse(SubBytes(s));
    SubBytesInverse(s);
    var m := AddRoundKey(s, k);
    AddRoundKeyInverse(s, k);
    MixColumnsInverse(m);
    ShiftRowsInverse(InvMixColumns(m));
    SubBytesInverse(InvShiftRows(InvMixColumns(m)));
  }

  function BeforeRounds(rks: seq<Block>, s: Block, r: nat): Block
    requires r < |rks|
    decreases r
  {
    if r == 0 then AddRoundKey(s, rks[0]) else BeforeRounds(rks, InvRound(s, rks[r]), r - 1)
  }

  lemma {:induction false} RoundsInverse(rks: seq<Block>, b: Block, r: nat)
    requires r < |rks|
    ensures BeforeRounds(rks, AfterRounds(rks, b, r), r) == b
    ensures AfterRounds(rks, BeforeRounds(rks, b, r), r) == b
    decreases r
  {
    hide InvRound, AddRoundKey, MixColumns, ShiftRows, SubBytes;
    if r == 0 {
      AddRoundKeyInverse(b, rks[0]);
    } else {
      var s := AfterRounds(rks, b, r - 1);
      RoundInverse(s, rks[r]);
      RoundsInverse(rks, b, r - 1);
      RoundInverse(b, rks[r]);
      RoundsInverse(rks, InvRound(b, rks[r]), r - 1);
    }
  }

  function DecryptWith(rks: seq<Block>, s: Block): Block
    requires |rks| >= 2
  {
    var nr := |rks| - 1;
    BeforeRounds(rks, InvSubBytes(InvShiftRows(AddRoundKey(s, rks[nr]))), nr - 1)
  }

  lemma DecryptWithInverse(rks: seq<Block>, s: Block)
    requires |rks| >= 2
    ensures DecryptWith(rks, EncryptWith(rks, s)) == s
    ensures EncryptWith(rks, DecryptWith(rks, s)) == s
  {
    hide AfterRounds, BeforeRounds, InvSubBytes, InvShiftRows, AddRoundKey, ShiftRows, SubBytes;
    var nr := |rks| - 1;
    var t := AfterRounds(rks, s, nr - 1);
    AddRoundKeyInverse(ShiftRows(SubBytes(t)), rks[nr]);
    ShiftRowsInverse(SubBytes(t));
    SubBytesInverse(t);
    RoundsInverse(rks, s, nr - 1);
    var u := InvShiftRows(AddRoundKey(s, rks[nr]));
    RoundsInverse(rks, InvSubBytes(u), nr - 1);
    SubBytesInverse(u);
    ShiftRowsInverse(AddRoundKey(s, rks[nr]));
    AddRoundKeyInverse(s, rks[nr]);
  }

  /** Encryption under a valid key is one-to-one and onto, with DecryptWith as inverse. */
  lemma EncryptIsPermutation(key: seq<Byte>, a: Block, b: Block)
    requires ValidKey(key)
    ensures Encrypt(key, DecryptWith(RoundKeys(key), a)) == a
    ensures DecryptWith(RoundKeys(key), Encrypt(key, a)) == a
    ensures Encrypt(key, a) == Encrypt(key, b) ==> a == b
  {
    hide EncryptWith, DecryptWith, RoundKeys;
    DecryptWithInverse(RoundKeys(key), a);
    DecryptWithInverse(RoundKeys(key), b);
  }
}
