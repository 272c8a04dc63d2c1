/** crypto/sha256.py against the text of FIPS 180-4: the constants are fractional parts of roots of the first
    primes, the word functions are given bit by bit, and padding, schedule, rounds and digest by what holds of
    their bytes and words. */
module Sha256Standard {
  import opened Bits
  import opened Sha256
  import opened Polynomials

  // ---- Constants (sections 4.2.2 and 5.3.3) --------------------------------------

  /** n is the integer part of the cube root of p, and k the first 32 bits of its fractional part. */
  predicate CubeFraction(p: nat, n: nat, k: nat) {
    var x := TWO32 * n + k;
    k < TWO32 && x * x * x <= p * (TWO32 * TWO64) < (x + 1) * (x + 1) * (x + 1)
  }

  /** The same for the square root. */
  predicate SquareFraction(p: nat, n: nat, k: nat) {
    var x := TWO32 * n + k;
    k < TWO32 && x * x <= p * TWO64 < (x + 1) * (x + 1)
  }

  const P0: seq<nat> := [2, 3, 5, 7, 11, 13, 17, 19]
  const P1: seq<nat> := [23, 29, 31, 37, 41, 43, 47, 53]
  const P2: seq<nat> := [59, 61, 67, 71, 73, 79, 83, 89]
  const P3: seq<nat> := [97, 101, 103, 107, 109, 113, 127, 131]
  const P4: seq<nat> := [137, 139, 149, 151, 157, 163, 167, 173]
  const P5: seq<nat> := [179, 181, 191, 193, 197, 199, 211, 223]
  const P6: seq<nat> := [227, 229, 233, 239, 241, 251, 257, 263]
  const P7: seq<nat> := [269, 271, 277, 281, 283, 293, 307, 311]
  // The first sixty-four primes.
  const PRIMES: seq<nat> := P0 + P1 + P2 + P3 + P4 + P5 + P6 + P7

  lemma Row0(j: nat)
    requires j < 8
    ensures |K0| == 8 == |P0| && exists n :: CubeFraction(P0[j], n, K0[j])
  {
    assert CubeFraction(P0[0], 1, K0[0]);
    assert CubeFraction(P0[1], 1, K0[1]);
    assert CubeFraction(P0[2], 1, K0[2]);
    assert CubeFraction(P0[3], 1, K0[3]);
    assert CubeFraction(P0[4], 2, K0[4]);
    assert CubeFraction(P0[5], 2, K0[5]);
    assert CubeFraction(P0[6], 2, K0[6]);
    assert CubeFraction(P0[7], 2, K0[7]);
  }

  lemma Row1(j: nat)
    requires j < 8
    ensures |K1| == 8 == |P1| && exists n :: CubeFraction(P1[j], n, K1[j])
  {
    assert CubeFraction(P1[0], 2, K1[0]);
    assert CubeFraction(P1[1], 3, K1[1]);
    assert CubeFraction(P1[2], 3, K1[2]);
    assert CubeFraction(P1[3], 3, K1[3]);
    assert CubeFraction(P1[4], 3, K1[4]);
    assert CubeFraction(P1[5], 3, K1[5]);
    assert CubeFraction(P1[6], 3, K1[6]);
    assert CubeFraction(P1[7], 3, K1[7]);
  }

  lemma Row2(j: nat)
    requires j < 8
    ensures |K2| == 8 == |P2| && exists n :: CubeFraction(P2[j], n, K2[j])
  {
    assert CubeFraction(P2[0], 3, K2[0]);
    assert CubeFraction(P2[1], 3, K2[1]);
    assert CubeFraction(P2[2], 4, K2[2]);
    assert CubeFraction(P2[3], 4, K2[3]);
    assert CubeFraction(P2[4], 4, K2[4]);
    assert CubeFraction(P2[5], 4, K2[5]);
    assert CubeFraction(P2[6], 4, K2[6]);
    assert CubeFraction(P2[7], 4, K2[7]);
  }

  lemma Row3(j: nat)
    requires j < 8
    ensures |K3| == 8 == |P3| && exists n :: CubeFraction(P3[j], n, K3[j])
  {
    assert CubeFraction(P3[0], 4, K3[0]);
    assert CubeFraction(P3[1], 4, K3[1]);
    assert CubeFraction(P3[2], 4, K3[2]);
    assert CubeFraction(P3[3], 4, K3[3]);
    assert CubeFraction(P3[4], 4, K3[4]);
    assert CubeFraction(P3[5], 4, K3[5]);
    assert CubeFraction(P3[6], 5, K3[6]);
    assert CubeFraction(P3[7], 5, K3[7]);
  }

  lemma Row4(j: nat)
    requires j < 8
    ensures |K4| == 8 == |P4| && exists n :: CubeFraction(P4[j], n, K4[j])
  {
    assert CubeFraction(P4[0], 5, K4[0]);
    assert CubeFraction(P4[1], 5, K4[1]);
    assert CubeFraction(P4[2], 5, K4[2]);
    assert CubeFraction(P4[3], 5, K4[3]);
    assert CubeFraction(P4[4], 5, K4[4]);
    assert CubeFraction(P4[5], 5, K4[5]);
    assert CubeFraction(P4[6], 5, K4[6]);
    assert CubeFraction(P4[7], 5, K4[7]);
  }

  lemma Row5(j: nat)
    requires j < 8
    ensures |K5| == 8 == |P5| && exists n :: CubeFraction(P5[j], n, K5[j])
  {
    assert CubeFraction(P5[0], 5, K5[0]);
    assert CubeFraction(P5[1], 5, K5[1]);
    assert CubeFraction(P5[2], 5, K5[2]);
    assert CubeFraction(P5[3], 5, K5[3]);
    assert CubeFraction(P5[4], 5, K5[4]);
    assert CubeFraction(P5[5], 5, K5[5]);
    assert CubeFraction(P5[6], 5, K5[6]);
    assert CubeFraction(P5[7], 6, K5[7]);
  }

  lemma Row6(j: nat)
    requires j < 8
    ensures |K6| == 8 == |P6| && exists n :: CubeFraction(P6[j], n, K6[j])
  {
    assert CubeFraction(P6[0], 6, K6[0]);
    assert CubeFraction(P6[1], 6, K6[1]);
    assert CubeFraction(P6[2], 6, K6[2]);
    assert CubeFraction(P6[3], 6, K6[3]);
    assert CubeFraction(P6[4], 6, K6[4]);
    assert CubeFraction(P6[5], 6, K6[5]);
    assert CubeFraction(P6[6], 6, K6[6]);
    assert CubeFraction(P6[7], 6, K6[7]);
  }

  lemma Row7(j: nat)
    requires j < 8
    ensures |K7| == 8 == |P7| && exists n :: CubeFraction(P7[j], n, K7[j])
  {
    assert CubeFraction(P7[0], 6, K7[0]);
    assert CubeFraction(P7[1], 6, K7[1]);
    assert CubeFraction(P7[2], 6, K7[2]);
    assert CubeFraction(P7[3], 6, K7[3]);
    assert CubeFraction(P7[4], 6, K7[4]);
    assert CubeFraction(P7[5], 6, K7[5]);
    assert CubeFraction(P7[6], 6, K7[6]);
    assert CubeFraction(P7[7], 6, K7[7]);
  }

  /** The round constants are the cube roots of the first sixty-four primes. */
  lemma RoundConstants(t: nat)
    requires t < 64
    ensures |K| == 64 == |PRIMES| && exists n :: CubeFraction(PRIMES[t], n, K[t])
  {
    hide CubeFraction;
    PartsAt(K0, K1, K2, K3, K4, K5, K6, K7, t);
    PartsAt(P0, P1, P2, P3, P4, P5, P6, P7, t);
    if 0 <= t < 8 { Row0(t - 0); }
    if 8 <= t < 16 { Row1(t - 8); }
    if 16 <= t < 24 { Row2(t - 16); }
    if 24 <= t < 32 { Row3(t - 24); }
    if 32 <= t < 40 { Row4(t - 32); }
    if 40 <= t < 48 { Row5(t - 40); }
    if 48 <= t < 56 { Row6(t - 48); }
    if 56 <= t < 64 { Row7(t - 56); }
  }

  /** Where an entry of eight rows of eight is found. */
  lemma PartsAt<T>(a: seq<T>, b: seq<T>, c: seq<T>, d: seq<T>, e: seq<T>, f: seq<T>, g: seq<T>, h: seq<T>, t: nat)
    requires |a| == |b| == |c| == |d| == |e| == |f| == |g| == |h| == 8 && t < 64
    ensures (a + b + c + d + e + f + g + h)[t] ==
      if t < 8 then a[t] else if t < 16 then b[t - 8] else if t < 24 then c[t - 16] else if t < 32 then d[t - 24]
      else if t < 40 then e[t - 32] else if t < 48 then f[t - 40] else if t < 56 then g[t - 48] else h[t - 56]
  {
  }

  /** The initial state is the square roots of the first eight. */
  lemma InitialState(j: nat)
    requires j < 8
    ensures exists n :: SquareFraction(P0[j], n, H_INIT[j])
  {
    assert SquareFraction(P0[0], 1, H_INIT[0]);
    assert SquareFraction(P0[1], 1, H_INIT[1]);
    assert SquareFraction(P0[2], 2, H_INIT[2]);
    assert SquareFraction(P0[3], 2, H_INIT[3]);
    assert SquareFraction(P0[4], 3, H_INIT[4]);
    assert SquareFraction(P0[5], 3, H_INIT[5]);
    assert SquareFraction(P0[6], 4, H_INIT[6]);
    assert SquareFraction(P0[7], 4, H_INIT[7]);
  }

  // ---- Word functions, bit by bit (sections 3.2 and 4.1.2) ------------------------

  lemma {:induction false} OrBit(a: nat, b: nat, i: nat)
    ensures Bit(Or(a, b), i) == (Bit(a, i) || Bit(b, i))
    decreases i
  {
    OrUnfold(a, b);
    hide Or;
    if i > 0 {
      OrBit(a / 2, b / 2, i - 1);
    }
  }

  lemma OrUnfold(a: nat, b: nat)
    ensures Or(a, b) / 2 == Or(a / 2, b / 2) && (Or(a, b) % 2 == 1 <==> a % 2 == 1 || b % 2 == 1)
  {
  }

  lemma {:induction false} AndBit(a: nat, b: nat, i: nat)
    ensures Bit(And(a, b), i) == (Bit(a, i) && Bit(b, i))
    decreases i
  {
    AndUnfold(a, b);
    hide And;
    if i > 0 {
      AndBit(a / 2, b / 2, i - 1);
    }
  }

  lemma AndUnfold(a: nat, b: nat)
    ensures And(a, b) / 2 == And(a / 2, b / 2) && (And(a, b) % 2 == 1 <==> a % 2 == 1 && b % 2 == 1)
  {
  }

  lemma {:induction false} ShrBit(a: nat, n: nat, i: nat)
    ensures Bit(Shr(a, n), i) == Bit(a, n + i)
  {
    if n > 0 {
      ShrBit(a / 2, n - 1, i);
      HalfThenDiv(a, Pow2(n - 1));
    }
  }

  /** The complement of the n low bits. */
  lemma {:induction false} NotBit(x: nat, n: nat, i: nat)
    requires x < Pow2(n) && i < n
    ensures Bit(Pow2(n) - 1 - x, i) == !Bit(x, i)
  {
    var y := Pow2(n) - 1 - x;
    assert y / 2 == Pow2(n - 1) - 1 - x / 2 && (y % 2 == 1) == (x % 2 == 0);
    hide Pow2;
    if i > 0 {
      NotBit(x / 2, n - 1, i - 1);
    }
  }

  lemma WordPower()
    ensures Pow2(32) == TWO32
  {
    ShlByte(0);
    hide Pow2;
    Pow2Square(8, 0x100);
    Pow2Square(16, 0x10000);
  }

  /** `_rotr` rotates to the right. */
  lemma RotrBit(x: Word, n: nat, i: nat)
    requires n <= 32 && i < 32
    ensures Bit(Rotr(x, n), i) == Bit(x, (i + n) % 32)
  {
    WordPower();
    hide Pow2, Bit, Or, Shr, Shl;
    BitMod(Or(Shr(x, n), Shl(x, 32 - n)), 32, i);
    OrBit(Shr(x, n), Shl(x, 32 - n), i);
    ShrBit(x, n, i);
    BitShl(x, 32 - n, i);
    if i + n >= 32 {
      BitHigh(x, 32, i + n);
    }
    if n == 32 {
      assert (i + n) % 32 == i;
    }
  }

  lemma ChBit(x: Word, y: Word, z: Word, i: nat)
    requires i < 32
    ensures Bit(Ch(x, y, z), i) == if Bit(x, i) then Bit(y, i) else Bit(z, i)
  {
    WordPower();
    hide Pow2, Bit, And, Xor;
    XorBit(And(x, y), And(TWO32 - 1 - x, z), i);
    AndBit(x, y, i);
    AndBit(TWO32 - 1 - x, z, i);
    NotBit(x, 32, i);
  }

  lemma MajBit(x: Word, y: Word, z: Word, i: nat)
    ensures Bit(Maj(x, y, z), i)
         == ((Bit(x, i) && Bit(y, i)) || (Bit(x, i) && Bit(z, i)) || (Bit(y, i) && Bit(z, i)))
  {
    hide Bit, And, Xor;
    XorBit(Xor(And(x, y), And(x, z)), And(y, z), i);
    XorBit(And(x, y), And(x, z), i);
    AndBit(x, y, i);
    AndBit(x, z, i);
    AndBit(y, z, i);
  }

  /** The four sums of rotations; the small ones shift in their last term. */
  lemma SigmaBits(x: Word, i: nat)
    requires i < 32
    ensures Bit(BigSigma0(x), i) == ((Bit(x, (i + 2) % 32) != Bit(x, (i + 13) % 32)) != Bit(x, (i + 22) % 32))
    ensures Bit(BigSigma1(x), i) == ((Bit(x, (i + 6) % 32) != Bit(x, (i + 11) % 32)) != Bit(x, (i + 25) % 32))
    ensures Bit(SmallSigma0(x), i) == ((Bit(x, (i + 7) % 32) != Bit(x, (i + 18) % 32)) != (i + 3 < 32 && Bit(x, i + 3)))
    ensures Bit(SmallSigma1(x), i)
         == ((Bit(x, (i + 17) % 32) != Bit(x, (i + 19) % 32)) != (i + 10 < 32 && Bit(x, i + 10)))
  {
    hide Bit, Xor, Rotr, Shr;
    RotationsBit(x, 2, 13, 22, i);
    RotationsBit(x, 6, 11, 25, i);
    ShiftedBit(x, 7, 18, 3, i);
    ShiftedBit(x, 17, 19, 10, i);
  }

  lemma RotationsBit(x: Word, k: nat, l: nat, m: nat, i: nat)
    requires k <= 32 && l <= 32 && m <= 32 && i < 32
    ensures Bit(Xor(Xor(Rotr(x, k), Rotr(x, l)), Rotr(x, m)), i)
         == ((Bit(x, (i + k) % 32) != Bit(x, (i + l) % 32)) != Bit(x, (i + m) % 32))
  {
    hide Bit, Xor, Rotr;
    XorBit(Xor(Rotr(x, k), Rotr(x, l)), Rotr(x, m), i);
    XorBit(Rotr(x, k), Rotr(x, l), i);
    RotrBit(x, k, i);
    RotrBit(x, l, i);
    RotrBit(x, m, i);
  }

  lemma ShiftedBit(x: Word, k: nat, l: nat, m: nat, i: nat)
    requires k <= 32 && l <= 32 && i < 32
    ensures Bit(Xor(Xor(Rotr(x, k), Rotr(x, l)), Shr(x, m)), i)
         == ((Bit(x, (i + k) % 32) != Bit(x, (i + l) % 32)) != (i + m < 32 && Bit(x, i + m)))
  {
    WordPower();
    hide Pow2, Bit, Xor, Rotr, Shr;
    XorBit(Xor(Rotr(x, k), Rotr(x, l)), Shr(x, m), i);
    XorBit(Rotr(x, k), Rotr(x, l), i);
    RotrBit(x, k, i);
    RotrBit(x, l, i);
    ShrBit(x, m, i);
    if i + m >= 32 {
      BitHigh(x, 32, i + m);
    }
  }

  // ---- Padding, schedule, rounds and digest (sections 5.1.1 and 6.2.2) -------------

  /** The limit beyond which the hash raises is that of a 64-bit number of bits. */
  lemma LengthLimit(n: nat)
    ensures n < LEN_LIMIT <==> 8 * n < TWO64
  {
  }

  /** The padded message, byte by byte; it is the shortest of whole blocks. */
  lemma PaddedBytes(message: seq<Byte>)
    requires 8 * |message| < TWO64
    ensures var (p, n) := (Pad(message), |message|);
      && |p| % 64 == 0 && n + 9 <= |p| < n + 73
      && p[..n] == message && p[n] == 0x80 && (forall i :: n < i < |p| - 8 ==> p[i] == 0)
      && FromBE(p[|p| - 8..]) == 8 * n
  {
    hide ToBE8, FromBE;
    var (p, n) := (Pad(message), |message|);
    FromToBE8(8 * n);
    assert p[|p| - 8..] == LengthField(n);
    forall i | n < i < |p| - 8 ensures p[i] == 0 {
      assert p[i] == PadTail(n)[i - n];
    }
  }

  function WordOf(a: int, b: int, c: int, d: int): int {
    0x1000000 * a + 0x10000 * b + 0x100 * c + d
  }

  /** The sixty-four words of the message schedule of a block. */
  ghost predicate IsSchedule(block: seq<Byte>, w: seq<Word>)
    requires |block| == 64
  {
    && |w| == 64
    && (forall t :: 0 <= t < 16 ==> IsBlockWord(block, t, w[t]))
    && (forall t :: 16 <= t < 64 ==> IsLaterWord(w, t))
  }

  /** Word t of the block, big-endian. */
  predicate IsBlockWord(block: seq<Byte>, t: nat, x: int)
    requires |block| == 64 && t < 16
  {
    x == WordOf(block[4 * t], block[4 * t + 1], block[4 * t + 2], block[4 * t + 3])
  }

  predicate IsLaterWord(w: seq<Word>, t: nat)
    requires 16 <= t < |w|
  {
    w[t] == (SmallSigma1(w[t - 2]) + w[t - 7] + SmallSigma0(w[t - 15]) + w[t - 16]) % TWO32
  }

  /** v' follows v in a round with constant k and schedule word w. */
  predicate IsRound(v: HashState, k: Word, w: Word, v': HashState) {
    hide BigSigma0, BigSigma1, Ch, Maj;
    var t1 := v[7] + BigSigma1(v[4]) + Ch(v[4], v[5], v[6]) + k + w;
    && v'[0] == (t1 + BigSigma0(v[0]) + Maj(v[0], v[1], v[2])) % TWO32 && v'[4] == (v[3] + t1) % TWO32
    && v'[1] == v[0] && v'[2] == v[1] && v'[3] == v[2] && v'[5] == v[4] && v'[6] == v[5] && v'[7] == v[6]
  }

  /** One block turns h into h': sixty-four rounds along the schedule, and the old state added. */
  ghost predicate IsCompression(block: seq<Byte>, h: HashState, w: seq<Word>, vs: seq<HashState>, h': HashState)
    requires |block| == 64
  {
    && IsSchedule(block, w) && |vs| == 65 && vs[0] == h
    && (forall t :: 0 <= t < 64 ==> IsRound(vs[t], K[t], w[t], vs[t + 1]))
    && forall i :: 0 <= i < 8 ==> h'[i] == (h[i] + vs[64][i]) % TWO32
  }

  lemma FourBytes(s: seq<Byte>)
    requires |s| == 4
    ensures FromBE(s) == WordOf(s[0], s[1], s[2], s[3])
  {
    hide Pow256;
    FirstByte(s);
    FirstByte(s[1..]);
    FirstByte(s[1..][1..]);
    FirstByte(s[1..][1..][1..]);
    hide FromBE;
    SmallPowers();
  }

  lemma SmallPowers()
    ensures Pow256(0) == 1 && Pow256(1) == 0x100 && Pow256(2) == 0x10000 && Pow256(3) == 0x1000000
    ensures FromBE([]) == 0
  {
  }

  lemma {:induction false} SchedulePrefix(block: seq<Byte>, t: nat, n: nat)
    requires |block| == 64 && t <= n
    ensures Schedule(block, n)[..t] == Schedule(block, t)
  {
    hide FromBE4, NextWord;
    if t < n {
      SchedulePrefix(block, t, n - 1);
      assert Schedule(block, n)[..t] == Schedule(block, n - 1)[..t];
    }
  }

  lemma ScheduleMeets(block: seq<Byte>)
    requires |block| == 64
    ensures IsSchedule(block, Schedule(block, 64))
  {
    hide Schedule, IsBlockWord, IsLaterWord;
    var w := Schedule(block, 64);
    forall t | 0 <= t < 16 ensures IsBlockWord(block, t, w[t]) {
      FirstWord(block, t);
    }
    forall t | 16 <= t < 64 ensures IsLaterWord(w, t) {
      LaterWord(block, t);
    }
  }

  lemma FirstWord(block: seq<Byte>, t: nat)
    requires |block| == 64 && t < 16
    ensures IsBlockWord(block, t, Schedule(block, 64)[t])
  {
    hide Schedule, FromBE, WordOf;
    SchedulePrefix(block, t + 1, 64);
    ScheduleHead(block, t);
    var s := block[4 * t..4 * t + 4];
    FourBytes(s);
    assert Schedule(block, 64)[t] == Schedule(block, 64)[..t + 1][t];
  }

  lemma LaterWord(block: seq<Byte>, t: nat)
    requires |block| == 64 && 16 <= t < 64
    ensures IsLaterWord(Schedule(block, 64), t)
  {
    hide Schedule, SmallSigma0, SmallSigma1, FromBE4;
    var w := Schedule(block, 64);
    SchedulePrefix(block, t + 1, 64);
    SchedulePrefix(block, t, 64);
    ScheduleTail(block, t);
    assert w[t] == w[..t + 1][t];
    assert w[t - 2] == w[..t][t - 2] && w[t - 7] == w[..t][t - 7] && w[t - 15] == w[..t][t - 15]
        && w[t - 16] == w[..t][t - 16];
  }

  /** There is only one schedule. */
  lemma {:induction false} OneSchedule(block: seq<Byte>, w: seq<Word>, w': seq<Word>, t: nat)
    requires |block| == 64 && IsSchedule(block, w) && IsSchedule(block, w') && t <= 64
    ensures w[..t] == w'[..t]
  {
    hide IsBlockWord, IsLaterWord;
    if t > 0 {
      var u := t - 1;
      OneSchedule(block, w, w', u);
      if u < 16 {
        assert IsBlockWord(block, u, w[u]) && IsBlockWord(block, u, w'[u]);
        SameBlockWord(block, u, w[u], w'[u]);
      } else {
        assert IsLaterWord(w, u) && IsLaterWord(w', u);
        SameLaterWord(w, w', u);
      }
    }
  }

  lemma SameBlockWord(block: seq<Byte>, t: nat, x: int, y: int)
    requires |block| == 64 && t < 16 && IsBlockWord(block, t, x) && IsBlockWord(block, t, y)
    ensures x == y
  {
  }

  lemma SameLaterWord(w: seq<Word>, w': seq<Word>, t: nat)
    requires 16 <= t < |w| && t < |w'| && w[..t] == w'[..t] && IsLaterWord(w, t) && IsLaterWord(w', t)
    ensures w[t] == w'[t]
  {
    hide SmallSigma0, SmallSigma1;
    var p, q := w[..t], w'[..t];
    assert p[t - 2] == q[t - 2] && p[t - 7] == q[t - 7] && p[t - 15] == q[t - 15] && p[t - 16] == q[t - 16];
  }

  lemma RoundMeets(v: HashState, k: Word, w: Word, v': HashState)
    ensures IsRound(v, k, w, v') <==> v' == Round(v, k, w)
  {
    hide Ch, Maj, BigSigma0, BigSigma1;
    var t1 := v[7] + BigSigma1(v[4]) + Ch(v[4], v[5], v[6]) + k + w;
    var t2 := BigSigma0(v[0]) + Maj(v[0], v[1], v[2]);
    AddModulo(t1, t2);
    AddModulo(v[3], t1);
    assert IsRound(v, k, w, v') ==> v' == [v'[0], v'[1], v'[2], v'[3], v'[4], v'[5], v'[6], v'[7]];
  }

  lemma AddModulo(a: int, b: int)
    ensures (a % TWO32 + b % TWO32) % TWO32 == (a + b) % TWO32
    ensures (a + b % TWO32) % TWO32 == (a + b) % TWO32
  {
  }

  lemma {:induction false} RoundsMeet(h: HashState, w: seq<Word>, vs: seq<HashState>, t: nat)
    requires |w| == 64 && |vs| == 65 && vs[0] == h && t <= 64
    requires forall t :: 0 <= t < 64 ==> IsRound(vs[t], K[t], w[t], vs[t + 1])
    ensures vs[t] == Rounds(h, w, t)
  {
    hide Round, IsRound;
    if t > 0 {
      RoundsMeet(h, w, vs, t - 1);
      RoundMeets(vs[t - 1], K[t - 1], w[t - 1], vs[t]);
    }
  }

  /** The compression of a block is what any such run of rounds ends in. */
  lemma CompressMeets(block: seq<Byte>, h: HashState, w: seq<Word>, vs: seq<HashState>, h': HashState)
    requires |block| == 64 && IsCompression(block, h, w, vs, h')
    ensures h' == Compress(block, h)
  {
    hide Schedule, IsRound, IsSchedule, Rounds;
    ScheduleMeets(block);
    OneSchedule(block, w, Schedule(block, 64), 64);
    assert w == w[..64] && Schedule(block, 64) == Schedule(block, 64)[..64] by { ScheduleLength(block, w); }
    RoundsMeet(h, w, vs, 64);
    assert h' == Compress(block, h) by {
      assert |h'| == 8 == |Compress(block, h)|;
      assert forall i :: 0 <= i < 8 ==> h'[i] == Compress(block, h)[i];
    }
  }

  lemma ScheduleLength(block: seq<Byte>, w: seq<Word>)
    requires |block| == 64 && IsSchedule(block, w)
    ensures |w| == 64
  {
  }

  /** The digest is the big-endian words of the state after the last block of the padded message. */
  lemma DigestMeets(message: seq<Byte>, hs: seq<HashState>, j: nat)
    requires j < 8
    requires |hs| == |Pad(message)| / 64 + 1 && hs[0] == H_INIT
    requires forall k :: 0 <= k < |hs| - 1 ==> hs[k + 1] == Compress(Pad(message)[64 * k..64 * k + 64], hs[k])
    ensures FromBE(Digest(message)[4 * j..4 * j + 4]) == hs[|hs| - 1][j]
  {
    hide Compress, Pad, ToBE4, FromBE;
    FoldMeets(Pad(message), hs, 0);
    OutputWord(hs[|hs| - 1], j);
  }

  lemma {:induction false} FoldMeets(p: seq<Byte>, hs: seq<HashState>, k: nat)
    requires |p| % 64 == 0 && |hs| == |p| / 64 + 1 && k < |hs|
    requires forall k :: 0 <= k < |hs| - 1 ==> hs[k + 1] == Compress(p[64 * k..64 * k + 64], hs[k])
    ensures Fold(hs[k], p[64 * k..]) == hs[|hs| - 1]
    decreases |hs| - k
  {
    hide Compress;
    if k < |hs| - 1 {
      FoldMeets(p, hs, k + 1);
      assert p[64 * k..][..64] == p[64 * k..64 * k + 64] && p[64 * k..][64..] == p[64 * (k + 1)..];
    }
  }

  lemma OutputWord(h: HashState, j: nat)
    requires j < 8
    ensures FromBE(Output(h)[4 * j..4 * j + 4]) == h[j]
  {
    hide ToBE4, FromBE;
    FromToBE4(h[j]);
    assert Output(h)[4 * j..4 * j + 4] == ToBE4(h[j]) by {
      assert j == 0 || j == 1 || j == 2 || j == 3 || j == 4 || j == 5 || j == 6 || j == 7;
    }
  }
}
