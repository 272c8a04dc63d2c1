/** `_ghash` of crypto/gcm.py: Horner's rule over the blocks of its input
    (section 6.4 of SP 800-38D). */
module Ghash {
  import opened Bits
  import opened Gf128

  /** `_bytes_to_int` of a block. */
  function BlockInt(b: Block): Elem {
    Pow2Of128();
    FromBE(b)
  }

  /** `_int_to_bytes` of a 128-bit integer. */
  function IntBlock(x: Elem): Block {
    Pow2Of128();
    ToBE(x, 16)
  }

  function BlockAt(data: seq<Byte>, k: nat): Block
    requires 16 * k + 16 <= |data|
  {
    data[16 * k..16 * k + 16]
  }

  function Blocks(data: seq<Byte>): (xs: seq<Elem>)
    ensures |xs| == |data| / 16
  {
    seq(|data| / 16, k requires 0 <= k < |data| / 16 => BlockInt(BlockAt(data, k)))
  }

  /** The accumulator after the blocks `xs`, starting from `y`. */
  function Horner(h: Elem, y: Elem, xs: seq<Elem>): Elem
    decreases |xs|
  {
    if xs == [] then y else Horner(h, Mul(Add(y, xs[0]), h), xs[1..])
  }

  function Hash(h: Block, data: seq<Byte>): Block {
    IntBlock(Horner(BlockInt(h), 0, Blocks(data)))
  }

  /** `_ghash`, the loop; callers pass block-aligned data, which the source asserts. */
  method GHash(h_bytes: Block, data: seq<Byte>) returns (r: Block)
    requires |data| % 16 == 0
    ensures r == Hash(h_bytes, data)
  {
    hide Mul, Add, BlockInt;
    var h := BlockInt(h_bytes);
    var y: Elem := 0;
    var i := 0;
    assert Blocks(data)[0..] == Blocks(data);
    while i < |data|
      invariant 0 <= i <= |data| && i % 16 == 0
      invariant Horner(h, y, Blocks(data)[i / 16..]) == Horner(h, 0, Blocks(data))
    {
      var k := i / 16;
      var x := BlockInt(data[i..i + 16]);
      assert Blocks(data)[k] == x && Blocks(data)[k..][1..] == Blocks(data)[k + 1..];
      y := Gf128Mul(Add(y, x), h);
      i := i + 16;
    }
    r := IntBlock(y);
  }

  // ---- Closed form -------------------------------------------------------

  function Power(h: Elem, k: nat): Elem {
    if k == 0 then ONE else Mul(h, Power(h, k - 1))
  }

  /** The sum of X_i * H^(n-i+1) over the n blocks X_1, ..., X_n. */
  function WeightedSum(h: Elem, xs: seq<Elem>): Elem {
    if xs == [] then 0 else Add(Mul(xs[0], Power(h, |xs|)), WeightedSum(h, xs[1..]))
  }

  lemma {:induction false} HornerIsWeightedSum(h: Elem, y: Elem, xs: seq<Elem>)
    ensures Horner(h, y, xs) == Add(Mul(y, Power(h, |xs|)), WeightedSum(h, xs))
    decreases |xs|
  {
    hide Mul, Add;
    if xs == [] {
      MulOne(y);
      AddZero(y);
    } else {
      var p, rest := Power(h, |xs| - 1), WeightedSum(h, xs[1..]);
      HornerIsWeightedSum(h, Mul(Add(y, xs[0]), h), xs[1..]);
      MulAssoc(Add(y, xs[0]), h, p);
      MulAdd(Mul(h, p), y, xs[0]);
      AddAssoc(Mul(y, Mul(h, p)), Mul(xs[0], Mul(h, p)), rest);
    }
  }

  lemma MulZero(x: Elem)
    ensures Mul(0, x) == 0 && Mul(x, 0) == 0
  {
    hide MulFrom;
    MulFromZero(x, 0);
    MulComm(0, x);
  }

  /** The loop computes the polynomial of the blocks in H. */
  lemma HashIsWeightedSum(h: Block, data: seq<Byte>)
    ensures BlockInt(Hash(h, data)) == WeightedSum(BlockInt(h), Blocks(data))
  {
    var y := Horner(BlockInt(h), 0, Blocks(data));
    Pow2Of128();
    FromToBE(y, 16);
    hide FromBE, ToBE, Horner, Power, WeightedSum, Mul, Add;
    HornerIsWeightedSum(BlockInt(h), 0, Blocks(data));
    MulZero(Power(BlockInt(h), |Blocks(data)|));
    ZeroAdd(WeightedSum(BlockInt(h), Blocks(data)));
  }

  function AddAll(xs: seq<Elem>, ys: seq<Elem>): (r: seq<Elem>)
    requires |xs| == |ys|
    ensures |r| == |xs|
  {
    seq(|xs|, i requires 0 <= i < |xs| => Add(xs[i], ys[i]))
  }

  lemma {:induction false} WeightedSumAdd(h: Elem, xs: seq<Elem>, ys: seq<Elem>)
    requires |xs| == |ys|
    ensures WeightedSum(h, AddAll(xs, ys)) == Add(WeightedSum(h, xs), WeightedSum(h, ys))
  {
    hide Mul, Add;
    if xs == [] {
      AddZero(0);
    } else {
      var p := Power(h, |xs|);
      assert AddAll(xs, ys)[1..] == AddAll(xs[1..], ys[1..]);
      WeightedSumAdd(h, xs[1..], ys[1..]);
      MulAdd(p, xs[0], ys[0]);
      AddSwap(Mul(xs[0], p), WeightedSum(h, xs[1..]), Mul(ys[0], p), WeightedSum(h, ys[1..]));
    }
  }

  /** GHASH is linear in data of one length. */
  lemma HashLinear(h: Block, a: seq<Byte>, b: seq<Byte>)
    requires |a| == |b|
    ensures Hash(h, XorBytes(a, b)) == XorBytes(Hash(h, a), Hash(h, b))
  {
    var x := XorBytes(a, b);
    assert Blocks(x) == AddAll(Blocks(a), Blocks(b)) by {
      forall k | 0 <= k < |Blocks(x)| ensures Blocks(x)[k] == Add(Blocks(a)[k], Blocks(b)[k]) {
        assert BlockAt(x, k) == XorBytes(BlockAt(a, k), BlockAt(b, k));
        FromBEXor(BlockAt(a, k), BlockAt(b, k));
      }
    }
    hide WeightedSum, Blocks, AddAll, Mul, Horner;
    WeightedSumAdd(BlockInt(h), Blocks(a), Blocks(b));
    HashIsWeightedSum(h, a);
    HashIsWeightedSum(h, b);
    HashIsWeightedSum(h, x);
    FromBEXor(Hash(h, a), Hash(h, b));
    BlockIntInjective(Hash(h, x), XorBytes(Hash(h, a), Hash(h, b)));
  }

  lemma BlockIntInjective(a: Block, b: Block)
    ensures BlockInt(a) == BlockInt(b) <==> a == b
  {
    ToFromBE(a);
    ToFromBE(b);
  }

  // ---- Changing one block --------------------------------------------------

  /** Two hash values of data that differ in block i differ by that difference times a power of H. */
  lemma {:induction false} WeightedSumUpdate(h: Elem, xs: seq<Elem>, i: nat, x: Elem)
    requires i < |xs|
    ensures Add(WeightedSum(h, xs), WeightedSum(h, xs[i := x])) == Mul(Add(xs[i], x), Power(h, |xs| - i))
  {
    hide Mul, Add, Power;
    var p, ys := Power(h, |xs|), xs[i := x];
    AddSwap(Mul(xs[0], p), WeightedSum(h, xs[1..]), Mul(ys[0], p), WeightedSum(h, ys[1..]));
    if i == 0 {
      assert ys[1..] == xs[1..];
      AddSelf(WeightedSum(h, xs[1..]));
      MulAdd(p, xs[0], x);
      AddZero(Mul(Add(xs[0], x), p));
    } else {
      assert ys[1..] == xs[1..][i - 1 := x];
      WeightedSumUpdate(h, xs[1..], i - 1, x);
      AddSelf(Mul(xs[0], p));
      ZeroAdd(Mul(Add(xs[i], x), Power(h, |xs| - i)));
    }
  }

  /** The one fact about the field this development takes as a hypothesis. */
  ghost predicate NoZeroDivisors() {
    forall a: Elem, b: Elem :: Mul(a, b) == 0 ==> a == 0 || b == 0
  }

  lemma {:induction false} PowerNonzero(h: Elem, k: nat)
    requires NoZeroDivisors() && h != 0
    ensures Power(h, k) != 0
  {
    hide Mul;
    if k > 0 {
      PowerNonzero(h, k - 1);
    }
  }

  lemma AddIsZero(a: Elem, b: Elem)
    ensures Add(a, b) == 0 <==> a == b
  {
    XorIsZero(a, b);
  }

  /** Data that differs in block `k` only. */
  ghost predicate DifferAtBlock(a: seq<Byte>, b: seq<Byte>, k: nat) {
    && |a| == |b| && |a| % 16 == 0 && 16 * k + 16 <= |a|
    && BlockAt(a, k) != BlockAt(b, k)
    && forall i :: 0 <= i < |a| && i / 16 != k ==> a[i] == b[i]
  }

  lemma DifferingBlocks(a: seq<Byte>, b: seq<Byte>, k: nat)
    requires DifferAtBlock(a, b, k)
    ensures Blocks(b) == Blocks(a)[k := BlockInt(BlockAt(b, k))]
  {
    forall j: nat | 16 * j + 16 <= |a| && j != k ensures BlockAt(a, j) == BlockAt(b, j) {
      forall i | 0 <= i < 16 ensures BlockAt(a, j)[i] == BlockAt(b, j)[i] {
        assert (16 * j + i) / 16 == j;
        assert a[16 * j + i] == b[16 * j + i];
      }
    }
  }

  /** What the difference in block `k` contributes to the hash. */
  function Gap(h: Block, a: seq<Byte>, b: seq<Byte>, k: nat): Elem
    requires 16 * k + 16 <= |a| == |b|
  {
    Mul(Add(BlockInt(BlockAt(a, k)), BlockInt(BlockAt(b, k))), Power(BlockInt(h), |a| / 16 - k))
  }

  lemma BlocksAt(a: seq<Byte>, k: nat)
    requires 16 * k + 16 <= |a|
    ensures k < |Blocks(a)| == |a| / 16 && Blocks(a)[k] == BlockInt(BlockAt(a, k))
  {
    hide BlockInt;
  }

  lemma DifferingBounds(a: seq<Byte>, b: seq<Byte>, k: nat)
    requires DifferAtBlock(a, b, k)
    ensures |a| == |b| && |a| % 16 == 0 && 16 * k + 16 <= |a|
  {
  }

  lemma HashGap(h: Block, a: seq<Byte>, b: seq<Byte>, k: nat)
    requires DifferAtBlock(a, b, k)
    ensures Add(BlockInt(Hash(h, a)), BlockInt(Hash(h, b))) == Gap(h, a, b, k)
  {
    hide WeightedSum, Mul, Add, Power, Hash, BlockInt, Blocks, BlockAt, DifferAtBlock;
    DifferingBounds(a, b, k);
    BlocksAt(a, k);
    DifferingBlocks(a, b, k);
    HashIsWeightedSum(h, a);
    HashIsWeightedSum(h, b);
    WeightedSumUpdate(BlockInt(h), Blocks(a), k, BlockInt(BlockAt(b, k)));
  }

  /** Exactly when two inputs that differ in one block collide. */
  lemma OneBlockCollision(h: Block, a: seq<Byte>, b: seq<Byte>, k: nat)
    requires DifferAtBlock(a, b, k)
    ensures Hash(h, a) == Hash(h, b) <==> Gap(h, a, b, k) == 0
  {
    HashGap(h, a, b, k);
    hide Gap, Add, Hash, BlockInt;
    AddIsZero(BlockInt(Hash(h, a)), BlockInt(Hash(h, b)));
    BlockIntInjective(Hash(h, a), Hash(h, b));
  }

  /** Changing one block always changes the hash when H is not zero. */
  lemma OneBlockChangesHash(h: Block, a: seq<Byte>, b: seq<Byte>, k: nat)
    requires NoZeroDivisors() && BlockInt(h) != 0
    requires DifferAtBlock(a, b, k)
    ensures Hash(h, a) != Hash(h, b)
  {
    hide Hash, Power, BlockInt, Mul;
    OneBlockCollision(h, a, b, k);
    PowerNonzero(BlockInt(h), |a| / 16 - k);
    BlockIntInjective(BlockAt(a, k), BlockAt(b, k));
    AddIsZero(BlockInt(BlockAt(a, k)), BlockInt(BlockAt(b, k)));
  }
}
