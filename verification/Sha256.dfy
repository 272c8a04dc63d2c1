/** crypto/sha256.py: the one-shot hash (FIPS 180-4), its padding, and the streaming class
    that computes the same function. */
module Sha256 {
  import opened Bits
  import opened Wrappers

  type Word = x: int | 0 <= x < 0x1_00000000
  type HashState = s: seq<Word> | |s| == 8 witness [0, 0, 0, 0, 0, 0, 0, 0]

  // The round constants, in eight rows as in crypto/sha256.py.
  const K0: seq<Word> :=
    [0x428a2f98, 0x71374491, 0xb5c0fbcf, 0xe9b5dba5, 0x3956c25b, 0x59f111f1, 0x923f82a4, 0xab1c5ed5]
  const K1: seq<Word> :=
    [0xd807aa98, 0x12835b01, 0x243185be, 0x550c7dc3, 0x72be5d74, 0x80deb1fe, 0x9bdc06a7, 0xc19bf174]
  const K2: seq<Word> :=
    [0xe49b69c1, 0xefbe4786, 0x0fc19dc6, 0x240ca1cc, 0x2de92c6f, 0x4a7484aa, 0x5cb0a9dc, 0x76f988da]
  const K3: seq<Word> :=
    [0x983e5152, 0xa831c66d, 0xb00327c8, 0xbf597fc7, 0xc6e00bf3, 0xd5a79147, 0x06ca6351, 0x14292967]
  const K4: seq<Word> :=
    [0x27b70a85, 0x2e1b2138, 0x4d2c6dfc, 0x53380d13, 0x650a7354, 0x766a0abb, 0x81c2c92e, 0x92722c85]
  const K5: seq<Word> :=
    [0xa2bfe8a1, 0xa81a664b, 0xc24b8b70, 0xc76c51a3, 0xd192e819, 0xd6990624, 0xf40e3585, 0x106aa070]
  const K6: seq<Word> :=
    [0x19a4c116, 0x1e376c08, 0x2748774c, 0x34b0bcb5, 0x391c0cb3, 0x4ed8aa4a, 0x5b9cca4f, 0x682e6ff3]
  const K7: seq<Word> :=
    [0x748f82ee, 0x78a5636f, 0x84c87814, 0x8cc70208, 0x90befffa, 0xa4506ceb, 0xbef9a3f7, 0xc67178f2]
  const K: seq<Word> := K0 + K1 + K2 + K3 + K4 + K5 + K6 + K7

  const H_INIT: HashState := [
    0x6a09e667, 0xbb67ae85, 0x3c6ef372, 0xa54ff53a, 0x510e527f, 0x9b05688c, 0x1f83d9ab, 0x5be0cd19
  ]

  /** Lengths whose bit count fits the 64-bit field of the padding. */
  const LEN_LIMIT: int := 0x20000000_00000000

  // ---- Word functions (section 4.1.2 of FIPS 180-4) --------------------------

  function Rotr(x: Word, n: nat): Word
    requires n <= 32
  {
    Or(Shr(x, n), Shl(x, 32 - n)) % TWO32
  }

  function Ch(x: Word, y: Word, z: Word): nat {
    Xor(And(x, y), And(TWO32 - 1 - x, z))
  }

  function Maj(x: Word, y: Word, z: Word): nat {
    Xor(Xor(And(x, y), And(x, z)), And(y, z))
  }

  function BigSigma0(x: Word): nat {
    Xor(Xor(Rotr(x, 2), Rotr(x, 13)), Rotr(x, 22))
  }

  function BigSigma1(x: Word): nat {
    Xor(Xor(Rotr(x, 6), Rotr(x, 11)), Rotr(x, 25))
  }

  function SmallSigma0(x: Word): nat {
    Xor(Xor(Rotr(x, 7), Rotr(x, 18)), Shr(x, 3))
  }

  function SmallSigma1(x: Word): nat {
    Xor(Xor(Rotr(x, 17), Rotr(x, 19)), Shr(x, 10))
  }

  // ---- Compression (section 6.2.2 of FIPS 180-4) -------------------------------

  function FromBE4(s: seq<Byte>): Word
    requires |s| == 4
  {
    Pow256Fields();
    FromBE(s)
  }

  function NextWord(w: seq<Word>): Word
    requires |w| >= 16
  {
    var t := |w|;
    (SmallSigma1(w[t - 2]) + w[t - 7] + SmallSigma0(w[t - 15]) + w[t - 16]) % TWO32
  }

  /** The first `t` words of the message schedule. */
  function Schedule(block: seq<Byte>, t: nat): (w: seq<Word>)
    requires |block| == 64
    ensures |w| == t
  {
    if t == 0 then []
    else if t <= 16 then Schedule(block, t - 1) + [FromBE4(block[4 * t - 4..4 * t])]
    else Schedule(block, t - 1) + [NextWord(Schedule(block, t - 1))]
  }

  /** One round on the working variables a, b, c, d, e, f, g, h. */
  function Round(v: HashState, k: Word, w: Word): HashState {
    var T1 := (v[7] + BigSigma1(v[4]) + Ch(v[4], v[5], v[6]) + k + w) % TWO32;
    var T2 := (BigSigma0(v[0]) + Maj(v[0], v[1], v[2])) % TWO32;
    [(T1 + T2) % TWO32, v[0], v[1], v[2], (v[3] + T1) % TWO32, v[4], v[5], v[6]]
  }

  function Rounds(v: HashState, w: seq<Word>, t: nat): HashState
    requires t <= 64 <= |w|
  {
    if t == 0 then v else Round(Rounds(v, w, t - 1), K[t - 1], w[t - 1])
  }

  function Compress(block: seq<Byte>, h: HashState): HashState
    requires |block| == 64
  {
    var v := Rounds(h, Schedule(block, 64), 64);
    seq(8, i requires 0 <= i < 8 => (h[i] + v[i]) % TWO32)
  }

  /** Step 1 of `_compress`: the schedule, filled in place. */
  method FillSchedule(block: seq<Byte>) returns (w: seq<Word>)
    requires |block| == 64
    ensures w == Schedule(block, 64)
  {
    hide NextWord, FromBE4, Schedule, SmallSigma0, SmallSigma1;
    var W: array<Word> := new Word[64](_ => 0);
    ScheduleStart(block);
    for t := 0 to 16
      invariant W[..t] == Schedule(block, t)
    {
      W[t] := FromBE4(block[t * 4..t * 4 + 4]);
      ScheduleHead(block, t);
      assert W[..t + 1] == W[..t] + [W[t]];
    }
    for t := 16 to 64
      invariant W[..t] == Schedule(block, t)
    {
      ScheduleTail(block, t);
      W[t] := (SmallSigma1(W[t - 2]) + W[t - 7] + SmallSigma0(W[t - 15]) + W[t - 16]) % TWO32;
      assert W[..t + 1] == W[..t] + [W[t]];
    }
    w := W[..];
    assert W[..64] == w;
  }

  /** Step 3 of `_compress`: the rounds on the working variables. */
  method RunRounds(h: HashState, w: seq<Word>) returns (v: HashState)
    requires |w| == 64
    ensures v == Rounds(h, w, 64)
  {
    hide Rounds, BigSigma0, BigSigma1, Ch, Maj;
    var a, b, c, d, e, f, g, hh := h[0], h[1], h[2], h[3], h[4], h[5], h[6], h[7];
    RoundsStart(h, w);
    for t := 0 to 64
      invariant [a, b, c, d, e, f, g, hh] == Rounds(h, w, t)
    {
      RoundsStep(h, w, t);
      var T1 := (hh + BigSigma1(e) + Ch(e, f, g) + K[t] + w[t]) % TWO32;
      var T2 := (BigSigma0(a) + Maj(a, b, c)) % TWO32;
      hh := g;
      g := f;
      f := e;
      e := (d + T1) % TWO32;
      d := c;
      c := b;
      b := a;
      a := (T1 + T2) % TWO32;
    }
    v := [a, b, c, d, e, f, g, hh];
  }

  /** `_compress`. */
  method CompressLoop(block: seq<Byte>, h: HashState) returns (r: HashState)
    requires |block| == 64
    ensures r == Compress(block, h)
  {
    hide Rounds, Schedule;
    var w := FillSchedule(block);
    var v := RunRounds(h, w);
    r := [(h[0] + v[0]) % TWO32, (h[1] + v[1]) % TWO32, (h[2] + v[2]) % TWO32, (h[3] + v[3]) % TWO32,
          (h[4] + v[4]) % TWO32, (h[5] + v[5]) % TWO32, (h[6] + v[6]) % TWO32, (h[7] + v[7]) % TWO32];
  }

  lemma ScheduleStart(block: seq<Byte>)
    requires |block| == 64
    ensures Schedule(block, 0) == []
  {
  }

  lemma ScheduleHead(block: seq<Byte>, t: nat)
    requires |block| == 64 && t < 16
    ensures Schedule(block, t + 1) == Schedule(block, t) + [FromBE4(block[4 * t..4 * t + 4])]
  {
  }

  lemma ScheduleTail(block: seq<Byte>, t: nat)
    requires |block| == 64 && 16 <= t
    ensures Schedule(block, t + 1) == Schedule(block, t) + [NextWord(Schedule(block, t))]
    ensures var w := Schedule(block, t);
      NextWord(w) == (SmallSigma1(w[t - 2]) + w[t - 7] + SmallSigma0(w[t - 15]) + w[t - 16]) % TWO32
  {
    hide SmallSigma0, SmallSigma1;
  }

  lemma RoundsStart(h: HashState, w: seq<Word>)
    requires |w| == 64
    ensures Rounds(h, w, 0) == h == [h[0], h[1], h[2], h[3], h[4], h[5], h[6], h[7]]
  {
  }

  lemma RoundsStep(h: HashState, w: seq<Word>, t: nat)
    requires t < 64 == |w|
    ensures Rounds(h, w, t + 1) == Round(Rounds(h, w, t), K[t], w[t])
  {
    hide Round;
  }

  // ---- Padding (section 5.1.1 of FIPS 180-4) -----------------------------------

  /** Zero bytes needed after the 0x80 byte to leave room for the length. */
  function ZeroCount(n: nat): (z: nat)
    ensures z < 64 && (n + 1 + z) % 64 == 56
  {
    if n % 64 <= 55 then 55 - n % 64 else 119 - n % 64
  }

  /** The bit length, as `to_bytes` writes it when it fits. */
  function LengthField(n: nat): (r: seq<Byte>)
    ensures |r| == 8
  {
    ToBE8((8 * n) % TWO64)
  }

  function PadTail(n: nat): (r: seq<Byte>)
    ensures (n + |r|) % 64 == 0
  {
    RoomForLength(n + 1 + ZeroCount(n));
    [0x80] + Zeros(ZeroCount(n)) + LengthField(n)
  }

  lemma RoomForLength(n: nat)
    requires n % 64 == 56
    ensures (n + 8) % 64 == 0
  {
  }

  function Pad(message: seq<Byte>): (r: seq<Byte>)
    ensures |r| % 64 == 0
  {
    message + PadTail(|message|)
  }

  /** The padding loop shared by `_pad` and `digest`; `total` is the length hashed so far. */
  method PadLoop(data: seq<Byte>, total: nat) returns (padded: seq<Byte>)
    requires total % 64 == |data| % 64
    ensures padded == data + PadTail(total)
  {
    hide LengthField;
    padded := data + [0x80];
    ghost var z := 0;
    ZeroCountShift(total, |data|);
    while |padded| % 64 != 56
      invariant z <= ZeroCount(total)
      invariant padded == data + [0x80] + Zeros(z)
      decreases ZeroCount(total) - z
    {
      FirstFit(|data|, z);
      padded := padded + [0];
      z := z + 1;
      assert Zeros(z) == Zeros(z - 1) + [0];
    }
    FirstFit(|data|, z);
    padded := padded + LengthField(total);
    assert padded == data + PadTail(total);
  }

  lemma ZeroCountShift(m: nat, n: nat)
    requires m % 64 == n % 64
    ensures ZeroCount(m) == ZeroCount(n)
  {
  }

  lemma FirstFit(n: nat, z: nat)
    requires z <= ZeroCount(n)
    ensures (n + 1 + z) % 64 == 56 <==> z == ZeroCount(n)
  {
  }

  lemma LengthFieldInjective(m: nat, n: nat)
    requires m < LEN_LIMIT && n < LEN_LIMIT
    ensures LengthField(m) == LengthField(n) ==> m == n
  {
    hide ToBE8;
    FromToBE8(8 * m);
    FromToBE8(8 * n);
  }

  /** Distinct messages within the length limit have distinct paddings. */
  lemma PadInjective(m: seq<Byte>, n: seq<Byte>)
    requires |m| < LEN_LIMIT && |n| < LEN_LIMIT
    requires Pad(m) == Pad(n)
    ensures m == n
  {
    hide LengthField, ZeroCount;
    var p, q := Pad(m), Pad(n);
    assert p[|p| - 8..] == LengthField(|m|) && q[|q| - 8..] == LengthField(|n|);
    LengthFieldInjective(|m|, |n|);
    assert p[..|m|] == m && q[..|m|] == n;
  }

  // ---- One-shot hash --------------------------------------------------------------

  /** The hash state after every full block of `data`. */
  function Fold(h: HashState, data: seq<Byte>): HashState
    decreases |data|
  {
    if |data| < 64 then h else Fold(Compress(data[..64], h), data[64..])
  }

  lemma {:induction false} FoldAppend(h: HashState, a: seq<Byte>, b: seq<Byte>)
    requires |a| % 64 == 0
    ensures Fold(h, a + b) == Fold(Fold(h, a), b)
    decreases |a|
  {
    hide Compress;
    if a == [] {
      assert a + b == b;
    } else {
      assert |a| >= 64;
      assert (a + b)[..64] == a[..64] && (a + b)[64..] == a[64..] + b;
      FoldAppend(Compress(a[..64], h), a[64..], b);
    }
  }

  lemma FoldOne(h: HashState, block: seq<Byte>)
    requires |block| == 64
    ensures Fold(h, block) == Compress(block, h)
  {
    hide Compress;
    assert block[..64] == block;
  }

  function Output(h: HashState): (r: seq<Byte>)
    ensures |r| == 32
  {
    ToBE4(h[0]) + ToBE4(h[1]) + ToBE4(h[2]) + ToBE4(h[3]) + ToBE4(h[4]) + ToBE4(h[5]) + ToBE4(h[6]) + ToBE4(h[7])
  }

  /** The SHA-256 digest of a message. */
  function Digest(message: seq<Byte>): (r: seq<Byte>)
    ensures |r| == 32
  {
    Output(Fold(H_INIT, Pad(message)))
  }

  /** The loop over padded blocks shared by `sha256` and `digest`. */
  method FoldLoop(start: HashState, data: seq<Byte>) returns (h: HashState)
    requires |data| % 64 == 0
    ensures h == Fold(start, data)
  {
    hide Compress, Fold;
    h := start;
    var i := 0;
    FoldEmpty(start);
    while i < |data|
      invariant 0 <= i <= |data| && i % 64 == 0
      invariant h == Fold(start, data[..i])
    {
      FoldAppend(start, data[..i], data[i..i + 64]);
      FoldOne(h, data[i..i + 64]);
      assert data[..i] + data[i..i + 64] == data[..i + 64];
      h := CompressLoop(data[i..i + 64], h);
      i := i + 64;
    }
    assert data[..i] == data;
  }

  lemma FoldEmpty(h: HashState)
    ensures Fold(h, []) == h
  {
  }

  /** `sha256`; the length field raises OverflowError on longer messages. */
  method Sha256OneShot(message: seq<Byte>) returns (r: Result<seq<Byte>, string>)
    ensures r == if |message| < LEN_LIMIT then Ok(Digest(message)) else Err("OverflowError")
  {
    hide Fold, PadTail;
    if |message| >= LEN_LIMIT {
      return Err("OverflowError");
    }
    var padded := PadLoop(message, |message|);
    var h := FoldLoop(H_INIT, padded);
    r := Ok(Output(h));
  }

  // ---- Streaming hash ---------------------------------------------------------------

  /** Where the full blocks of a message end. */
  function FullBlocks(n: nat): (k: nat)
    ensures k <= n < k + 64 && k % 64 == 0
  {
    n / 64 * 64
  }

  /** `class Sha256`, with the bytes fed so far as a ghost. */
  class Stream {
    var h: HashState
    var buffer: seq<Byte>
    var length: nat
    var finalized: bool
    ghost var message: seq<Byte>

    ghost predicate Valid()
      reads this
    {
      && length == |message|
      && buffer == message[FullBlocks(|message|)..]
      && h == Fold(H_INIT, message[..FullBlocks(|message|)])
    }

    constructor ()
      ensures Valid() && message == [] && !finalized
    {
      h := H_INIT;
      buffer := [];
      length := 0;
      finalized := false;
      message := [];
      new;
      FoldEmpty(H_INIT);
      assert message[..0] == [];
    }

    method Update(data: seq<Byte>) returns (r: Result<(), string>)
      requires Valid()
      modifies this
      ensures Valid() && finalized == old(finalized)
      ensures r.Err? <==> old(finalized)
      ensures message == if r.Err? then old(message) else old(message) + data
    {
      hide Fold, Compress, FullBlocks;
      if finalized {
        return Err("Sha256: update() after digest()");
      }
      length := length + |data|;
      var buf := buffer + data;
      var n_full := |buf| / 64;
      ghost var done := message[..FullBlocks(|message|)];
      assert done + buf[..0] == done;
      for i := 0 to n_full
        invariant h == Fold(H_INIT, done + buf[..64 * i])
        invariant buffer == old(buffer) && message == old(message) && length == old(length) + |data|
        invariant finalized == old(finalized)
      {
        FoldNext(H_INIT, done, buf, i);
        h := CompressLoop(buf[i * 64..i * 64 + 64], h);
      }
      buffer := buf[n_full * 64..];
      assert message + data == done + buf;
      message := message + data;
      SameSplit(done, buf);
      r := Ok(());
    }

    /** The digest of everything fed, however it was split into updates. */
    method Finish() returns (r: Result<seq<Byte>, string>)
      requires Valid()
      modifies this
      ensures Valid() && finalized && message == old(message)
      ensures r == if old(finalized) then Err("Sha256: digest() called twice")
                   else if |message| < LEN_LIMIT then Ok(Digest(message))
                   else Err("OverflowError")
    {
      hide Fold, Compress, PadTail;
      if finalized {
        return Err("Sha256: digest() called twice");
      }
      finalized := true;
      if length >= LEN_LIMIT {
        return Err("OverflowError");
      }
      var k := FullBlocks(length);
      var pad := PadLoop(buffer, length);
      FoldAppend(H_INIT, message[..k], pad);
      assert message[..k] + pad == Pad(message);
      var out := FoldLoop(h, pad);
      r := Ok(Output(out));
    }
  }

  lemma FoldNext(h: HashState, done: seq<Byte>, buf: seq<Byte>, i: nat)
    requires |done| % 64 == 0 && 64 * i + 64 <= |buf|
    ensures Fold(h, done + buf[..64 * (i + 1)])
         == Compress(buf[i * 64..i * 64 + 64], Fold(h, done + buf[..64 * i]))
  {
    hide Fold, Compress;
    var block := buf[i * 64..i * 64 + 64];
    FoldAppend(h, done + buf[..64 * i], block);
    FoldOne(Fold(h, done + buf[..64 * i]), block);
    assert done + buf[..64 * i] + block == done + buf[..64 * (i + 1)];
  }

  lemma SameSplit(done: seq<Byte>, buf: seq<Byte>)
    requires |done| % 64 == 0
    ensures var k := FullBlocks(|done + buf|);
      (done + buf)[..k] == done + buf[..|buf| / 64 * 64] && (done + buf)[k..] == buf[|buf| / 64 * 64..]
  {
    assert (|done| + |buf|) / 64 == |done| / 64 + |buf| / 64;
  }

  /** Feeds a list of chunks to a fresh stream. */
  method HashChunks(chunks: seq<seq<Byte>>) returns (r: Result<seq<Byte>, string>)
    ensures r == if |Concat(chunks)| < LEN_LIMIT then Ok(Digest(Concat(chunks))) else Err("OverflowError")
  {
    hide Digest, Stream.Valid;
    var stream := new Stream();
    for i := 0 to |chunks|
      invariant stream.Valid() && !stream.finalized && fresh(stream)
      invariant stream.message + Concat(chunks[i..]) == Concat(chunks)
    {
      assert chunks[i..][1..] == chunks[i + 1..];
      var u := stream.Update(chunks[i]);
    }
    assert stream.message == Concat(chunks);
    r := stream.Finish();
  }

  function Concat(chunks: seq<seq<Byte>>): seq<Byte> {
    if chunks == [] then [] else chunks[0] + Concat(chunks[1..])
  }
}
