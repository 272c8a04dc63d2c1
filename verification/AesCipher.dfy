/** The imperative face of crypto/aes.py: the round transformations update the state in
    place, and a block can be enciphered by the function or through the class. */
module AesCipher {
  import opened Bits
  import opened SBoxes
  import opened Wrappers
  import opened Aes

  method SubBytesInPlace(state: array<Byte>)
    requires state.Length == 16
    modifies state
    ensures state[..] == SubBytes(old(state[..]))
  {
    for i := 0 to 16
      invariant forall k :: 0 <= k < i ==> state[k] == SBox(old(state[k]))
      invariant forall k :: i <= k < 16 ==> state[k] == old(state[k])
    {
      state[i] := SBox(state[i]);
    }
  }

  method ShiftRowsInPlace(state: array<Byte>)
    requires state.Length == 16
    modifies state
    ensures state[..] == ShiftRows(old(state[..]))
  {
    hide ShiftRows;
    ghost var s: Block := state[..];
    state[1], state[5], state[9], state[13] := state[5], state[9], state[13], state[1];
    state[2], state[6], state[10], state[14] := state[10], state[14], state[2], state[6];
    state[3], state[7], state[11], state[15] := state[15], state[3], state[7], state[11];
    ShiftRowsTable(s);
    SameBlock(state[..], ShiftRows(s));
  }

  lemma ShiftRowsTable(s: Block)
    ensures var t := ShiftRows(s);
      && t[0] == s[0] && t[1] == s[5] && t[2] == s[10] && t[3] == s[15]
      && t[4] == s[4] && t[5] == s[9] && t[6] == s[14] && t[7] == s[3]
      && t[8] == s[8] && t[9] == s[13] && t[10] == s[2] && t[11] == s[7]
      && t[12] == s[12] && t[13] == s[1] && t[14] == s[6] && t[15] == s[11]
  {
  }

  lemma SameBlock(a: Block, b: Block)
    requires a[0] == b[0] && a[1] == b[1] && a[2] == b[2] && a[3] == b[3]
    requires a[4] == b[4] && a[5] == b[5] && a[6] == b[6] && a[7] == b[7]
    requires a[8] == b[8] && a[9] == b[9] && a[10] == b[10] && a[11] == b[11]
    requires a[12] == b[12] && a[13] == b[13] && a[14] == b[14] && a[15] == b[15]
    ensures a == b
  {
  }

  /** The order in which the source adds the four products of a row. */
  lemma RowOrder(a: Byte, b: Byte, c: Byte, d: Byte)
    ensures XorByte(XorByte(XorByte(d, GMul(a, 2)), GMul(b, 3)), c) == MixRow(a, b, c, d)
    ensures XorByte(XorByte(XorByte(c, d), GMul(a, 2)), GMul(b, 3)) == MixRow(a, b, c, d)
    ensures XorByte(XorByte(XorByte(GMul(b, 3), c), d), GMul(a, 2)) == MixRow(a, b, c, d)
  {
    hide GMul;
    XorBits();
    BitsExtensional(XorByte(XorByte(XorByte(d, GMul(a, 2)), GMul(b, 3)), c), MixRow(a, b, c, d));
    BitsExtensional(XorByte(XorByte(XorByte(c, d), GMul(a, 2)), GMul(b, 3)), MixRow(a, b, c, d));
    BitsExtensional(XorByte(XorByte(XorByte(GMul(b, 3), c), d), GMul(a, 2)), MixRow(a, b, c, d));
  }

  /** One pass of the loop in `_mix_columns`. */
  method MixOneColumn(s: Word) returns (r: Word)
    ensures r == MixColumn(s)
  {
    hide GMul, XorByte;
    var s0, s1, s2, s3 := s[0], s[1], s[2], s[3];
    var d0 := GMulLoop(s0, 2);
    var d1 := GMulLoop(s1, 2);
    var d2 := GMulLoop(s2, 2);
    var d3 := GMulLoop(s3, 2);
    var t0 := GMulLoop(s0, 3);
    var t1 := GMulLoop(s1, 3);
    var t2 := GMulLoop(s2, 3);
    var t3 := GMulLoop(s3, 3);
    r := [XorByte(XorByte(XorByte(d0, t1), s2), s3),
          XorByte(XorByte(XorByte(s0, d1), t2), s3),
          XorByte(XorByte(XorByte(s0, s1), d2), t3),
          XorByte(XorByte(XorByte(t0, s1), s2), d3)];
    RowOrder(s1, s2, s3, s0);
    RowOrder(s2, s3, s0, s1);
    RowOrder(s3, s0, s1, s2);
  }

  lemma MixColumnsEntries(s: Block, c: nat)
    requires c < 4
    ensures MixColumns(s)[4 * c] == MixColumn(Column(s, c))[0]
    ensures MixColumns(s)[4 * c + 1] == MixColumn(Column(s, c))[1]
    ensures MixColumns(s)[4 * c + 2] == MixColumn(Column(s, c))[2]
    ensures MixColumns(s)[4 * c + 3] == MixColumn(Column(s, c))[3]
  {
    hide MixColumn, Column;
  }

  method MixColumnsInPlace(state: array<Byte>)
    requires state.Length == 16
    modifies state
    ensures state[..] == MixColumns(old(state[..]))
  {
    hide MixColumn, MixColumns;
    ghost var s: Block := state[..];
    for c := 0 to 4
      invariant forall k :: 0 <= k < 4 * c ==> state[k] == MixColumns(s)[k]
      invariant forall k :: 4 * c <= k < 16 ==> state[k] == s[k]
    {
      var s0, s1, s2, s3 := state[4 * c], state[4 * c + 1], state[4 * c + 2], state[4 * c + 3];
      var col := MixOneColumn([s0, s1, s2, s3]);
      MixColumnsEntries(s, c);
      state[4 * c] := col[0];
      state[4 * c + 1] := col[1];
      state[4 * c + 2] := col[2];
      state[4 * c + 3] := col[3];
    }
  }

  method AddRoundKeyInPlace(state: array<Byte>, roundKey: Block)
    requires state.Length == 16
    modifies state
    ensures state[..] == AddRoundKey(old(state[..]), roundKey)
  {
    for i := 0 to 16
      invariant forall k :: 0 <= k < i ==> state[k] == XorByte(old(state[k]), roundKey[k])
      invariant forall k :: i <= k < 16 ==> state[k] == old(state[k])
    {
      state[i] := XorByte(state[i], roundKey[i]);
    }
  }

  /** The rounds, which the function and the method of the class both spell out. */
  method RunRounds(roundKeys: seq<Block>, block: Block) returns (out: Block)
    requires |roundKeys| >= 2
    ensures out == EncryptWith(roundKeys, block)
  {
    hide SubBytes, ShiftRows, MixColumns, AddRoundKey;
    var nr := |roundKeys| - 1;
    var state := new Byte[16](i requires 0 <= i < 16 => block[i]);
    assert state[..] == block;
    AddRoundKeyInPlace(state, roundKeys[0]);
    for r := 1 to nr
      invariant state[..] == AfterRounds(roundKeys, block, r - 1)
    {
      SubBytesInPlace(state);
      ShiftRowsInPlace(state);
      MixColumnsInPlace(state);
      AddRoundKeyInPlace(state, roundKeys[r]);
    }
    SubBytesInPlace(state);
    ShiftRowsInPlace(state);
    AddRoundKeyInPlace(state, roundKeys[nr]);
    out := state[..];
  }

  /** The module-level `encrypt_block`. */
  method EncryptBlock(key: seq<Byte>, block: seq<Byte>) returns (r: Result<Block, string>)
    ensures r.Ok? <==> |block| == 16 && ValidKey(key)
    ensures r.Ok? ==> r.value == Encrypt(key, block)
  {
    if |block| != 16 {
      return Err("AES block must be exactly 16 bytes");
    }
    var roundKeys := KeyExpansion(key);
    if roundKeys.Err? {
      return Err(roundKeys.error);
    }
    var out := RunRounds(roundKeys.value, block);
    r := Ok(out);
  }

  /** A cipher object holds the expanded key of one key. */
  class AES {
    const key: seq<Byte>
    const roundKeys: seq<Block>

    ghost predicate Valid() {
      ValidKey(key) && roundKeys == RoundKeys(key)
    }

    /** The constructor raises unless the key has 16 or 32 bytes; see `MakeAes`. */
    constructor (key: seq<Byte>, roundKeys: seq<Block>)
      requires ValidKey(key) && roundKeys == RoundKeys(key)
      ensures Valid() && this.key == key
    {
      this.key := key;
      this.roundKeys := roundKeys;
    }

    /** `AES.encrypt_block`; agrees with the module-level function on every input. */
    method EncryptBlock(block: seq<Byte>) returns (r: Result<Block, string>)
      requires Valid()
      ensures r.Ok? <==> |block| == 16
      ensures r.Ok? ==> r.value == Encrypt(key, block)
    {
      if |block| != 16 {
        return Err("AES block must be exactly 16 bytes");
      }
      var out := RunRounds(roundKeys, block);
      r := Ok(out);
    }
  }

  /** `AES(key)`, with the exception it raises on a bad key. */
  method MakeAes(key: seq<Byte>) returns (r: Result<AES, string>)
    ensures r.Ok? <==> ValidKey(key)
    ensures r.Ok? ==> fresh(r.value) && r.value.Valid() && r.value.key == key
  {
    var roundKeys := KeyExpansion(key);
    if roundKeys.Err? {
      return Err("AES key must be 16 or 32 bytes");
    }
    var aes := new AES(key, roundKeys.value);
    r := Ok(aes);
  }
}
