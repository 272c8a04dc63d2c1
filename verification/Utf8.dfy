/** Python strings and their strict UTF-8 codec (section 3 of RFC 3629), as `str.encode` and
    `bytes.decode` apply it; hexadecimal text of byte strings. */
module Utf8 {
  import opened Bits
  import opened Wrappers

  type CodePoint = c: int | 0 <= c < 0x110000

  /** A Python string: code points, lone surrogates included. */
  type Str = seq<CodePoint>

  /** A literal of the program text. */
  function Ascii(text: string): (s: Str)
    ensures |s| == |text|
    ensures forall i :: 0 <= i < |text| ==> s[i] == text[i] as int
  {
    seq(|text|, i requires 0 <= i < |text| => text[i] as int)
  }

  /** A bytes literal of the program text. */
  function AsciiBytes(text: string): (s: seq<Byte>)
    requires forall i :: 0 <= i < |text| ==> text[i] as int < 128
    ensures |s| == |text|
    ensures forall i :: 0 <= i < |text| ==> s[i] == text[i] as int
  {
    seq(|text|, i requires 0 <= i < |text| => text[i] as int)
  }

  // ---- Encoding ----------------------------------------------------------------

  predicate IsSurrogate(c: int) {
    0xD800 <= c <= 0xDFFF
  }

  /** A continuation byte holding six bits. */
  function Tail(v: int): Byte
    requires 0 <= v < 64
  {
    0x80 + v
  }

  /** The bytes of one code point; surrogates have none. */
  function EncodeOne(c: CodePoint): Option<seq<Byte>> {
    if c < 0x80 then Some([c])
    else if c < 0x800 then Some([0xC0 + c / 64, Tail(c % 64)])
    else if IsSurrogate(c) then None
    else if c < 0x10000 then Some([0xE0 + c / 4096, Tail(c / 64 % 64), Tail(c % 64)])
    else Some([0xF0 + c / 262144, Tail(c / 4096 % 64), Tail(c / 64 % 64), Tail(c % 64)])
  }

  /** `s.encode("utf-8")`; None stands for UnicodeEncodeError. */
  function Encode(s: Str): Option<seq<Byte>> {
    if s == [] then Some([])
    else if EncodeOne(s[0]).None? || Encode(s[1..]).None? then None
    else Some(EncodeOne(s[0]).value + Encode(s[1..]).value)
  }

  /** Six bits behind the mark of a continuation byte. */
  predicate Holds6(b: int, v: int) {
    0 <= v < 64 && b == 0x80 + v
  }

  /** The table of section 3 of RFC 3629: one to four bytes by the size of the code point, none for
      surrogates, and six bits of it in every byte but the first. */
  predicate Spells(c: CodePoint, b: seq<Byte>, v0: int, v1: int, v2: int, v3: int) {
    if c < 0x80 then |b| == 1 && b[0] == c
    else if c < 0x800 then |b| == 2 && c == v0 * 0x40 + v1 && 0 <= v0 && b[0] == 0xC0 + v0 && Holds6(b[1], v1)
    else if c < 0x10000 then
      |b| == 3 && c == v0 * 0x1000 + v1 * 0x40 + v2 && 0 <= v0 && b[0] == 0xE0 + v0 && Holds6(b[1], v1)
      && Holds6(b[2], v2)
    else
      |b| == 4 && c == v0 * 0x40000 + v1 * 0x1000 + v2 * 0x40 + v3 && 0 <= v0 && b[0] == 0xF0 + v0
      && Holds6(b[1], v1) && Holds6(b[2], v2) && Holds6(b[3], v3)
  }

  lemma EncodedOne(c: CodePoint, b: seq<Byte>, v0: int, v1: int, v2: int, v3: int)
    requires !IsSurrogate(c) && Spells(c, b, v0, v1, v2, v3)
    ensures EncodeOne(c) == Some(b)
  {
    hide EncodeOne;
    if c < 0x80 {
      assert b == [b[0]];
      assert EncodeOne(c) == Some([c]) by { EncodedOneByte(c); }
    } else if c < 0x800 {
      assert b == [b[0], b[1]];
      EncodedTwo(c, v0, v1);
    } else if c < 0x10000 {
      assert b == [b[0], b[1], b[2]];
      EncodedThree(c, v0, v1, v2);
    } else {
      assert b == [b[0], b[1], b[2], b[3]];
      EncodedFour(c, v0, v1, v2, v3);
    }
  }

  lemma EncodedOneByte(c: CodePoint)
    requires c < 0x80
    ensures EncodeOne(c) == Some([c])
  {
  }

  lemma EncodedTwo(c: CodePoint, v0: int, v1: int)
    requires 0x80 <= c < 0x800 && c == v0 * 0x40 + v1 && 0 <= v0 && 0 <= v1 < 64
    ensures EncodeOne(c) == Some([0xC0 + v0, 0x80 + v1])
  {
    DivUnique(c, 64, v0, v1);
  }

  lemma EncodedThree(c: CodePoint, v0: int, v1: int, v2: int)
    requires 0x800 <= c < 0x10000 && !IsSurrogate(c) && c == v0 * 0x1000 + v1 * 0x40 + v2
    requires 0 <= v0 && 0 <= v1 < 64 && 0 <= v2 < 64
    ensures EncodeOne(c) == Some([0xE0 + v0, 0x80 + v1, 0x80 + v2])
  {
    DivUnique(c, 64, v0 * 0x40 + v1, v2);
    DivUnique(v0 * 0x40 + v1, 64, v0, v1);
    DivUnique(c, 4096, v0, v1 * 0x40 + v2);
  }

  lemma EncodedFour(c: CodePoint, v0: int, v1: int, v2: int, v3: int)
    requires 0x10000 <= c && c == v0 * 0x40000 + v1 * 0x1000 + v2 * 0x40 + v3
    requires 0 <= v0 && 0 <= v1 < 64 && 0 <= v2 < 64 && 0 <= v3 < 64
    ensures EncodeOne(c) == Some([0xF0 + v0, 0x80 + v1, 0x80 + v2, 0x80 + v3])
  {
    DivUnique(c, 64, v0 * 0x1000 + v1 * 0x40 + v2, v3);
    DivUnique(v0 * 0x1000 + v1 * 0x40 + v2, 64, v0 * 0x40 + v1, v2);
    DivUnique(c, 4096, v0 * 0x40 + v1, v2 * 0x40 + v3);
    DivUnique(v0 * 0x40 + v1, 64, v0, v1);
    DivUnique(c, 262144, v0, v1 * 0x1000 + v2 * 0x40 + v3);
  }

  // ---- Decoding ------------------------------------------------------------------

  datatype Char = Char(code: CodePoint, size: nat)

  predicate IsTail(b: seq<Byte>, i: nat) {
    i < |b| && 0x80 <= b[i] < 0xC0
  }

  function Bits6(b: seq<Byte>, i: nat): (v: nat)
    requires IsTail(b, i)
    ensures v < 64
  {
    b[i] - 0x80
  }

  /** The code point at the front of `b` and the bytes it takes: no overlong form, no
      surrogate, nothing past U+10FFFF. */
  function DecodeOne(b: seq<Byte>): (r: Option<Char>)
    requires b != []
    ensures r.Some? ==> 1 <= r.value.size <= |b|
  {
    if b[0] < 0x80 then Some(Char(b[0], 1))
    else if b[0] < 0xC2 then None
    else if b[0] < 0xE0 then
      if IsTail(b, 1) then Some(Char(64 * (b[0] - 0xC0) + Bits6(b, 1), 2)) else None
    else if b[0] < 0xF0 then
      if !IsTail(b, 1) || !IsTail(b, 2) then None
      else
        var c := 4096 * (b[0] - 0xE0) + 64 * Bits6(b, 1) + Bits6(b, 2);
        if c < 0x800 || IsSurrogate(c) then None else Some(Char(c, 3))
    else if b[0] < 0xF5 then
      if !IsTail(b, 1) || !IsTail(b, 2) || !IsTail(b, 3) then None
      else
        var c := 262144 * (b[0] - 0xF0) + 4096 * Bits6(b, 1) + 64 * Bits6(b, 2) + Bits6(b, 3);
        if c < 0x10000 || c > 0x10FFFF then None else Some(Char(c, 4))
    else None
  }

  /** `b.decode("utf-8")`; None stands for UnicodeDecodeError. */
  function Decode(b: seq<Byte>): Option<Str>
    decreases |b|
  {
    if b == [] then Some([])
    else
      match DecodeOne(b)
      case None => None
      case Some(ch) =>
        var rest := Decode(b[ch.size..]);
        if rest.None? then None else Some([ch.code] + rest.value)
  }

  // ---- The two are inverse -----------------------------------------------------------

  /** Six-bit digits: a code point and its digits determine each other. */
  lemma Digits(c: nat)
    ensures c / 64 / 64 == c / 4096 && c / 4096 / 64 == c / 262144
    ensures c == 64 * (c / 64) + c % 64
    ensures c == 4096 * (c / 4096) + 64 * (c / 64 % 64) + c % 64
    ensures c == 262144 * (c / 262144) + 4096 * (c / 4096 % 64) + 64 * (c / 64 % 64) + c % 64
  {
  }

  lemma Join(a: nat, x: nat)
    requires x < 64
    ensures (64 * a + x) / 64 == a && (64 * a + x) % 64 == x
  {
  }

  lemma Encode4(c: CodePoint, rest: seq<Byte>)
    requires c >= 0x10000
    ensures DecodeOne(EncodeOne(c).value + rest) == Some(Char(c, 4))
  {
    Digits(c);
    var b := EncodeOne(c).value + rest;
    assert b[0] == 0xF0 + c / 262144 && b[1] == Tail(c / 4096 % 64);
    assert b[2] == Tail(c / 64 % 64) && b[3] == Tail(c % 64);
    assert 0xF0 <= b[0] < 0xF5;
    assert Bits6(b, 1) == c / 4096 % 64 && Bits6(b, 2) == c / 64 % 64 && Bits6(b, 3) == c % 64;
  }

  /** Reading one code point back from its bytes, whatever follows. */
  lemma DecodeOneEncoded(c: CodePoint, rest: seq<Byte>)
    requires EncodeOne(c).Some?
    ensures EncodeOne(c).value + rest != []
    ensures DecodeOne(EncodeOne(c).value + rest) == Some(Char(c, |EncodeOne(c).value|))
  {
    if c >= 0x10000 {
      Encode4(c, rest);
    } else {
      Digits(c);
    }
  }

  lemma Decode4(b: seq<Byte>)
    requires b != [] && DecodeOne(b).Some? && DecodeOne(b).value.size == 4
    ensures EncodeOne(DecodeOne(b).value.code) == Some(b[..4])
  {
    var c, a := DecodeOne(b).value.code, 64 * (b[0] - 0xF0) + Bits6(b, 1);
    Digits(c);
    Join(64 * a + Bits6(b, 2), Bits6(b, 3));
    Join(a, Bits6(b, 2));
    Join(b[0] - 0xF0, Bits6(b, 1));
    assert b[..4] == [b[0], b[1], b[2], b[3]];
  }

  /** A code point that is read was written by the encoder. */
  lemma EncodeOneDecoded(b: seq<Byte>)
    requires b != [] && DecodeOne(b).Some?
    ensures EncodeOne(DecodeOne(b).value.code) == Some(b[..DecodeOne(b).value.size])
  {
    if DecodeOne(b).value.size == 1 {
      assert b[..1] == [b[0]];
    } else if DecodeOne(b).value.size == 2 {
      Join(b[0] - 0xC0, Bits6(b, 1));
      assert b[..2] == [b[0], b[1]];
    } else if DecodeOne(b).value.size == 3 {
      Digits(DecodeOne(b).value.code);
      Join(64 * (b[0] - 0xE0) + Bits6(b, 1), Bits6(b, 2));
      Join(b[0] - 0xE0, Bits6(b, 1));
      assert b[..3] == [b[0], b[1], b[2]];
    } else if DecodeOne(b).value.size == 4 {
      Decode4(b);
    }
  }

  lemma {:induction false} DecodeEncode(s: Str)
    requires Encode(s).Some?
    ensures Decode(Encode(s).value) == Some(s)
  {
    if s != [] {
      hide DecodeOne, EncodeOne;
      var e, t := EncodeOne(s[0]).value, Encode(s[1..]).value;
      DecodeOneEncoded(s[0], t);
      assert (e + t)[|e|..] == t;
      DecodeEncode(s[1..]);
      assert s == [s[0]] + s[1..];
    }
  }

  lemma EncodeCons(c: CodePoint, s: Str)
    requires EncodeOne(c).Some? && Encode(s).Some?
    ensures Encode([c] + s) == Some(EncodeOne(c).value + Encode(s).value)
  {
    assert ([c] + s)[1..] == s;
  }

  lemma DecodeHead(b: seq<Byte>)
    requires b != [] && Decode(b).Some?
    ensures DecodeOne(b).Some? && Decode(b[DecodeOne(b).value.size..]).Some?
    ensures Decode(b).value == [DecodeOne(b).value.code] + Decode(b[DecodeOne(b).value.size..]).value
  {
    hide DecodeOne;
  }

  lemma EmptyText()
    ensures Encode([]) == Some([]) && Decode([]) == Some([])
  {
  }

  lemma {:induction false} EncodeDecode(b: seq<Byte>)
    requires Decode(b).Some?
    ensures Encode(Decode(b).value) == Some(b)
    decreases |b|
  {
    hide DecodeOne, EncodeOne, Decode, Encode;
    EmptyText();
    if b != [] {
      DecodeHead(b);
      EncodeOneDecoded(b);
      var n := DecodeOne(b).value.size;
      EncodeDecode(b[n..]);
      EncodeCons(DecodeOne(b).value.code, Decode(b[n..]).value);
      assert b == b[..n] + b[n..];
    }
  }

  /** Decoding succeeds exactly on the encodings of strings, and undoes them. */
  lemma DecodeIffEncode(b: seq<Byte>, s: Str)
    ensures Decode(b) == Some(s) <==> Encode(s) == Some(b)
  {
    if Decode(b).Some? {
      EncodeDecode(b);
    }
    if Encode(s).Some? {
      DecodeEncode(s);
    }
  }

  /** A string encodes unless it holds a surrogate. */
  lemma {:induction false} EncodableIffNoSurrogate(s: Str)
    ensures Encode(s).Some? <==> forall i :: 0 <= i < |s| ==> !IsSurrogate(s[i])
  {
    if s != [] {
      EncodableIffNoSurrogate(s[1..]);
      assert forall i :: 1 <= i < |s| ==> s[i] == s[1..][i - 1];
      assert EncodeOne(s[0]).Some? == !IsSurrogate(s[0]);
      assert (forall i :: 1 <= i < |s| ==> !IsSurrogate(s[i]))
          == (forall i :: 0 <= i < |s[1..]| ==> !IsSurrogate(s[1..][i]));
    }
  }

  // ---- Hexadecimal text ---------------------------------------------------------------

  function HexDigit(v: int): CodePoint
    requires 0 <= v < 16
  {
    if v < 10 then 0x30 + v else 0x61 + v - 10
  }

  function HexValue(c: CodePoint): (r: Option<int>)
    ensures r.Some? ==> 0 <= r.value < 16
  {
    if 0x30 <= c <= 0x39 then Some(c - 0x30)
    else if 0x61 <= c <= 0x66 then Some(c - 0x61 + 10)
    else if 0x41 <= c <= 0x46 then Some(c - 0x41 + 10)
    else None
  }

  /** `b.hex()`. */
  function ToHex(b: seq<Byte>): Str {
    if b == [] then [] else [HexDigit(b[0] / 16), HexDigit(b[0] % 16)] + ToHex(b[1..])
  }

  predicate IsSpace(c: CodePoint) {
    c == 0x20 || 0x09 <= c <= 0x0D
  }

  /** `bytes.fromhex(s)`: pairs of digits of either case, with white space between pairs. */
  function FromHex(s: Str): Option<seq<Byte>>
    decreases |s|
  {
    if s == [] then Some([])
    else if IsSpace(s[0]) then FromHex(s[1..])
    else if |s| < 2 || HexValue(s[0]).None? || HexValue(s[1]).None? || FromHex(s[2..]).None? then None
    else Some([16 * HexValue(s[0]).value + HexValue(s[1]).value] + FromHex(s[2..]).value)
  }

  lemma HexDigits(v: Byte)
    ensures HexValue(HexDigit(v / 16)) == Some(v / 16) && HexValue(HexDigit(v % 16)) == Some(v % 16)
    ensures 16 * (v / 16) + v % 16 == v
  {
  }

  lemma {:induction false} FromToHex(b: seq<Byte>)
    ensures FromHex(ToHex(b)) == Some(b)
  {
    if b != [] {
      HexDigits(b[0]);
      FromToHex(b[1..]);
      var s := ToHex(b);
      assert !IsSpace(s[0]);
      hide HexDigit, HexValue;
      assert s[2..] == ToHex(b[1..]);
      assert b == [b[0]] + b[1..];
    }
  }

  /** The digits of byte i stand at 2 * i, the higher one first, in lower case. */
  lemma {:induction false} HexDigitsAt(b: seq<Byte>, i: nat)
    requires i < |b|
    ensures |ToHex(b)| == 2 * |b|
    ensures ToHex(b)[2 * i] == "0123456789abcdef"[b[i] / 16] as int
    ensures ToHex(b)[2 * i + 1] == "0123456789abcdef"[b[i] % 16] as int
  {
    DigitText(b[0] / 16);
    DigitText(b[0] % 16);
    hide HexDigit;
    if |b| == 1 {
      assert ToHex(b[1..]) == [];
    } else {
      HexDigitsAt(b[1..], if i == 0 then 0 else i - 1);
    }
  }

  lemma DigitText(v: int)
    requires 0 <= v < 16
    ensures HexDigit(v) == "0123456789abcdef"[v] as int
  {
  }

  /** The digits that are read, in either case. */
  lemma HexValueIff(c: CodePoint, v: int)
    requires 0 <= v < 16
    ensures HexValue(c) == Some(v) <==> c == "0123456789abcdef"[v] as int || c == "0123456789ABCDEF"[v] as int
  {
  }
}
