/** client/keystore.py: the two identity scalars, sealed under a key derived from the password. */
module Keystore {
  import opened Bits
  import opened Wrappers
  import opened P256
  import opened Utf8
  import Gcm

  /** b"SVKS" and the version byte, which are also the associated data. */
  const HEADER: seq<Byte> := [0x53, 0x56, 0x4B, 0x53, 0x01]
  const NONCE_LEN: nat := 12
  const PLAINTEXT_LEN: nat := 64
  const TAG_LEN: nat := 16
  const FILE_LEN: nat := 5 + NONCE_LEN + PLAINTEXT_LEN + TAG_LEN

  datatype Keys = Keys(sigPriv: int, dhPriv: int)

  /** ValueError for a key of the wrong length, OverflowError for a scalar of more than 256 bits,
      whatever the operating system raises when a path cannot be written, and the conditions
      KeystoreError stands for. */
  datatype Error = BadKek | ScalarOverflow | NotWritten | NotFound | WrongLength | BadMagic | BadVersion | WrongPassword

  // ---- The file format --------------------------------------------------------------

  function EncodeScalars(k: Keys): Option<seq<Byte>> {
    var sig :- To32(k.sigPriv);
    var dh :- To32(k.dhPriv);
    Some(sig + dh)
  }

  function DecodeScalars(plaintext: seq<Byte>): Keys {
    var n := if |plaintext| < 32 then |plaintext| else 32;
    Keys(FromBE(plaintext[..n]), FromBE(plaintext[n..]))
  }

  /** The bytes `save_keys` writes. */
  function Sealed(k: Keys, kek: seq<Byte>, nonce: Gcm.Nonce): Result<seq<Byte>, Error> {
    if |kek| != 32 then Err(BadKek)
    else if EncodeScalars(k).None? then Err(ScalarOverflow)
    else
      match Gcm.Seal(kek, nonce, EncodeScalars(k).value, HEADER)
      case Err(_) => Err(BadKek)
      case Ok(s) => Ok(HEADER + nonce + s.ciphertext + s.tag)
  }

  /** The file after `save_keys`, and what it raises; `writable` says whether the path can be written. */
  function Saved(file: Option<seq<Byte>>, k: Keys, kek: seq<Byte>, nonce: Gcm.Nonce, writable: bool):
    (Option<seq<Byte>>, Option<Error>)
  {
    match Sealed(k, kek, nonce)
    case Err(e) => (file, Some(e))
    case Ok(b) => if writable then (Some(b), None) else (file, Some(NotWritten))
  }

  /** What `load_keys` reads from the file. */
  function Opened(blob: Option<seq<Byte>>, kek: seq<Byte>): Result<Keys, Error> {
    if |kek| != 32 then Err(BadKek)
    else if blob.None? then Err(NotFound)
    else
      var b := blob.value;
      if |b| != FILE_LEN then Err(WrongLength)
      else if b[..4] != HEADER[..4] then Err(BadMagic)
      else if b[4] != HEADER[4] then Err(BadVersion)
      else
        match Gcm.Open(kek, b[5..17], b[17..81], b[81..], HEADER)
        case Err(_) => Err(BadKek)
        case Ok(None) => Err(WrongPassword)
        case Ok(Some(plaintext)) => Ok(DecodeScalars(plaintext))
  }

  lemma ScalarsIff(p: seq<Byte>, k: Keys)
    requires |p| == PLAINTEXT_LEN
    ensures EncodeScalars(k) == Some(p) <==> DecodeScalars(p) == k
  {
    hide Pow256;
    ToFromBE(p[..32]);
    ToFromBE(p[32..]);
    assert p == p[..32] + p[32..];
    if EncodeScalars(k).Some? {
      FromToBE(k.sigPriv, 32);
      FromToBE(k.dhPriv, 32);
      var e := EncodeScalars(k).value;
      assert e[..32] == To32(k.sigPriv).value && e[32..] == To32(k.dhPriv).value;
    }
  }

  lemma FilePieces(b: seq<Byte>)
    requires |b| == FILE_LEN
    ensures b == b[..5] + b[5..17] + b[17..81] + b[81..]
    ensures b[..5] == HEADER <==> b[..4] == HEADER[..4] && b[4] == HEADER[4]
  {
  }

  /** The bytes are what saving the keys writes, with the nonce found in them. */
  predicate IsSealed(b: seq<Byte>, kek: seq<Byte>, k: Keys) {
    |b| == FILE_LEN && Sealed(k, kek, b[5..17]) == Ok(b)
  }

  /** A file opens to a pair of keys exactly when it is what saving those keys would write. */
  lemma OpenedIffSealed(b: seq<Byte>, kek: seq<Byte>, k: Keys)
    ensures Opened(Some(b), kek) == Ok(k) <==> IsSealed(b, kek, k)
  {
    hide Gcm.Seal, Gcm.Open, EncodeScalars, DecodeScalars;
    if Opened(Some(b), kek) == Ok(k) {
      OpenedIsSealed(b, kek, k);
    }
    if IsSealed(b, kek, k) {
      SealedOpens(k, kek, b[5..17]);
    }
  }

  lemma OpenedIsSealed(b: seq<Byte>, kek: seq<Byte>, k: Keys)
    requires Opened(Some(b), kek) == Ok(k)
    ensures IsSealed(b, kek, k)
  {
    hide Gcm.Seal, EncodeScalars, DecodeScalars;
    FilePieces(b);
    var p := Gcm.Open(kek, b[5..17], b[17..81], b[81..], HEADER).value.value;
    Gcm.OpenIffSeal(kek, b[5..17], p, b[17..81], b[81..], HEADER);
    hide Gcm.Open;
    Gcm.OpenSeal(kek, b[5..17], p, HEADER);
    ScalarsIff(p, k);
  }

  /** What is saved loads back. */
  lemma SealedOpens(k: Keys, kek: seq<Byte>, nonce: Gcm.Nonce)
    requires Sealed(k, kek, nonce).Ok?
    ensures |Sealed(k, kek, nonce).value| == FILE_LEN && Sealed(k, kek, nonce).value[5..17] == nonce
    ensures Opened(Some(Sealed(k, kek, nonce).value), kek) == Ok(k)
  {
    hide Gcm.Seal, Gcm.Open, EncodeScalars, DecodeScalars;
    var p := EncodeScalars(k).value;
    EncodedLength(k);
    Gcm.OpenSeal(kek, nonce, p, HEADER);
    ScalarsIff(p, k);
    var s, b := Gcm.Seal(kek, nonce, p, HEADER).value, Sealed(k, kek, nonce).value;
    assert b[..4] == HEADER[..4] && b[4] == HEADER[4] && b[5..17] == nonce;
    assert b[17..81] == s.ciphertext && b[81..] == s.tag;
  }

  /** The bytes of a key file: "SVKS", the version 1, the nonce, and both scalars, big-endian in 32 bytes each,
      sealed with the five bytes before the nonce as associated data. */
  predicate FileOf(b: seq<Byte>, k: Keys, kek: seq<Byte>, nonce: Gcm.Nonce, plaintext: seq<Byte>) {
    hide FromBE, Gcm.Seal;
    && |b| == 97 && b[..4] == AsciiBytes("SVKS") && b[4] == 1 && b[5..17] == nonce
    && |plaintext| == 64 && FromBE(plaintext[..32]) == k.sigPriv && FromBE(plaintext[32..]) == k.dhPriv
    && Gcm.Seal(kek, nonce, plaintext, b[..5]) == Ok(Gcm.Sealed(b[17..81], b[81..]))
  }

  lemma FileBytes(b: seq<Byte>, k: Keys, kek: seq<Byte>, nonce: Gcm.Nonce)
    requires Sealed(k, kek, nonce) == Ok(b)
    ensures exists plaintext :: FileOf(b, k, kek, nonce, plaintext)
  {
    hide Gcm.Seal, Gcm.Open, EncodeScalars, DecodeScalars, FromBE;
    var p := EncodeScalars(k).value;
    EncodedLength(k);
    ScalarFields(p, k);
    Gcm.OpenSeal(kek, nonce, p, HEADER);
    HeaderText();
    var s := Gcm.Seal(kek, nonce, p, HEADER).value;
    assert b[..5] == HEADER && b[..4] == HEADER[..4] && b[5..17] == nonce;
    assert b[17..81] == s.ciphertext && b[81..] == s.tag;
    assert FileOf(b, k, kek, nonce, p);
  }

  /** Why a file is refused, in the order of the checks: the last one is a wrong password or a changed file. */
  lemma RefusedFile(b: seq<Byte>, kek: seq<Byte>)
    ensures |kek| != 32 ==> Opened(Some(b), kek) == Err(BadKek)
    ensures |kek| == 32 ==> Opened(None, kek) == Err(NotFound)
    ensures |kek| == 32 && |b| != 97 ==> Opened(Some(b), kek) == Err(WrongLength)
    ensures |kek| == 32 && |b| == 97 && b[..4] != AsciiBytes("SVKS") ==> Opened(Some(b), kek) == Err(BadMagic)
    ensures |kek| == 32 && |b| == 97 && b[..4] == AsciiBytes("SVKS") && b[4] != 1 ==>
      Opened(Some(b), kek) == Err(BadVersion)
    ensures |kek| == 32 && |b| == 97 && b[..4] == AsciiBytes("SVKS") && b[4] == 1 ==>
      (Opened(Some(b), kek) == Err(WrongPassword) <==> !exists k :: Opened(Some(b), kek) == Ok(k))
  {
    hide Gcm.Open, DecodeScalars;
    HeaderText();
    if |kek| == 32 && |b| == 97 {
      Gcm.OpenDefined(kek, b[5..17], b[17..81], b[81..], HEADER);
    }
  }

  lemma HeaderText()
    ensures HEADER[..4] == AsciiBytes("SVKS") && HEADER[4] == 1
  {
  }

  lemma ScalarFields(p: seq<Byte>, k: Keys)
    requires |p| == 64 && EncodeScalars(k) == Some(p)
    ensures FromBE(p[..32]) == k.sigPriv && FromBE(p[32..]) == k.dhPriv
  {
    ScalarsIff(p, k);
    hide FromBE, EncodeScalars;
  }

  lemma EncodedLength(k: Keys)
    ensures EncodeScalars(k).Some? ==> |EncodeScalars(k).value| == PLAINTEXT_LEN
  {
  }

  predicate ScalarsFit(k: Keys) {
    To32(k.sigPriv).Some? && To32(k.dhPriv).Some?
  }

  /** Saving works for every pair of 256-bit scalars and every 32-byte key. */
  lemma SealedDefined(k: Keys, kek: seq<Byte>, nonce: Gcm.Nonce)
    ensures Sealed(k, kek, nonce).Ok? <==> |kek| == 32 && ScalarsFit(k)
  {
    hide Gcm.Tag, Gcm.Ctr, To32;
    EncodedLength(k);
  }

  // ---- The file on disk ------------------------------------------------------------------

  /** `{username}_keys.svks`; None while it does not exist. */
  class KeyFile {
    var contents: Option<seq<Byte>>

    constructor ()
      ensures contents == None
    {
      contents := None;
    }

    /** `save_keys`; the file is replaced as a whole, or left alone when an error is raised. */
    method SaveKeys(k: Keys, kek: seq<Byte>, nonce: Gcm.Nonce, writable: bool) returns (raised: Option<Error>)
      modifies this
      ensures (contents, raised) == Saved(old(contents), k, kek, nonce, writable)
    {
      hide EncodeScalars, Gcm.Seal;
      if |kek| != 32 {
        return Some(BadKek);
      }
      var plaintext := EncodeScalars(k);
      if plaintext.None? {
        return Some(ScalarOverflow);
      }
      var sealed := Gcm.Encrypt(kek, nonce, plaintext.value, HEADER);
      if sealed.Err? {
        return Some(BadKek);
      }
      if !writable {
        return Some(NotWritten);
      }
      contents := Some(HEADER + nonce + sealed.value.ciphertext + sealed.value.tag);
      raised := None;
    }

    method LoadKeys(kek: seq<Byte>) returns (r: Result<Keys, Error>)
      ensures r == Opened(contents, kek)
    {
      hide Gcm.Open, DecodeScalars;
      if |kek| != 32 {
        return Err(BadKek);
      }
      if contents.None? {
        return Err(NotFound);
      }
      var b := contents.value;
      if |b| != FILE_LEN {
        return Err(WrongLength);
      } else if b[..4] != HEADER[..4] {
        return Err(BadMagic);
      } else if b[4] != HEADER[4] {
        return Err(BadVersion);
      }
      var plaintext := Gcm.Decrypt(kek, b[5..17], b[17..81], b[81..], HEADER);
      if plaintext.Err? {
        return Err(BadKek);
      } else if plaintext.value.None? {
        return Err(WrongPassword);
      }
      r := Ok(DecodeScalars(plaintext.value.value));
    }

    /** `rewrap_keys`: on success the file holds the same keys under the new key. */
    method RewrapKeys(oldKek: seq<Byte>, newKek: seq<Byte>, nonce: Gcm.Nonce, writable: bool)
        returns (raised: Option<Error>)
      modifies this
      ensures (contents, raised) == Rewrapped(old(contents), oldKek, newKek, nonce, writable)
    {
      hide Opened, Saved;
      var k := LoadKeys(oldKek);
      if k.Err? {
        return Some(k.error);
      }
      raised := SaveKeys(k.value, newKek, nonce, writable);
    }
  }

  /** The file after `rewrap_keys`, and what it raises. */
  function Rewrapped(file: Option<seq<Byte>>, oldKek: seq<Byte>, newKek: seq<Byte>, nonce: Gcm.Nonce, writable: bool):
    (Option<seq<Byte>>, Option<Error>)
  {
    match Opened(file, oldKek)
    case Err(e) => (file, Some(e))
    case Ok(k) => Saved(file, k, newKek, nonce, writable)
  }

  /** A change of password; one that cannot be written leaves the old password in force. */
  datatype Change = Change(kek: seq<Byte>, nonce: Gcm.Nonce, writable: bool)

  function KekAfter(kek: seq<Byte>, c: Change): seq<Byte> {
    if c.writable then c.kek else kek
  }

  /** The file after a list of changes, starting under `kek`; each starts from the key before it. */
  function RewrappedAll(file: Option<seq<Byte>>, kek: seq<Byte>, changes: seq<Change>): Option<seq<Byte>>
    decreases |changes|
  {
    hide Rewrapped;
    if changes == [] then file
    else
      var c := changes[0];
      RewrappedAll(Rewrapped(file, kek, c.kek, c.nonce, c.writable).0, KekAfter(kek, c), changes[1..])
  }

  function LastKek(kek: seq<Byte>, changes: seq<Change>): seq<Byte>
    decreases |changes|
  {
    if changes == [] then kek else LastKek(KekAfter(kek, changes[0]), changes[1..])
  }

  lemma OpenedFits(file: Option<seq<Byte>>, kek: seq<Byte>)
    requires Opened(file, kek).Ok? && file.Some?
    ensures ScalarsFit(Opened(file, kek).value)
  {
    hide Opened, Sealed;
    var k := Opened(file, kek).value;
    OpenedIffSealed(file.value, kek, k);
    SealedDefined(k, kek, file.value[5..17]);
  }

  lemma OpenedExists(file: Option<seq<Byte>>, kek: seq<Byte>)
    ensures Opened(file, kek).Ok? ==> file.Some?
  {
    hide Gcm.Open;
  }

  /** Any number of password changes, those that cannot be written included, leaves the identity keys as
      they were, under the last password that was written. */
  lemma {:induction false} KeysSurvive(file: Option<seq<Byte>>, kek: seq<Byte>, changes: seq<Change>)
    requires Opened(file, kek).Ok? && forall c <- changes :: |c.kek| == 32
    ensures Opened(RewrappedAll(file, kek, changes), LastKek(kek, changes)) == Opened(file, kek)
    decreases |changes|
  {
    hide Opened, Sealed;
    if changes != [] {
      var k, c := Opened(file, kek).value, changes[0];
      OpenedExists(file, kek);
      OpenedFits(file, kek);
      SealedDefined(k, c.kek, c.nonce);
      SealedOpens(k, c.kek, c.nonce);
      KeysSurvive(Rewrapped(file, kek, c.kek, c.nonce, c.writable).0, KekAfter(kek, c), changes[1..]);
    }
  }
}
