/** What client/client.py packs, signs and seals: documents, and the shares that carry a
    document's file key to a reader. Random values and the clock are inputs. */
module Envelopes {
  import opened Bits
  import opened Wrappers
  import opened Utf8
  import opened Formats
  import P256
  import Ecdh
  import Ecdsa
  import Gcm
  import Sha256

  /** The identity of a logged-in user. */
  datatype Account = Account(username: Str, sigPriv: int, sigPub: seq<Byte>, dhPriv: int, dhPub: seq<Byte>)

  const ZERO_NONCE: seq<Byte> := Zeros(NONCE_LEN)
  const ZERO_SIG: seq<Byte> := Zeros(SIG_LEN)
  const FILE_KEY_LEN: nat := 32

  // ---- Signatures over bytes -------------------------------------------------------

  /** `signature_to_bytes(ecdsa_sign(priv, message))`; None where either raises. */
  function SignBytes(priv: int, message: seq<Byte>, k: int): Option<seq<Byte>> {
    match Ecdsa.Sign(priv, message, k)
    case Err(_) => None
    case Ok(sig) => Ecdsa.SignatureToBytes(sig)
  }

  /** `ecdsa_verify(pub, message, signature_from_bytes(sig))`; false also where decoding raises. */
  predicate VerifyBytes(pub: seq<Byte>, message: seq<Byte>, sig: seq<Byte>) {
    Ecdsa.SignatureFromBytes(sig).Some? && Ecdsa.Verify(pub, message, Ecdsa.SignatureFromBytes(sig).value)
  }

  lemma SignedBytesVerify(priv: int, message: seq<Byte>, k: int)
    requires P256.StandardFacts() && Ecdsa.InRange(k) && SignBytes(priv, message, k).Some?
    ensures P256.IsValidPrivateKey(priv) && Ecdh.PublicKey(priv).Some?
    ensures |SignBytes(priv, message, k).value| == SIG_LEN
    ensures VerifyBytes(Ecdh.PublicKey(priv).value, message, SignBytes(priv, message, k).value)
  {
    hide P256.StandardFacts, Ecdsa.Verify, Ecdsa.SignatureToBytes, Ecdsa.SignatureFromBytes, P256.ScalarMul,
         P256.PointToBytes, Ecdsa.Attempt, Ecdsa.HashToScalar;
    Ecdsa.SignedVerifies(priv, message, k);
    var sig := Ecdsa.Sign(priv, message, k).value;
    Ecdsa.SignatureEncodes(sig);
  }

  /** Verification accepts exactly the genuine signatures of 64 bytes. */
  lemma VerifyBytesIff(pub: seq<Byte>, message: seq<Byte>, sig: seq<Byte>)
    requires P256.StandardFacts()
    ensures VerifyBytes(pub, message, sig) <==> Ecdsa.Genuine(pub, message, sig)
  {
    hide P256.StandardFacts, Ecdsa.Verify, Ecdsa.SignatureFromBytes, Ecdsa.Genuine;
    Ecdsa.BytesVerifyIff(pub, message, sig);
  }

  /** r and s of the signature do not come out zero. */
  predicate Signable(priv: int, message: seq<Byte>, k: int) {
    Ecdsa.Signable(priv, Ecdsa.HashToScalar(message), k)
  }

  lemma SignBytesIff(priv: int, message: seq<Byte>, k: int)
    requires P256.StandardFacts() && Ecdsa.InRange(k)
    ensures SignBytes(priv, message, k).Some? <==> Signable(priv, message, k)
  {
    hide P256.StandardFacts, Ecdsa.Verify, Ecdsa.Sign, Ecdsa.SignatureToBytes, P256.ScalarMul, P256.PointToBytes,
         Ecdsa.HashToScalar, Ecdsa.Signable;
    Ecdsa.SignIff(priv, message, k);
    if Ecdsa.Sign(priv, message, k).Ok? {
      Ecdsa.SignedVerifies(priv, message, k);
      Ecdsa.SignatureEncodes(Ecdsa.Sign(priv, message, k).value);
    }
  }

  // ---- Names --------------------------------------------------------------------------

  /** A name that the formats can hold: no surrogates, at most 4096 bytes. */
  predicate ShortName(name: Str) {
    Encode(name).Some? && |Encode(name).value| <= MAX_STR_LEN
  }

  /** Its length in bytes. */
  function Size(name: Str): nat {
    if Encode(name).None? then 0 else |Encode(name).value|
  }

  lemma PackedName(name: Str)
    ensures PackStr(name).Some? <==> ShortName(name)
    ensures PackStr(name).Some? ==> |PackStr(name).value| == 2 + Size(name)
  {
    hide Encode;
  }

  // ---- Shares ------------------------------------------------------------------------

  /** b"wrap|" + doc_id + b"|to=" + recipient + b"|from=" + sender. */
  function Info(docId: seq<Byte>, recipient: Str, sender: Str): Option<seq<Byte>> {
    var to :- Encode(recipient);
    var from :- Encode(sender);
    Some([0x77, 0x72, 0x61, 0x70, 0x7C] + docId + [0x7C, 0x74, 0x6F, 0x3D] + to
         + [0x7C, 0x66, 0x72, 0x6F, 0x6D, 0x3D] + from)
  }

  /** What binds a wrapped key to the document and to both names. */
  lemma InfoText(docId: seq<Byte>, recipient: Str, sender: Str, to: seq<Byte>, from: seq<Byte>)
    requires Encode(recipient) == Some(to) && Encode(sender) == Some(from)
    ensures Info(docId, recipient, sender)
         == Some(AsciiBytes("wrap|") + docId + AsciiBytes("|to=") + to + AsciiBytes("|from=") + from)
  {
    hide Encode;
    assert AsciiBytes("wrap|") == [0x77, 0x72, 0x61, 0x70, 0x7C];
    assert AsciiBytes("|to=") == [0x7C, 0x74, 0x6F, 0x3D];
    assert AsciiBytes("|from=") == [0x7C, 0x66, 0x72, 0x6F, 0x6D, 0x3D];
  }

  function SharedKey(d: int, peer: seq<Byte>, info: seq<Byte>): Option<seq<Byte>> {
    match Ecdh.SharedKey(d, peer, info)
    case Ok(key) => Some(key)
    case Err(_) => None
  }

  function Seal(key: seq<Byte>, plaintext: seq<Byte>, aad: seq<Byte>): Option<Gcm.Sealed> {
    match Gcm.Seal(key, ZERO_NONCE, plaintext, aad)
    case Ok(s) => Some(s)
    case Err(_) => None
  }

  function Open(key: seq<Byte>, nonce: seq<Byte>, c: seq<Byte>, tag: seq<Byte>, aad: seq<Byte>): Option<seq<Byte>> {
    match Gcm.Open(key, nonce, c, tag, aad)
    case Ok(p) => p
    case Err(_) => None
  }

  /** The ephemeral scalar, the time and the signing nonce of one share. */
  datatype ShareInputs = ShareInputs(ephPriv: int, now: int, k: int)

  predicate ShareInputsOk(i: ShareInputs) {
    P256.IsValidPrivateKey(i.ephPriv) && Ecdsa.InRange(i.k)
  }

  /** The share before it is signed. */
  function ShareBody(sender: Str, docId: seq<Byte>, version: int, docHash: seq<Byte>, recipient: Str,
                     dhPub: seq<Byte>, fk: seq<Byte>, i: ShareInputs): Option<Share>
  {
    var info :- Info(docId, recipient, sender);
    var ephPub :- Ecdh.PublicKey(i.ephPriv);
    var wrapKey :- SharedKey(i.ephPriv, dhPub, info);
    var wrapped :- Seal(wrapKey, fk, []);
    Some(Share(docId, version, docHash, sender, recipient, i.now, ephPub, ZERO_NONCE,
               wrapped.ciphertext, wrapped.tag, ZERO_SIG))
  }

  /** The share blob that `share` and `_store_self_share` send; None where a call raises. */
  function MakeShare(a: Account, docId: seq<Byte>, version: int, docHash: seq<Byte>, recipient: Str,
                     dhPub: seq<Byte>, fk: seq<Byte>, i: ShareInputs): Option<seq<Byte>>
  {
    var body :- ShareBody(a.username, docId, version, docHash, recipient, dhPub, fk, i);
    var packed :- PackShareBody(body);
    var sig :- SignBytes(a.sigPriv, packed, i.k);
    PackShare(body.(shareSig := sig))
  }

  /** `_unwrap_fk`. */
  function UnwrapFk(dhPriv: int, s: Share): Option<seq<Byte>> {
    var info :- Info(s.docId, s.recipient, s.sender);
    var wrapKey :- SharedKey(dhPriv, s.ephPub, info);
    Open(wrapKey, s.nonce, s.wrappedFk, s.tag, [])
  }

  /** The signature check of `download` on a share. */
  predicate ShareSigned(sigPub: seq<Byte>, s: Share) {
    var body := PackShareBody(s.(shareSig := ZERO_SIG));
    body.Some? && VerifyBytes(sigPub, body.value, s.shareSig)
  }

  /** The reader's scalar opens the wrapped key: both sides derive the same wrapping key. */
  lemma BodyUnwraps(sender: Str, docId: seq<Byte>, version: int, docHash: seq<Byte>, recipient: Str,
                    dhPriv: int, fk: seq<Byte>, i: ShareInputs)
    requires P256.StandardFacts() && P256.IsValidPrivateKey(i.ephPriv) && P256.IsValidPrivateKey(dhPriv)
    requires Ecdh.PublicKey(dhPriv).Some?
    requires ShareBody(sender, docId, version, docHash, recipient, Ecdh.PublicKey(dhPriv).value, fk, i).Some?
    ensures var body := ShareBody(sender, docId, version, docHash, recipient, Ecdh.PublicKey(dhPriv).value, fk, i);
      UnwrapFk(dhPriv, body.value) == Some(fk)
  {
    hide P256.StandardFacts, Ecdh.SharedKey, Ecdh.PublicKey, Gcm.Seal, Gcm.Open, Info;
    var info := Info(docId, recipient, sender).value;
    Ecdh.Agreement(i.ephPriv, dhPriv, info);
    var key := Ecdh.SharedKey(dhPriv, Ecdh.PublicKey(i.ephPriv).value, info).value;
    Gcm.OpenSeal(key, ZERO_NONCE, fk, []);
  }

  /** A share made for a reader unpacks to what was put in, gives the reader the file key, and
      is signed by the sender. */
  lemma MadeShareOpens(a: Account, docId: seq<Byte>, version: int, docHash: seq<Byte>, recipient: Str,
                       dhPriv: int, fk: seq<Byte>, i: ShareInputs, blob: seq<Byte>)
    requires P256.StandardFacts() && ShareInputsOk(i) && P256.IsValidPrivateKey(dhPriv) && Ecdh.PublicKey(dhPriv).Some?
    requires MakeShare(a, docId, version, docHash, recipient, Ecdh.PublicKey(dhPriv).value, fk, i) == Some(blob)
    ensures UnpackShare(blob).Some? && Ecdh.PublicKey(a.sigPriv).Some?
    ensures var s := UnpackShare(blob).value;
      && s.docId == docId && s.version == version && s.docHash == docHash
      && s.sender == a.username && s.recipient == recipient && s.issuedMs == i.now
      && UnwrapFk(dhPriv, s) == Some(fk) && ShareSigned(Ecdh.PublicKey(a.sigPriv).value, s)
  {
    hide P256.StandardFacts, Ecdh.PublicKey, SignBytes, VerifyBytes, UnpackShare, PackShare, PackShareBody, SharedKey,
         Seal, Open, Info;
    var dhPub := Ecdh.PublicKey(dhPriv).value;
    var body := ShareBody(a.username, docId, version, docHash, recipient, dhPub, fk, i).value;
    var packed := PackShareBody(body).value;
    var sig := SignBytes(a.sigPriv, packed, i.k).value;
    var s := body.(shareSig := sig);
    BodyUnwraps(a.username, docId, version, docHash, recipient, dhPriv, fk, i);
    SignedBytesVerify(a.sigPriv, packed, i.k);
    ShareIff(blob, s);
    assert s.(shareSig := ZERO_SIG) == body;
  }

  /** What a share can be made of. */
  predicate ShareFits(sender: Str, docId: seq<Byte>, version: int, docHash: seq<Byte>, recipient: Str,
                      dhPub: seq<Byte>, fk: seq<Byte>, now: int)
  {
    hide *;
    && |docId| == DOC_ID_LEN && 0 <= version < TWO32 && |docHash| == DOC_HASH_LEN
    && ShortName(sender) && ShortName(recipient) && P256.PointFromBytes(dhPub).Some? && |fk| == WRAPPED_FK_LEN
    && 0 <= now < TWO64
  }

  /** The bytes a share's signature is over. */
  function ShareMessage(sender: Str, docId: seq<Byte>, version: int, docHash: seq<Byte>, recipient: Str,
                        dhPub: seq<Byte>, fk: seq<Byte>, i: ShareInputs): seq<Byte>
  {
    hide ShareBody, PackShareBody;
    var body := ShareBody(sender, docId, version, docHash, recipient, dhPub, fk, i);
    if body.None? || PackShareBody(body.value).None? then [] else PackShareBody(body.value).value
  }

  lemma ShareBodyIff(sender: Str, docId: seq<Byte>, version: int, docHash: seq<Byte>, recipient: Str,
                     dhPub: seq<Byte>, fk: seq<Byte>, i: ShareInputs)
    requires P256.StandardFacts() && ShareInputsOk(i)
    ensures var body := ShareBody(sender, docId, version, docHash, recipient, dhPub, fk, i);
      && (Encode(sender).Some? && Encode(recipient).Some? && P256.PointFromBytes(dhPub).Some? && |fk| == WRAPPED_FK_LEN
          ==> body.Some?)
      && (body.Some? ==>
            Encode(sender).Some? && Encode(recipient).Some? && P256.PointFromBytes(dhPub).Some?
            && |body.value.ephPub| == EPH_PUB_LEN && |body.value.wrappedFk| == |fk| && |body.value.tag| == TAG_LEN)
  {
    hide P256.StandardFacts, Ecdh.SharedKey, P256.ScalarMul, P256.PointFromBytes, Gcm.Tag, Gcm.Ctr, Encode, Gcm.Open;
    Ecdh.PublicKeyDecodes(i.ephPriv);
    var info := Info(docId, recipient, sender);
    if info.Some? {
      Ecdh.SharedKeyDefined(i.ephPriv, dhPub, info.value);
      var key := SharedKey(i.ephPriv, dhPub, info.value);
      if key.Some? && Seal(key.value, fk, []).Some? {
        Gcm.OpenSeal(key.value, ZERO_NONCE, fk, []);
      }
    }
  }

  lemma ShareBodyFields(sender: Str, docId: seq<Byte>, version: int, docHash: seq<Byte>, recipient: Str,
                        dhPub: seq<Byte>, fk: seq<Byte>, i: ShareInputs)
    requires ShareBody(sender, docId, version, docHash, recipient, dhPub, fk, i).Some?
    ensures var b := ShareBody(sender, docId, version, docHash, recipient, dhPub, fk, i).value;
      b.docId == docId && b.version == version && b.docHash == docHash && b.sender == sender && b.recipient == recipient
      && b.issuedMs == i.now && b.nonce == ZERO_NONCE
  {
    hide Info, Ecdh.PublicKey, SharedKey, Seal;
  }

  lemma PackedShare(s: Share, sig: seq<Byte>)
    ensures PackShareBody(s).Some? <==>
              ShareLengths(s) && 0 <= s.version < TWO32 && ShortName(s.sender) && ShortName(s.recipient)
              && 0 <= s.issuedMs < TWO64
    ensures PackShare(s.(shareSig := sig)).Some? <==> PackShareBody(s).Some? && |sig| == SIG_LEN
    ensures PackShare(s.(shareSig := sig)).Some? ==>
              |PackShare(s.(shareSig := sig)).value| == SHARE_BLOB_OVERHEAD + Size(s.sender) + Size(s.recipient)
  {
    hide PackStr, ShortName, Size, ToBE4, ToBE8;
    PackedName(s.sender);
    PackedName(s.recipient);
  }

  /** The bytes of a share blob besides the two names. */
  const SHARE_BLOB_OVERHEAD: nat := 257

  /** A share can be made exactly of fitting parts and when its bytes can be signed; its size depends
      on the names alone. */
  lemma MakeShareIff(a: Account, docId: seq<Byte>, version: int, docHash: seq<Byte>, recipient: Str,
                     dhPub: seq<Byte>, fk: seq<Byte>, i: ShareInputs)
    requires P256.StandardFacts() && ShareInputsOk(i)
    ensures var blob := MakeShare(a, docId, version, docHash, recipient, dhPub, fk, i);
      && (blob.Some? <==>
            ShareFits(a.username, docId, version, docHash, recipient, dhPub, fk, i.now)
            && Signable(a.sigPriv, ShareMessage(a.username, docId, version, docHash, recipient, dhPub, fk, i), i.k))
      && (blob.Some? ==> |blob.value| == SHARE_BLOB_OVERHEAD + Size(a.username) + Size(recipient))
  {
    hide P256.StandardFacts, ShareBody, PackShareBody, PackShare, SignBytes, VerifyBytes, Signable, Encode,
         P256.PointFromBytes, Size;
    ShareBodyIff(a.username, docId, version, docHash, recipient, dhPub, fk, i);
    var body := ShareBody(a.username, docId, version, docHash, recipient, dhPub, fk, i);
    if body.Some? {
      ShareBodyFields(a.username, docId, version, docHash, recipient, dhPub, fk, i);
      var packed := PackShareBody(body.value);
      PackedShare(body.value, []);
      if packed.Some? {
        SignBytesIff(a.sigPriv, packed.value, i.k);
        var sig := SignBytes(a.sigPriv, packed.value, i.k);
        if sig.Some? {
          SignedBytesVerify(a.sigPriv, packed.value, i.k);
          PackedShare(body.value, sig.value);
        }
      }
    }
  }

  // ---- Documents ------------------------------------------------------------------------

  /** "application/octet-stream". */
  const MIME: Str := Ascii("application/octet-stream")

  datatype DocumentInputs = DocumentInputs(fk: seq<Byte>, docId: seq<Byte>, now: int, k: int)

  predicate DocumentInputsOk(i: DocumentInputs) {
    |i.fk| == FILE_KEY_LEN && |i.docId| == DOC_ID_LEN && Ecdsa.InRange(i.k)
  }

  /** The payload `upload` seals. */
  function MakePayload(a: Account, filename: Str, content: seq<Byte>, k: int): Option<Payload> {
    var sig :- SignBytes(a.sigPriv, Sha256.Digest(content), k);
    Some(Payload(filename, MIME, content, sig))
  }

  /** The document that `upload` sends; None where a call raises. */
  function MakeDocument(a: Account, filename: Str, content: seq<Byte>, i: DocumentInputs): Option<ParsedDocument> {
    var payload :- MakePayload(a, filename, content, i.k);
    var plaintext :- PackPayload(payload);
    var header := DocumentHeader(i.docId, a.username, 1, i.now);
    var aad :- PackDocumentHeader(header);
    var sealed :- Seal(i.fk, plaintext, aad);
    Some(ParsedDocument(header, aad, ZERO_NONCE, sealed.ciphertext, sealed.tag))
  }

  function DocumentBlob(d: ParsedDocument): Option<seq<Byte>> {
    PackDocument(d.header, d.nonce, d.ciphertext, d.tag)
  }

  /** Decrypting and parsing in `download`. */
  function OpenDocument(fk: seq<Byte>, d: ParsedDocument): Option<Payload> {
    var plaintext :- Open(fk, d.nonce, d.ciphertext, d.tag, d.headerAad);
    UnpackPayload(plaintext)
  }

  predicate ContentSigned(sigPub: seq<Byte>, p: Payload) {
    VerifyBytes(sigPub, Sha256.Digest(p.content), p.contentSig)
  }

  /** An uploaded blob unpacks to the document it was packed from, and the file key opens it to
      the uploaded bytes, signed by the owner. */
  lemma MadeDocumentOpens(a: Account, filename: Str, content: seq<Byte>, i: DocumentInputs, blob: seq<Byte>)
    requires P256.StandardFacts() && DocumentInputsOk(i)
    requires MakeDocument(a, filename, content, i).Some?
    requires DocumentBlob(MakeDocument(a, filename, content, i).value) == Some(blob)
    ensures UnpackDocument(blob) == MakeDocument(a, filename, content, i)
    ensures UnpackDocument(blob).value.header == DocumentHeader(i.docId, a.username, 1, i.now)
    ensures Ecdh.PublicKey(a.sigPriv).Some?
    ensures OpenDocument(i.fk, UnpackDocument(blob).value).Some?
    ensures OpenDocument(i.fk, UnpackDocument(blob).value).value.content == content
    ensures ContentSigned(Ecdh.PublicKey(a.sigPriv).value, OpenDocument(i.fk, UnpackDocument(blob).value).value)
  {
    hide P256.StandardFacts, Ecdh.PublicKey, SignBytes, VerifyBytes, UnpackDocument, PackDocumentHeader, PackDocument,
         PackPayload, UnpackPayload, Gcm.Seal, Gcm.Open, Sha256.Digest;
    var d := MakeDocument(a, filename, content, i).value;
    var payload := MakePayload(a, filename, content, i.k).value;
    var plaintext := PackPayload(payload).value;
    DocumentIff(blob, d);
    Gcm.OpenSeal(i.fk, ZERO_NONCE, plaintext, d.headerAad);
    PayloadIff(plaintext, payload);
    SignedBytesVerify(a.sigPriv, Sha256.Digest(content), i.k);
  }

  /** What a document can be made of. */
  predicate DocumentFits(owner: Str, filename: Str, content: seq<Byte>, i: DocumentInputs) {
    hide *;
    ShortName(owner) && ShortName(filename) && |content| < TWO32 && 0 <= i.now < TWO64
  }

  lemma PayloadIffFits(a: Account, filename: Str, content: seq<Byte>, k: int)
    requires P256.StandardFacts() && Ecdsa.InRange(k)
    ensures var p := MakePayload(a, filename, content, k);
      && (p.Some? <==> Signable(a.sigPriv, Sha256.Digest(content), k))
      && (p.Some? ==>
            (PackPayload(p.value).Some? <==> ShortName(filename) && |content| < TWO32)
            && (PackPayload(p.value).Some? ==> |PackPayload(p.value).value| == 96 + Size(filename) + |content|))
  {
    hide P256.StandardFacts, SignBytes, VerifyBytes, Signable, Sha256.Digest, PackStr, ToBE4, ShortName, Size, MIME;
    SignBytesIff(a.sigPriv, Sha256.Digest(content), k);
    MimeFits();
    PackedName(filename);
    if SignBytes(a.sigPriv, Sha256.Digest(content), k).Some? {
      SignedBytesVerify(a.sigPriv, Sha256.Digest(content), k);
    }
  }

  lemma {:induction false} AsciiEncodes(s: Str)
    requires forall i :: 0 <= i < |s| ==> s[i] < 0x80
    ensures Encode(s).Some? && |Encode(s).value| == |s|
  {
    if s != [] {
      AsciiEncodes(s[1..]);
    }
  }

  lemma MimeFits()
    ensures PackStr(MIME).Some? && |PackStr(MIME).value| == 26
  {
    hide Encode;
    AsciiEncodes(MIME);
    PackedName(MIME);
  }

  lemma PackedHeader(h: DocumentHeader)
    ensures PackDocumentHeader(h).Some? <==>
              |h.docId| == DOC_ID_LEN && ShortName(h.owner) && 0 <= h.version < TWO32 && 0 <= h.createdMs < TWO64
    ensures PackDocumentHeader(h).Some? ==> |PackDocumentHeader(h).value| == 34 + Size(h.owner)
    ensures ShortName(h.owner) ==> Size(h.owner) <= MAX_STR_LEN
  {
    hide PackStr, Encode, ToBE4, ToBE8;
    PackedName(h.owner);
  }

  /** The bytes of a document blob besides the content and the two names. */
  const DOCUMENT_OVERHEAD: nat := 158

  /** A document can be made exactly of fitting parts and when the content's hash can be signed; its
      size depends on the names and the length of the content alone. */
  lemma MakeDocumentIff(a: Account, filename: Str, content: seq<Byte>, i: DocumentInputs)
    requires P256.StandardFacts() && DocumentInputsOk(i)
    ensures var d := MakeDocument(a, filename, content, i);
      && (d.Some? <==> DocumentFits(a.username, filename, content, i)
                       && Signable(a.sigPriv, Sha256.Digest(content), i.k))
      && (d.Some? ==> DocumentBlob(d.value).Some?
                      && |DocumentBlob(d.value).value|
                         == DOCUMENT_OVERHEAD + Size(a.username) + Size(filename) + |content|)
  {
    hide P256.StandardFacts, MakePayload, PackPayload, PackDocumentHeader, Signable, Sha256.Digest, ShortName, Size,
         Gcm.Tag, Gcm.Ctr, Gcm.Open, Encode;
    PayloadIffFits(a, filename, content, i.k);
    var header := DocumentHeader(i.docId, a.username, 1, i.now);
    PackedHeader(header);
    var payload := MakePayload(a, filename, content, i.k);
    if payload.Some? && PackPayload(payload.value).Some? && PackDocumentHeader(header).Some? {
      var plaintext, aad := PackPayload(payload.value).value, PackDocumentHeader(header).value;
      NameBounded(filename);
      Gcm.OpenSeal(i.fk, ZERO_NONCE, plaintext, aad);
    }
  }

  lemma NameBounded(name: Str)
    ensures ShortName(name) ==> Size(name) <= MAX_STR_LEN
  {
    hide Encode;
  }
}
