/** What `share` and `download` of client/client.py rest on, whatever the server holds or answers: the checks a
    delivered file has passed, and the bytes of what is sent. */
module Downloads {
  import opened Bits
  import opened Wrappers
  import opened Utf8
  import opened Formats
  import opened Server
  import opened Envelopes
  import opened Client
  import opened Messages
  import Ecdh
  import Ecdsa
  import Gcm
  import P256
  import Sha256
  import TrustStore

  // ---- Sealed parts ---------------------------------------------------------------

  /** The key that a share is wrapped under: the key shared with the peer, bound to the document and to both
      names. */
  predicate WrapsUnder(priv: int, peer: seq<Byte>, s: Share, to: seq<Byte>, from: seq<Byte>, key: seq<Byte>) {
    hide *;
    && Encode(s.recipient) == Some(to) && Encode(s.sender) == Some(from)
    && Ecdh.SharedKey(priv, peer,
         AsciiBytes("wrap|") + s.docId + AsciiBytes("|to=") + to + AsciiBytes("|from=") + from) == Ok(key)
  }

  /** A share unwraps to a file key exactly when the key it is wrapped under opens it to that. */
  lemma UnwrapsIff(dhPriv: int, s: Share, fk: seq<Byte>)
    ensures UnwrapFk(dhPriv, s) == Some(fk)
       <==> exists to, from, key :: WrapsUnder(dhPriv, s.ephPub, s, to, from, key)
              && Gcm.Open(key, s.nonce, s.wrappedFk, s.tag, []) == Ok(Some(fk))
  {
    hide Encode, Ecdh.SharedKey, Gcm.Open, Info;
    var info := Info(s.docId, s.recipient, s.sender);
    if Encode(s.recipient).Some? && Encode(s.sender).Some? {
      var to, from := Encode(s.recipient).value, Encode(s.sender).value;
      InfoText(s.docId, s.recipient, s.sender, to, from);
      if Ecdh.SharedKey(dhPriv, s.ephPub, info.value).Ok? {
        var key := Ecdh.SharedKey(dhPriv, s.ephPub, info.value).value;
        assert WrapsUnder(dhPriv, s.ephPub, s, to, from, key);
      }
    } else {
      NoInfo(s.docId, s.recipient, s.sender);
    }
  }

  lemma NoInfo(docId: seq<Byte>, recipient: Str, sender: Str)
    requires Encode(recipient).None? || Encode(sender).None?
    ensures Info(docId, recipient, sender) == None
  {
    hide Encode;
  }

  /** A document opens to a payload exactly when its ciphertext, with the raw header as associated data, opens
      to the bytes of that payload. */
  lemma OpensIff(fk: seq<Byte>, d: ParsedDocument, p: Payload)
    ensures OpenDocument(fk, d) == Some(p)
       <==> exists bytes :: Gcm.Open(fk, d.nonce, d.ciphertext, d.tag, d.headerAad) == Ok(Some(bytes))
              && UnpackPayload(bytes) == Some(p)
  {
    hide Gcm.Open, UnpackPayload;
  }

  // ---- Downloads ------------------------------------------------------------------

  /** What a delivered file rests on. */
  datatype Evidence = Evidence(document: ParsedDocument, share: Share, trust: TrustStore.Entries, sender: Bundle,
                               body: seq<Byte>, fk: seq<Byte>, payload: Payload, owner: Bundle)

  /** The share is addressed to the reader, names the document's ciphertext, and is signed under the keys that
      the reader trusts for its sender; the file key that it wraps opens the document; and the content is signed
      under the keys that the reader trusts for the owner. */
  ghost predicate Proves(s: State, trust: TrustStore.Entries, a: Account, copy: Copy, i: DownloadInputs, env: Env,
                         e: Evidence)
  {
    hide *;
    && UnpackDocument(copy.document) == Some(e.document) && UnpackShare(copy.share) == Some(e.share)
    && e.share.recipient == a.username && e.share.docHash == Sha256.Digest(e.document.ciphertext)
    && ContactKeys(s, a, trust, e.share.sender, i.senderConsent, env) == (e.trust, Some(e.sender))
    && PackShareBody(e.share.(shareSig := Zeros(64))) == Some(e.body)
    && Ecdsa.Genuine(e.sender.sigPub, e.body, e.share.shareSig)
    && UnwrapFk(a.dhPriv, e.share) == Some(e.fk) && OpenDocument(e.fk, e.document) == Some(e.payload)
    && ContactKeys(s, a, e.trust, e.document.header.owner, i.ownerConsent, env).1 == Some(e.owner)
    && Ecdsa.Genuine(e.owner.sigPub, Sha256.Digest(e.payload.content), e.payload.contentSig)
  }

  lemma SignedParcelIff(sigPub: seq<Byte>, s: Share)
    requires P256.StandardFacts()
    ensures ShareSigned(sigPub, s)
       <==> PackShareBody(s.(shareSig := Zeros(64))).Some?
            && Ecdsa.Genuine(sigPub, PackShareBody(s.(shareSig := Zeros(64))).value, s.shareSig)
  {
    hide P256.StandardFacts, VerifyBytes, Ecdsa.Genuine, PackShareBody;
    assert ZERO_SIG == Zeros(64);
    var body := PackShareBody(s.(shareSig := Zeros(64)));
    if body.Some? {
      VerifyBytesIff(sigPub, body.value, s.shareSig);
    }
  }

  /** Some evidence supports the delivered bytes and name. */
  ghost predicate Supported(s: State, trust: TrustStore.Entries, a: Account, copy: Copy, i: DownloadInputs, env: Env,
                            x: Delivered)
  {
    hide *;
    exists e :: Proves(s, trust, a, copy, i, env, e) && x == Delivered(e.payload.content, e.document.header.owner)
  }

  /** Whatever the server holds: a download delivers exactly what such evidence supports. */
  lemma DownloadIff(s: State, trust: TrustStore.Entries, a: Account, docIdHex: Str, i: DownloadInputs, env: Env,
                    x: Delivered)
    requires P256.StandardFacts()
    ensures var (s', copy) := FetchDoc(s, a, docIdHex, i.fetch, env);
      DownloadFile(s, trust, a, docIdHex, i, env).2 == Some(x) <==>
        copy.Some? && i.writable && Supported(s', trust, a, copy.value, i, env, x)
  {
    hide P256.StandardFacts, FetchDoc, ContactKeys, OpenParcel, OpenPayload, ContentSigned, Proves;
    var (s', copy) := FetchDoc(s, a, docIdHex, i.fetch, env);
    if copy.Some? {
      if OpenParcel(a, copy.value).Some? {
        var p := OpenParcel(a, copy.value).value;
        var (trust1, sender) := ContactKeys(s', a, trust, p.share.sender, i.senderConsent, env);
        if sender.Some? && OpenPayload(a, p, sender.value).Some? {
          var payload := OpenPayload(a, p, sender.value).value;
          var (trust2, owner) := ContactKeys(s', a, trust1, p.document.header.owner, i.ownerConsent, env);
          if owner.Some? && ContentSigned(owner.value.sigPub, payload) {
            EvidenceOf(s', trust, a, copy.value, i, env);
          }
        }
      }
      forall e | Proves(s', trust, a, copy.value, i, env, e)
        ensures OpenParcel(a, copy.value) == Some(Parcel(e.document, e.share))
        ensures OpenPayload(a, Parcel(e.document, e.share), e.sender) == Some(e.payload)
        ensures ContentSigned(e.owner.sigPub, e.payload)
        ensures ContactKeys(s', a, trust, e.share.sender, i.senderConsent, env) == (e.trust, Some(e.sender))
        ensures ContactKeys(s', a, e.trust, e.document.header.owner, i.ownerConsent, env).1 == Some(e.owner)
      {
        EvidenceSuffices(s', trust, a, copy.value, i, env, e);
      }
    }
  }

  /** What has passed the checks is evidence. */
  lemma EvidenceOf(s: State, trust: TrustStore.Entries, a: Account, copy: Copy, i: DownloadInputs, env: Env)
    requires P256.StandardFacts() && OpenParcel(a, copy).Some?
    requires var p := OpenParcel(a, copy).value;
      var (trust1, sender) := ContactKeys(s, a, trust, p.share.sender, i.senderConsent, env);
      && sender.Some? && OpenPayload(a, p, sender.value).Some?
      && var owner := ContactKeys(s, a, trust1, p.document.header.owner, i.ownerConsent, env).1;
         owner.Some? && ContentSigned(owner.value.sigPub, OpenPayload(a, p, sender.value).value)
    ensures var p := OpenParcel(a, copy).value;
      var sender := ContactKeys(s, a, trust, p.share.sender, i.senderConsent, env).1.value;
      exists e :: Proves(s, trust, a, copy, i, env, e) && e.document == p.document
                  && e.payload == OpenPayload(a, p, sender).value
  {
    hide P256.StandardFacts, ContactKeys, UnpackDocument, UnpackShare, UnwrapFk, OpenDocument, PackShareBody,
         Ecdsa.Genuine, VerifyBytes, Sha256.Digest, ShareSigned;
    var p := OpenParcel(a, copy).value;
    var (trust1, sender) := ContactKeys(s, a, trust, p.share.sender, i.senderConsent, env);
    var owner := ContactKeys(s, a, trust1, p.document.header.owner, i.ownerConsent, env).1;
    var payload := OpenPayload(a, p, sender.value).value;
    SignedParcelIff(sender.value.sigPub, p.share);
    VerifyBytesIff(owner.value.sigPub, Sha256.Digest(payload.content), payload.contentSig);
    var e := Evidence(p.document, p.share, trust1, sender.value, PackShareBody(p.share.(shareSig := Zeros(64))).value,
                      UnwrapFk(a.dhPriv, p.share).value, payload, owner.value);
    assert Proves(s, trust, a, copy, i, env, e);
  }

  lemma EvidenceSuffices(s: State, trust: TrustStore.Entries, a: Account, copy: Copy, i: DownloadInputs, env: Env,
                         e: Evidence)
    requires P256.StandardFacts() && Proves(s, trust, a, copy, i, env, e)
    ensures OpenParcel(a, copy) == Some(Parcel(e.document, e.share))
    ensures OpenPayload(a, Parcel(e.document, e.share), e.sender) == Some(e.payload)
    ensures ContentSigned(e.owner.sigPub, e.payload)
    ensures ContactKeys(s, a, trust, e.share.sender, i.senderConsent, env) == (e.trust, Some(e.sender))
    ensures ContactKeys(s, a, e.trust, e.document.header.owner, i.ownerConsent, env).1 == Some(e.owner)
  {
    hide P256.StandardFacts, ContactKeys, UnpackDocument, UnpackShare, UnwrapFk, OpenDocument, PackShareBody,
         Ecdsa.Genuine, VerifyBytes, Sha256.Digest, ShareSigned;
    SignedParcelIff(e.sender.sigPub, e.share);
    VerifyBytesIff(e.owner.sigPub, Sha256.Digest(e.payload.content), e.payload.contentSig);
  }

  // ---- Contacts ---------------------------------------------------------------------

  /** The keys in a reply of the server that the trust store may take: a known contact's must have the recorded
      fingerprint, the hash of both keys in hexadecimal; a new one's are recorded if the user consents. */
  predicate Taken(trust: TrustStore.Entries, name: Str, b: Bundle, consent: bool, trust': TrustStore.Entries) {
    hide *;
    var fingerprint := ToHex(Sha256.Digest(b.sigPub + b.dhPub));
    if name in trust then trust[name].fingerprint == fingerprint && trust' == trust
    else consent && trust' == trust[name := TrustStore.Entry(fingerprint, TrustStore.Status.UNVERIFIED)]
  }

  /** Which keys a client goes by: its own for its own name, and else those of the server that the trust store
      takes. */
  lemma ContactKeysIff(s: State, a: Account, trust: TrustStore.Entries, name: Str, consent: bool, env: Env,
                       trust': TrustStore.Entries, b: Bundle)
    ensures ContactKeys(s, a, trust, name, consent, env) == (trust', Some(b)) <==>
      if name == a.username then trust' == trust && b == Bundle(a.sigPub, a.dhPub)
      else RoundTrip(s, GetUserPubkey(name), env).1 == KeysReply(b.sigPub, b.dhPub)
           && Taken(trust, name, b, consent, trust')
  {
    hide RoundTrip, ToHex, Sha256.Digest;
  }

  // ---- What is sent -----------------------------------------------------------------

  /** The bytes of a new share: an ephemeral key, and the file key wrapped with GCM under a zero nonce and the
      shared key of the ephemeral scalar and the reader, all signed by the sender. */
  lemma ShareMade(a: Account, docId: seq<Byte>, version: int, docHash: seq<Byte>, recipient: Str, dhPub: seq<Byte>,
                  fk: seq<Byte>, i: ShareInputs, blob: seq<Byte>, s: Share)
    requires P256.StandardFacts() && ShareInputsOk(i)
    requires MakeShare(a, docId, version, docHash, recipient, dhPub, fk, i) == Some(blob)
    requires UnpackShare(blob) == Some(s)
    ensures s.docId == docId && s.version == version && s.docHash == docHash && s.sender == a.username
            && s.recipient == recipient && s.issuedMs == i.now && s.nonce == Zeros(12)
    ensures Ecdh.PublicKey(i.ephPriv) == Some(s.ephPub)
    ensures exists to, from, key ::
      WrapsUnder(i.ephPriv, dhPub, s, to, from, key)
      && Gcm.Seal(key, Zeros(12), fk, []) == Ok(Gcm.Sealed(s.wrappedFk, s.tag))
    ensures Ecdh.PublicKey(a.sigPriv).Some? && PackShareBody(s.(shareSig := Zeros(64))).Some?
    ensures Ecdsa.Genuine(Ecdh.PublicKey(a.sigPriv).value, PackShareBody(s.(shareSig := Zeros(64))).value, s.shareSig)
  {
    hide P256.StandardFacts, Ecdh.PublicKey, SignBytes, VerifyBytes, UnpackShare, PackShare, PackShareBody,
         Ecdh.SharedKey, Gcm.Seal, Encode, Info, Ecdsa.Genuine;
    assert ZERO_SIG == Zeros(64) && ZERO_NONCE == Zeros(12);
    var body := ShareBody(a.username, docId, version, docHash, recipient, dhPub, fk, i).value;
    var packed := PackShareBody(body).value;
    var sig := SignBytes(a.sigPriv, packed, i.k).value;
    SignedBytesVerify(a.sigPriv, packed, i.k);
    ShareIff(blob, body.(shareSig := sig));
    assert s.(shareSig := ZERO_SIG) == body;
    VerifyBytesIff(Ecdh.PublicKey(a.sigPriv).value, packed, sig);
    if Encode(recipient).None? || Encode(a.username).None? {
      NoInfo(docId, recipient, a.username);
      assert false;
    }
    var to, from := Encode(recipient).value, Encode(a.username).value;
    InfoText(docId, recipient, a.username, to, from);
    var key := Ecdh.SharedKey(i.ephPriv, dhPub, Info(docId, recipient, a.username).value).value;
    assert WrapsUnder(i.ephPriv, dhPub, s, to, from, key);
  }

  /** The bytes of a new document: under a zero nonce and the file key, with the header as associated data, a
      payload with the content, its name and type, and the owner's signature of its hash. */
  lemma DocumentMade(a: Account, filename: Str, content: seq<Byte>, i: DocumentInputs, blob: seq<Byte>,
                     d: ParsedDocument)
    requires P256.StandardFacts() && DocumentInputsOk(i)
    requires MakeDocument(a, filename, content, i).Some?
    requires DocumentBlob(MakeDocument(a, filename, content, i).value) == Some(blob)
    requires UnpackDocument(blob) == Some(d)
    ensures d.header == DocumentHeader(i.docId, a.username, 1, i.now) && d.nonce == Zeros(12)
    ensures Ecdh.PublicKey(a.sigPriv).Some?
    ensures exists bytes, sig ::
      && Gcm.Seal(i.fk, Zeros(12), bytes, d.headerAad) == Ok(Gcm.Sealed(d.ciphertext, d.tag))
      && UnpackPayload(bytes) == Some(Payload(filename, Ascii("application/octet-stream"), content, sig))
      && Ecdsa.Genuine(Ecdh.PublicKey(a.sigPriv).value, Sha256.Digest(content), sig)
  {
    hide P256.StandardFacts, Ecdh.PublicKey, SignBytes, VerifyBytes, UnpackDocument, PackDocumentHeader, PackDocument,
         PackPayload, UnpackPayload, Gcm.Seal, Gcm.Open, Sha256.Digest, Ecdsa.Genuine;
    assert ZERO_NONCE == Zeros(12);
    MadeDocumentOpens(a, filename, content, i, blob);
    var payload := MakePayload(a, filename, content, i.k).value;
    var bytes := PackPayload(payload).value;
    PayloadIff(bytes, payload);
    SignedBytesVerify(a.sigPriv, Sha256.Digest(content), i.k);
    VerifyBytesIff(Ecdh.PublicKey(a.sigPriv).value, Sha256.Digest(content), payload.contentSig);
    assert MIME == Ascii("application/octet-stream");
  }
}
