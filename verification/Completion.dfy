/** When the calls of a client complete: the conditions under which uploads, shares and logins
    succeed against an honest server, and no others. */
module Completion {
  import opened Bits
  import opened Wrappers
  import opened Utf8
  import opened Database
  import opened Formats
  import opened Server
  import opened Envelopes
  import opened Client
  import opened EndToEnd
  import opened Exchanges
  import opened Messages
  import opened Runs
  import Ecdh
  import Ecdsa
  import Hmac
  import Keystore
  import P256
  import Session
  import Sha256
  import TrustStore
  import Wire

  // ---- Uploads and shares --------------------------------------------------------------

  predicate NewNonce(s: State, nonce: Str) {
    nonce != [] && nonce !in s.session.usedNonces
  }

  /** A request a logged-in user signed is let through exactly when its nonce is new. */
  lemma SignedIsAdmissible(s: State, t: Truth, a: Account, r: Request, k: int)
    requires P256.StandardFacts() && Ecdsa.InRange(k) && TablesGood(s.db, t) && SessionGood(s.db, t, a)
    requires Authenticated(r) && !r.ChangePassword? && Caller(r) == a.username
    requires SignString(a.sigPriv, Canonical(r), k) == Some(r.signature)
    ensures Admissible(s, r) <==> NewNonce(s, r.nonce)
  {
    hide P256.StandardFacts, TablesGood, SignString, Canonical, Session.SignedBy, Encode, Ecdsa.InRange;
    UserStorable(s.db, t, a.username);
    SignedStringVerifies(s.db, t, a, Canonical(r), k);
  }

  /** A SHARE frame with these names, this identifier and this nonce fits. */
  predicate ShareFrameFits(sender: Str, recipient: Str, docIdHex: Str, nonce: Str) {
    hide *;
    SHARE_OVERHEAD + TextLength(sender) + TextLength(recipient) + TextLength(docIdHex) + TextLength(nonce)
    + DataLength(SHARE_BLOB_OVERHEAD + Size(sender) + Size(recipient)) <= Wire.MAX_MESSAGE_LEN
  }

  /** The share can be made of its parts, it and the request can be signed, the nonce is new, the
      time fits, and so does the frame. */
  predicate ShareReady(s: State, a: Account, docIdHex: Str, docId: seq<Byte>, version: int, docHash: seq<Byte>,
                       recipient: Str, dhPub: seq<Byte>, fk: seq<Byte>, i: ShareInputs, q: RequestInputs)
  {
    hide *;
    && ShareFits(a.username, docId, version, docHash, recipient, dhPub, fk, i.now) && Fits(i.now)
    && Signable(a.sigPriv, ShareMessage(a.username, docId, version, docHash, recipient, dhPub, fk, i), i.k)
    && SignableText(a.sigPriv, Session.PayloadShare(a.username, docIdHex, recipient, q.nonce), q.k)
    && NewNonce(s, q.nonce) && ShareFrameFits(a.username, recipient, docIdHex, q.nonce)
  }

  lemma ShareFrame(r: Request)
    requires r.ShareDoc? && |r.signature| == SIG_LEN
    requires |r.blob| == SHARE_BLOB_OVERHEAD + Size(r.sender) + Size(r.recipient)
    ensures RequestFits(r) <==> ShareFrameFits(r.sender, r.recipient, r.docIdHex, r.nonce)
  {
    hide TextLength, DataLength, RequestLength, Size;
    SignedLengths(r);
  }

  /** A logged-in user addresses a share of a stored document to a registered reader; nothing is said
      about who may read it. */
  ghost predicate Addresses(db: Tables, t: Truth, a: Account, docId: seq<Byte>, recipient: Str, dhPub: seq<Byte>) {
    SessionGood(db, t, a) && recipient in db.users && dhPub == db.users[recipient].dhPub && docId in db.documents
  }

  lemma WrapsAddresses(db: Tables, t: Truth, a: Account, docId: seq<Byte>, docHash: seq<Byte>, recipient: Str,
                       dhPub: seq<Byte>, fk: seq<Byte>)
    requires Wraps(db, t, a, docId, docHash, recipient, dhPub, fk)
    ensures Addresses(db, t, a, docId, recipient, dhPub)
  {
    hide SessionGood, UnpackDocument, Sha256.Digest;
  }

  lemma SendShareIff(s: State, t: Truth, a: Account, docIdHex: Str, docId: seq<Byte>, version: int, docHash: seq<Byte>,
                     recipient: Str, dhPub: seq<Byte>, fk: seq<Byte>, i: ShareInputs, q: RequestInputs, env: Env)
    requires P256.StandardFacts() && ShareInputsOk(i) && Ecdsa.InRange(q.k) && TablesGood(s.db, t)
    requires Addresses(s.db, t, a, docId, recipient, dhPub) && FromHex(docIdHex) == Some(docId)
    ensures SendShare(s, a, docIdHex, docId, version, docHash, recipient, dhPub, fk, i, q, env).1
       <==> ShareReady(s, a, docIdHex, docId, version, docHash, recipient, dhPub, fk, i, q)
  {
    hide P256.StandardFacts, MakeShare, SignString, Handle, RequestFits, TablesGood, ShareGood, NewShareRow,
         UnpackShare, UnpackDocument, Session.PayloadShare, Admissible, ShareInputsOk, Ecdsa.InRange, FromHex,
         Sha256.Digest, Encode, SessionGood, Signable, SignableText, ShareMessage, ShareFits, Size, ShareFrameFits;
    var blob := MakeShare(a, docId, version, docHash, recipient, dhPub, fk, i);
    var text := Session.PayloadShare(a.username, docIdHex, recipient, q.nonce);
    var sig := SignString(a.sigPriv, text, q.k);
    MakeShareIff(a, docId, version, docHash, recipient, dhPub, fk, i);
    SignStringIff(a.sigPriv, text, q.k);
    if blob.Some? && sig.Some? {
      var r := ShareDoc(a.username, recipient, docIdHex, q.nonce, sig.value, blob.value);
      assert Canonical(r) == text;
      ShareEffect(s, r, env);
      OkTrip(s, r, env);
      StringSignature(a.sigPriv, text, q.k);
      ShareFrame(r);
      SignedIsAdmissible(s, t, a, r, q.k);
      UserStorable(s.db, t, recipient);
      MadeShareLength(a, docId, version, docHash, recipient, dhPub, fk, i);
      MadeShareRow(t, s.db, a, docIdHex, docId, version, docHash, recipient, dhPub, fk, i, r);
    }
  }

  lemma MadeShareLength(a: Account, docId: seq<Byte>, version: int, docHash: seq<Byte>, recipient: Str,
                        dhPub: seq<Byte>, fk: seq<Byte>, i: ShareInputs)
    requires MakeShare(a, docId, version, docHash, recipient, dhPub, fk, i).Some?
    ensures |docId| == DOC_ID_LEN
  {
    hide Info, Ecdh.PublicKey, Envelopes.SharedKey, Seal, SignBytes, PackU32, PackU64, PackStr;
  }

  /** The server accepts the fields of a share that a client made. */
  lemma MadeShareRow(t: Truth, db: Tables, a: Account, docIdHex: Str, docId: seq<Byte>, version: int,
                     docHash: seq<Byte>,
                     recipient: Str, dhPub: seq<Byte>, fk: seq<Byte>, i: ShareInputs, r: Request)
    requires P256.StandardFacts() && ShareInputsOk(i) && TablesGood(db, t)
    requires Addresses(db, t, a, docId, recipient, dhPub) && |docId| == DOC_ID_LEN && FromHex(docIdHex) == Some(docId)
    requires r.ShareDoc? && r.sender == a.username && r.recipient == recipient && r.docIdHex == docIdHex
    requires MakeShare(a, docId, version, docHash, recipient, dhPub, fk, i) == Some(r.blob)
    ensures NewShareRow(r) == Ok(NewShare(ShareKey(docId, recipient), ShareRow(r.blob, i.now)))
  {
    hide P256.StandardFacts, MakeShare, TablesGood, UnpackShare, UnpackDocument, UnwrapFk, ShareSigned, Sha256.Digest,
         Ecdh.PublicKey, FromHex, Encode;
    UserKnown(db, t, recipient);
    UserKnown(db, t, a.username);
    MadeShareOpens(a, docId, version, docHash, recipient, t.users[recipient].dhPriv, fk, i, r.blob);
  }

  /** What `share` wraps, as the stored document and the truth give it, once the copy is fetched. */
  predicate ReshareReady(s: State, t: Truth, a: Account, docIdHex: Str, recipient: Str, i: ReshareInputs, env: Env) {
    hide *;
    var docId := FromHex(docIdHex);
    && docId.Some? && docId.value in s.db.documents && docId.value in t.files && recipient in s.db.users
    && UnpackDocument(s.db.documents[docId.value].blob).Some?
    && var d := UnpackDocument(s.db.documents[docId.value].blob).value;
       ShareReady(FetchDoc(s, a, docIdHex, i.fetch, env).0, a, docIdHex, docId.value, d.header.version,
                  Sha256.Digest(d.ciphertext), recipient, s.db.users[recipient].dhPub, t.files[docId.value].fk,
                  i.share, i.shareRequest)
  }

  lemma RecoverIs(db: Tables, t: Truth, a: Account, docIdHex: Str, c: Copy)
    requires SessionGood(db, t, a) && CopySound(db, t, a, docIdHex, c)
    ensures var docId := FromHex(docIdHex);
      docId.Some? && docId.value in t.files && docId.value in db.documents
      && UnpackDocument(db.documents[docId.value].blob).Some?
      && Recover(a, c) == Some(Recovered(t.files[docId.value].fk, UnpackDocument(db.documents[docId.value].blob).value))
  {
    hide TablesGood, UnpackDocument, UnpackShare, UnwrapFk, OpenDocument, ContentSigned, ShareSigned, Sha256.Digest,
         FromHex, Handle, Ecdh.PublicKey, Encode, UserGood;
  }

  /** `share` completes exactly when the user can fetch the document, accepts the recipient's
      keys, and the new share is ready; the user's own copy never fails to give the file key. */
  lemma ShareCompletes(s: State, t: Truth, a: Account, trust: TrustStore.Entries, docIdHex: Str, recipient: Str,
                       i: ReshareInputs, env: Env)
    requires P256.StandardFacts() && ShareInputsOk(i.share) && Ecdsa.InRange(i.fetch.k)
    requires Ecdsa.InRange(i.shareRequest.k)
    requires TablesGood(s.db, t) && SessionGood(s.db, t, a) && TrustGood(s.db, trust)
    ensures ShareWith(s, trust, a, docIdHex, recipient, i, env).2
       <==> recipient in s.db.users && (recipient == a.username || recipient in trust || i.consent)
            && CanFetch(s, a, docIdHex, i.fetch) && ReshareReady(s, t, a, docIdHex, recipient, i, env)
  {
    hide P256.StandardFacts, TablesGood, SessionGood, Addresses, ShareInputsOk, ContactKeys, FetchDoc, Recover,
         SendShare, CanFetch, FromHex, HasCopy, CopySound, Wraps, ShareReady, Sha256.Digest, TrustGood, Ecdsa.InRange,
         UnpackDocument;
    ContactKeysGood(s, t, a, trust, recipient, i.consent, env);
    FetchGood(s, a, docIdHex, i.fetch, env);
    FetchIff(s, t, a, docIdHex, i.fetch, env);
    var (trust', keys) := ContactKeys(s, a, trust, recipient, i.consent, env);
    var (s1, copy) := FetchDoc(s, a, docIdHex, i.fetch, env);
    if keys.Some? && copy.Some? {
      CopyGood(s.db, t, a, docIdHex, copy.value);
      RecoverGood(s.db, t, a, docIdHex, copy.value, recipient, keys.value.dhPub);
      RecoverIs(s.db, t, a, docIdHex, copy.value);
      var r, docId := Recover(a, copy.value).value, FromHex(docIdHex).value;
      WrapsAddresses(s1.db, t, a, docId, Sha256.Digest(r.document.ciphertext), recipient, keys.value.dhPub, r.fk);
      SendShareIff(s1, t, a, docIdHex, docId, r.document.header.version, Sha256.Digest(r.document.ciphertext),
                   recipient, keys.value.dhPub, r.fk, i.share, i.shareRequest, env);
    }
  }

  /** What the document of an upload is sealed to. */
  function Ciphertext(a: Account, filename: Str, content: seq<Byte>, i: DocumentInputs): seq<Byte> {
    hide MakeDocument;
    if MakeDocument(a, filename, content, i).None? then [] else MakeDocument(a, filename, content, i).value.ciphertext
  }

  /** The bytes of an uploaded blob. */
  function BlobSize(owner: Str, filename: Str, content: seq<Byte>): nat {
    DOCUMENT_OVERHEAD + Size(owner) + Size(filename) + |content|
  }

  /** An UPLOAD frame with this owner, nonce and blob size fits. */
  predicate UploadFrameFits(owner: Str, nonce: Str, size: nat) {
    UPLOAD_OVERHEAD + TextLength(owner) + TextLength(nonce) + DataLength(size) <= Wire.MAX_MESSAGE_LEN
  }

  /** Document and share can be made of their parts and signed, both requests can be signed, their
      nonces are new and differ, the times and both frames fit, and nobody has used the identifier. */
  predicate UploadReady(s: State, a: Account, filename: Str, content: seq<Byte>, i: UploadInputs) {
    hide *;
    && DocumentFits(a.username, filename, content, i.document) && Fits(i.document.now)
    && Signable(a.sigPriv, Sha256.Digest(content), i.document.k) && i.document.docId !in s.db.documents
    && SignableText(a.sigPriv, Session.PayloadUpload(a.username, i.request.nonce), i.request.k)
    && NewNonce(s, i.request.nonce) && i.shareRequest.nonce != i.request.nonce
    && UploadFrameFits(a.username, i.request.nonce, BlobSize(a.username, filename, content))
    && ShareReady(s, a, ToHex(i.document.docId), i.document.docId, 1,
                  Sha256.Digest(Ciphertext(a, filename, content, i.document)), a.username, a.dhPub, i.document.fk,
                  i.share, i.shareRequest)
  }

  lemma UploadFrame(r: Request)
    requires r.Upload? && |r.signature| == SIG_LEN
    ensures RequestFits(r) <==> UploadFrameFits(r.owner, r.nonce, |r.document|)
  {
    hide TextLength, DataLength, RequestLength;
    SignedLengths(r);
  }

  /** The first request of an upload. */
  lemma FirstRequestIff(s: State, t: Truth, a: Account, filename: Str, content: seq<Byte>, i: UploadInputs,
                        d: ParsedDocument, r: Request, env: Env)
    requires P256.StandardFacts() && Ecdsa.InRange(i.request.k) && TablesGood(s.db, t) && SessionGood(s.db, t, a)
    requires MakeDocument(a, filename, content, i.document) == Some(d)
    requires r.Upload? && r.owner == a.username && r.nonce == i.request.nonce && DocumentBlob(d) == Some(r.document)
    requires SignString(a.sigPriv, Session.PayloadUpload(a.username, i.request.nonce), i.request.k) == Some(r.signature)
    ensures RoundTrip(s, r, env).1.Uploaded?
       <==> NewNonce(s, r.nonce) && Fits(i.document.now) && i.document.docId !in s.db.documents
            && UploadFrameFits(a.username, r.nonce, |r.document|)
    ensures RoundTrip(s, r, env).1.Uploaded? ==>
              RoundTrip(s, r, env).0.session.usedNonces == s.session.usedNonces + {r.nonce}
  {
    hide P256.StandardFacts, TablesGood, SessionGood, Ecdsa.InRange, Handle, RequestFits, UploadFrameFits,
         MakeDocument, DocumentBlob, SignString, Admissible, UploadRow, Session.PayloadUpload;
    MadeUploadRow(a, filename, content, i.document, d, r);
    UploadEffect(s, r, env);
    OkTrip(s, r, env);
    StringSignature(a.sigPriv, Session.PayloadUpload(a.username, i.request.nonce), i.request.k);
    UploadFrame(r);
    SignedIsAdmissible(s, t, a, r, i.request.k);
  }

  /** `upload` completes exactly when it is ready. */
  lemma UploadCompletes(s: State, t: Truth, a: Account, filename: Str, content: seq<Byte>, i: UploadInputs, env: Env)
    requires P256.StandardFacts() && UploadInputsOk(i) && Ecdsa.InRange(i.request.k) && Ecdsa.InRange(i.shareRequest.k)
    requires TablesGood(s.db, t) && SessionGood(s.db, t, a)
    ensures UploadFile(s, a, filename, content, i, env).1.Some? <==> UploadReady(s, a, filename, content, i)
  {
    hide P256.StandardFacts, MakeDocument, DocumentBlob, SignString, TablesGood, RoundTrip, UploadInputsOk, MakeShare,
         Fits, DocumentInputsOk, ShareInputsOk, SendShare, Wraps, Sha256.Digest, ToHex, Session.PayloadUpload,
         Session.PayloadShare, SessionGood, Ecdsa.InRange, Extends, Signable, SignableText, Addresses, DocumentFits,
         ShareFits, ShareMessage, Size, UploadFrameFits, ShareFrameFits;
    var d := MakeDocument(a, filename, content, i.document);
    var sig := SignString(a.sigPriv, Session.PayloadUpload(a.username, i.request.nonce), i.request.k);
    InputsSplit(i);
    MakeDocumentIff(a, filename, content, i.document);
    SignStringIff(a.sigPriv, Session.PayloadUpload(a.username, i.request.nonce), i.request.k);
    if d.Some? && sig.Some? {
      var r := Request.Upload(a.username, i.request.nonce, sig.value, DocumentBlob(d.value).value);
      FirstRequestIff(s, t, a, filename, content, i, d.value, r, env);
      FirstUploadStep(s, t, a, filename, content, i, d.value, r, env);
      var (s1, reply) := RoundTrip(s, r, env);
      if reply.Uploaded? {
        var t1 := Recorded(t, s.db, s1.db, a, content, i.document);
        var docId, hash := i.document.docId, Sha256.Digest(d.value.ciphertext);
        FromToHex(docId);
        WrapsAddresses(s1.db, t1, a, docId, hash, a.username, a.dhPub, i.document.fk);
        SendShareIff(s1, t1, a, ToHex(docId), docId, 1, hash, a.username, a.dhPub, i.document.fk,
                     i.share, i.shareRequest, env);
      }
    }
  }

  // ---- Uploaded and never fetched ---------------------------------------------------------------

  /** The server's rows after a completed upload are the blobs the client made. */
  lemma UploadedRows(s: State, t: Truth, a: Account, filename: Str, content: seq<Byte>, i: UploadInputs, env: Env)
    requires P256.StandardFacts() && UploadInputsOk(i) && TablesGood(s.db, t) && SessionGood(s.db, t, a)
    requires UploadFile(s, a, filename, content, i, env).1.Some?
    ensures var db := UploadFile(s, a, filename, content, i, env).0.db;
            var docId := i.document.docId;
      && docId in db.documents && |db.documents[docId].blob| == BlobSize(a.username, filename, content)
      && ShareKey(docId, a.username) in db.shares
      && |db.shares[ShareKey(docId, a.username)].blob| == SHARE_BLOB_OVERHEAD + 2 * Size(a.username)
  {
    hide P256.StandardFacts, MakeDocument, DocumentBlob, SignString, TablesGood, SessionGood, RoundTrip,
         UploadInputsOk, DocumentInputsOk, ShareInputsOk, SendShare, Sha256.Digest, ToHex, Session.PayloadUpload,
         Signable, Size, DocumentFits;
    var docId := i.document.docId;
    var d := MakeDocument(a, filename, content, i.document).value;
    var sig := SignString(a.sigPriv, Session.PayloadUpload(a.username, i.request.nonce), i.request.k).value;
    var r := Request.Upload(a.username, i.request.nonce, sig, DocumentBlob(d).value);
    var s1 := RoundTrip(s, r, env).0;
    InputsSplit(i);
    MakeDocumentIff(a, filename, content, i.document);
    StoredBlob(s, a, filename, content, i.document, d, r, env);
    FromToHex(docId);
    SendShareKeepsDocuments(s1, a, ToHex(docId), docId, 1, Sha256.Digest(d.ciphertext), a.username, a.dhPub,
                            i.document.fk, i.share, i.shareRequest, env);
    SentShareRow(s1, a, ToHex(docId), docId, 1, Sha256.Digest(d.ciphertext), a.username, a.dhPub, i.document.fk,
                 i.share, i.shareRequest, env);
  }

  lemma StoredBlob(s: State, a: Account, filename: Str, content: seq<Byte>, i: DocumentInputs, d: ParsedDocument,
                   r: Request, env: Env)
    requires MakeDocument(a, filename, content, i) == Some(d) && r.Upload? && r.owner == a.username
    requires DocumentBlob(d) == Some(r.document) && RoundTrip(s, r, env).1.Uploaded?
    ensures i.docId in RoundTrip(s, r, env).0.db.documents
    ensures RoundTrip(s, r, env).0.db.documents[i.docId].blob == r.document
  {
    hide MakeDocument, DocumentBlob, Handle, RequestFits, UploadRow, Admissible;
    MadeUploadRow(a, filename, content, i, d, r);
    UploadEffect(s, r, env);
    OkTrip(s, r, env);
  }

  lemma SentShareRow(s: State, a: Account, docIdHex: Str, docId: seq<Byte>, version: int, docHash: seq<Byte>,
                     recipient: Str, dhPub: seq<Byte>, fk: seq<Byte>, i: ShareInputs, q: RequestInputs, env: Env)
    requires P256.StandardFacts() && ShareInputsOk(i)
    requires SendShare(s, a, docIdHex, docId, version, docHash, recipient, dhPub, fk, i, q, env).1
    requires FromHex(docIdHex) == Some(docId)
    ensures var db := SendShare(s, a, docIdHex, docId, version, docHash, recipient, dhPub, fk, i, q, env).0.db;
      && ShareKey(docId, recipient) in db.shares
      && |db.shares[ShareKey(docId, recipient)].blob| == SHARE_BLOB_OVERHEAD + Size(a.username) + Size(recipient)
  {
    hide P256.StandardFacts, MakeShare, SignString, Handle, RequestFits, Admissible, NewShareRow,
         Session.PayloadShare, ShareInputsOk, FromHex, ShareMessage, ShareFits, Signable, Size;
    var blob := MakeShare(a, docId, version, docHash, recipient, dhPub, fk, i);
    var sig := SignString(a.sigPriv, Session.PayloadShare(a.username, docIdHex, recipient, q.nonce), q.k);
    var r := ShareDoc(a.username, recipient, docIdHex, q.nonce, sig.value, blob.value);
    MakeShareIff(a, docId, version, docHash, recipient, dhPub, fk, i);
    ShareEffect(s, r, env);
    OkTrip(s, r, env);
    ShareRowIs(r);
  }

  lemma ShareRowIs(r: Request)
    requires r.ShareDoc? && NewShareRow(r).Ok?
    ensures FromHex(r.docIdHex).Some? && NewShareRow(r).value.key == ShareKey(FromHex(r.docIdHex).value, r.recipient)
    ensures NewShareRow(r).value.row.blob == r.blob
  {
    hide FromHex, UnpackShare;
  }

  /** The DOC frame that brings an uploader his own document. */
  predicate OwnDocFits(owner: Str, filename: Str, content: seq<Byte>) {
    DOC_OVERHEAD + DataLength(BlobSize(owner, filename, content)) + DataLength(SHARE_BLOB_OVERHEAD + 2 * Size(owner))
    <= Wire.MAX_MESSAGE_LEN
  }

  /** After an upload that completed, its owner can fetch the document exactly when the request is
      signed, new and short enough and the reply, which carries the share too, fits. */
  lemma UploadedIsFetched(s: State, t: Truth, a: Account, filename: Str, content: seq<Byte>, i: UploadInputs, env: Env,
                          docIdHex: Str, q: RequestInputs, env': Env)
    requires P256.StandardFacts() && UploadInputsOk(i) && Ecdsa.InRange(q.k) && TablesGood(s.db, t)
    requires SessionGood(s.db, t, a)
    requires UploadFile(s, a, filename, content, i, env).1.Some? && FromHex(docIdHex) == Some(i.document.docId)
    ensures var s' := UploadFile(s, a, filename, content, i, env).0;
      FetchDoc(s', a, docIdHex, q, env').1.Some?
      <==> SignableText(a.sigPriv, Session.PayloadDownload(a.username, docIdHex, q.nonce), q.k) && NewNonce(s', q.nonce)
           && GetDocFits(a.username, docIdHex, q.nonce) && OwnDocFits(a.username, filename, content)
  {
    hide P256.StandardFacts, TablesGood, SessionGood, UploadInputsOk, UploadFile, FetchDoc, SignString, SignableText,
         FromHex, Session.PayloadDownload, Extends, Size, TextLength, DataLength, Ecdsa.InRange;
    var s' := UploadFile(s, a, filename, content, i, env).0;
    var t' := Recorded(t, s.db, s'.db, a, content, i.document);
    UploadKeeps(s, t, a, filename, content, i, env);
    SessionGoodExtends(s.db, t, s'.db, t', a);
    UploadedRows(s, t, a, filename, content, i, env);
    FetchIff(s', t', a, docIdHex, q, env');
    SignStringIff(a.sigPriv, Session.PayloadDownload(a.username, docIdHex, q.nonce), q.k);
  }

  /** Under one-letter names and a nonce of 24 plain characters, a file of 100,662,998 bytes makes an
      UPLOAD frame of 134,217,726 bytes, two below the limit, and a DOC frame of 134,217,919. */
  lemma TooLongToReturn(owner: Str, filename: Str, nonce: Str, content: seq<Byte>)
    requires Size(owner) == 1 && TextLength(owner) == 3 && Size(filename) == 1 && TextLength(nonce) == 26
    requires |content| == 100_662_998
    ensures UploadFrameFits(owner, nonce, BlobSize(owner, filename, content))
    ensures UPLOAD_OVERHEAD + TextLength(owner) + TextLength(nonce) + DataLength(BlobSize(owner, filename, content))
            == 134_217_726
    ensures DOC_OVERHEAD + DataLength(BlobSize(owner, filename, content))
            + DataLength(SHARE_BLOB_OVERHEAD + 2 * Size(owner)) == 134_217_919
    ensures !OwnDocFits(owner, filename, content)
  {
    hide TextLength, Size;
  }

  /** Such a file uploads, and its owner never gets it back. */
  lemma UploadedNeverFetched(s: State, t: Truth, a: Account, filename: Str, content: seq<Byte>, i: UploadInputs,
                             env: Env,
                             docIdHex: Str, q: RequestInputs, env': Env)
    requires P256.StandardFacts() && UploadInputsOk(i) && TablesGood(s.db, t) && SessionGood(s.db, t, a)
    requires Ecdsa.InRange(i.request.k) && Ecdsa.InRange(i.shareRequest.k) && Ecdsa.InRange(q.k)
    requires UploadReady(s, a, filename, content, i) && FromHex(docIdHex) == Some(i.document.docId)
    requires Size(a.username) == 1 && TextLength(a.username) == 3 && Size(filename) == 1
    requires TextLength(i.request.nonce) == 26 && |content| == 100_662_998
    ensures UploadFile(s, a, filename, content, i, env).1.Some?
    ensures FetchDoc(UploadFile(s, a, filename, content, i, env).0, a, docIdHex, q, env').1.None?
  {
    hide P256.StandardFacts, TablesGood, SessionGood, UploadInputsOk, UploadFile, FetchDoc, UploadReady, FromHex,
         Ecdsa.InRange, Size, TextLength, SignableText, Session.PayloadDownload, GetDocFits, OwnDocFits;
    UploadCompletes(s, t, a, filename, content, i, env);
    UploadedIsFetched(s, t, a, filename, content, i, env, docIdHex, q, env');
    TooLongToReturn(a.username, filename, i.request.nonce, content);
  }

  // ---- Logging in -------------------------------------------------------------------------

  /** A challenge issued now is still good for the time to live. */
  lemma IssuedIsConsumed(s: Session.Contents, name: Str, challenge: seq<Byte>, now: real, later: real)
    ensures Session.Consume(Session.Issue(s, name, challenge, now), name, later).1
         == if later - now > Session.CHALLENGE_TTL_SECONDS then None else Some(challenge)
  {
  }

  /** The first request of a login. */
  lemma ChallengeTrip(s: State, t: Truth, name: Str, env: Env)
    requires TablesGood(s.db, t) && name in s.db.users && |env.challenge| == Session.CHALLENGE_LEN
    ensures RoundTrip(s, LoginChallenge(name), env) ==
              (s.(session := Session.Issue(s.session, name, env.challenge, env.now)),
               ChallengeReply(s.db.users[name].salt, s.db.users[name].argon2, env.challenge))
  {
    hide TablesGood, Handle, RequestFits, ReplyFits, Session.Issue, Encode, Hmac.HmacSha256;
    UserKnown(s.db, t, name);
    UserStorable(s.db, t, name);
    ChallengeEffect(s, name, env);
    NamedFits(name, []);
    var u := s.db.users[name];
    SmallReplies(LoginChallenge(name), u.salt, u.argon2, env.challenge, u.sigPub, u.dhPub);
  }

  /** The second, with an answer signed by the login key. */
  lemma LoginTrip(s: State, t: Truth, name: Str, priv: int, challenge: seq<Byte>, k: int, env: Env)
    requires P256.StandardFacts() && Ecdsa.InRange(k) && TablesGood(s.db, t) && name in s.db.users
    requires SignBytes(priv, challenge, k).Some? && Ecdh.PublicKey(priv) == Some(s.db.users[name].authPub)
    ensures Session.Consume(s.session, name, env.now).1 == Some(challenge) ==>
              RoundTrip(s, Login(name, Some(SignBytes(priv, challenge, k).value)), env).1 == Done
    ensures Session.Consume(s.session, name, env.now).1 == None ==>
              RoundTrip(s, Login(name, Some(SignBytes(priv, challenge, k).value)), env).1 != Done
  {
    hide P256.StandardFacts, TablesGood, Handle, RequestFits, NameFits, SignBytes, Session.Consume, Encode,
         Ecdsa.Verify, Ecdsa.SignatureFromBytes, Ecdsa.InRange, Ecdh.PublicKey;
    var sig := SignBytes(priv, challenge, k).value;
    UserKnown(s.db, t, name);
    UserStorable(s.db, t, name);
    SignedBytesVerify(priv, challenge, k);
    LoginEffect(s, name, Some(sig), env);
    OkTrip(s, Login(name, Some(sig)), env);
    NamedFits(name, sig);
  }

  /** With the current password, after any number of password changes, a login completes exactly
      when the challenge can be signed and the answer comes within sixty seconds; and then the
      client holds the identity keys of the sign-up. */
  lemma LogInCompletes(w: World, t: Truth, kdf: Kdf, name: Str, k: int, env: Env, env': Env)
    requires P256.StandardFacts() && Ecdsa.InRange(k) && Sound(w, t, kdf) && name in t.users
    requires |env.challenge| == Session.CHALLENGE_LEN
    ensures var u := w.server.db.users;
      name in u && Derive(kdf, t.users[name].password, u[name].salt, u[name].argon2).Some?
    ensures var u := w.server.db.users[name]; var keys := Derive(kdf, t.users[name].password, u.salt, u.argon2).value;
            var got := LogIn(w.server, KeyFileOf(w, name), kdf, name, t.users[name].password, k, env, env').1;
      && (got.Some? <==> Signable(keys.authScalar, env.challenge, k)
                         && env'.now - env.now <= Session.CHALLENGE_TTL_SECONDS)
      && (got.Some? ==> got.value.username == name && SessionGood(w.server.db, t, got.value))
  {
    hide P256.StandardFacts, Sound, TablesGood, SessionGood, TrustGood, KeyFileGood, Derive, OpenAccount, RoundTrip,
         SignBytes, Session.Issue, Session.Consume, Ecdsa.InRange, Ecdh.PublicKey, Signable;
    var s, password := w.server, t.users[name].password;
    SoundParts(w, t, kdf, name);
    OpenedAccount(s.db, t, kdf, name, w.keyFiles[name]);
    ChallengeTrip(s, t, name, env);
    var s1 := RoundTrip(s, LoginChallenge(name), env).0;
    var keys := Derive(kdf, password, s.db.users[name].salt, s.db.users[name].argon2).value;
    SignBytesIff(keys.authScalar, env.challenge, k);
    if SignBytes(keys.authScalar, env.challenge, k).Some? {
      LoginTrip(s1, t, name, keys.authScalar, env.challenge, k, env');
      IssuedIsConsumed(s.session, name, env.challenge, env.now, env'.now);
    }
  }

  // ---- Calls the server refuses --------------------------------------------------------------

  lemma NewUserForm(kdf: Kdf, password: Str, i: SignupInputs)
    requires NewUser(kdf, password, i).Some?
    ensures var u := NewUser(kdf, password, i).value;
      && u.salt == i.salt && u.argon2 == ARGON2
      && |u.authPub| == PUBLIC_KEY_LEN && |u.sigPub| == PUBLIC_KEY_LEN && |u.dhPub| == PUBLIC_KEY_LEN
    ensures Derive(kdf, password, i.salt, ARGON2).Some?
  {
    hide Derive, Ecdh.PublicKey;
    PublicKeyLength(Derive(kdf, password, i.salt, ARGON2).value.authScalar);
    PublicKeyLength(i.sigPriv);
    PublicKeyLength(i.dhPriv);
  }

  /** Scalars that a client draws can always be registered and sealed, when the password gives keys and
      the path of the key file can be written. */
  lemma SignUpSends(kdf: Kdf, password: Str, i: SignupInputs)
    requires P256.StandardFacts() && SignupInputsOk(i)
    ensures Derive(kdf, password, i.salt, ARGON2).Some? <==> Encode(password).Some?
    ensures NewUser(kdf, password, i).Some? <==> Encode(password).Some?
    ensures NewKeyFile(kdf, password, i).Some? <==> Encode(password).Some? && i.writable
  {
    hide P256.StandardFacts, Ecdh.PublicKey, Encode, Keystore.Sealed, AuthScalar, Hmac.DeriveAuthKey, Hmac.DeriveKek;
    var keys := Derive(kdf, password, i.salt, ARGON2);
    if keys.Some? {
      Ecdh.PublicKeyDecodes(keys.value.authScalar);
      Ecdh.PublicKeyDecodes(i.sigPriv);
      Ecdh.PublicKeyDecodes(i.dhPriv);
      ScalarsOfKeys(i);
      Keystore.SealedDefined(Keystore.Keys(i.sigPriv, i.dhPriv), keys.value.kek, i.nonce);
    }
  }

  lemma ScalarsOfKeys(i: SignupInputs)
    requires SignupInputsOk(i)
    ensures Keystore.ScalarsFit(Keystore.Keys(i.sigPriv, i.dhPriv))
  {
    P256.FieldElementFits();
  }

  /** `signup` stops without a trace when the password does not encode or the key file cannot be written
      under the name. Otherwise it replaces the key file whether or not the server accepts the name: the
      file then holds the new scalars under the new password, while the server keeps what it had. */
  lemma SignUpWritesFirst(s: State, file: Option<seq<Byte>>, kdf: Kdf, name: Str, password: Str, i: SignupInputs,
                          env: Env)
    requires P256.StandardFacts() && SignupInputsOk(i)
    ensures var (s', file', ok) := SignUp(s, file, kdf, name, password, i, env);
      if !(Encode(password).Some? && i.writable) then s' == s && file' == file && !ok
      else
        && (ok <==> |i.salt| == SALT_LEN && NameFits(name) && Storable(name) && name !in s.db.users)
        && (!ok ==> s' == s)
        && Derive(kdf, password, i.salt, ARGON2).Some?
        && Keystore.Opened(file', Derive(kdf, password, i.salt, ARGON2).value.kek)
           == Ok(Keystore.Keys(i.sigPriv, i.dhPriv))
  {
    hide P256.StandardFacts, Handle, RequestFits, NameFits, Derive, Keystore.Opened, Keystore.Sealed, NewUser, Encode,
         SignupInputsOk;
    SignUpSends(kdf, password, i);
    if Encode(password).Some? && i.writable {
      var r := Register(name, NewUser(kdf, password, i).value);
      NewUserForm(kdf, password, i);
      RegisterEffect(s, r, env);
      OkTrip(s, r, env);
      if WellFormed(r) {
        RegisterFits(r);
      }
      var kek := Derive(kdf, password, i.salt, ARGON2).value.kek;
      Keystore.SealedOpens(Keystore.Keys(i.sigPriv, i.dhPriv), kek, i.nonce);
    }
  }

  /** `change_password` rewraps the key file before it asks the server. It completes exactly when the
      request is sent and accepted; a request that was sent and not accepted leaves the server as it
      was and the file opening to the same keys under the new password. */
  lemma SwitchWritesFirst(s: State, file: Option<seq<Byte>>, kdf: Kdf, name: Str, oldPassword: Str,
                          newPassword: Str, i: ChangeInputs, env: Env)
    requires name in s.db.users && Storable(name) && Sized(name, s.db.users[name])
    ensures var (s', file', ok) := SwitchPassword(s, file, kdf, name, oldPassword, newPassword, i, env);
            var u := s.db.users[name];
            var oldKeys, newKeys := Derive(kdf, oldPassword, u.salt, u.argon2),
                                    Derive(kdf, newPassword, i.newSalt, ARGON2);
      if !SwitchSends(s.db, file, kdf, name, oldPassword, newPassword, i) then s' == s && file' == file && !ok
      else
        var r := ChangeRequest(name, oldKeys.value, newKeys.value, i).value;
        && r.ChangePassword? && (ok <==> PasswordAdmissible(s, r) && RequestFits(r)) && (!ok ==> s' == s)
        && Keystore.Opened(file', newKeys.value.kek) == Keystore.Opened(file, oldKeys.value.kek)
        && Keystore.Opened(file', newKeys.value.kek).Ok?
  {
    hide Sized, Handle, RequestFits, RoundTrip, Derive, Keystore.Opened, Keystore.Rewrapped, ChangeRequest,
         SwitchPassword, PasswordAdmissible, SignString, Ecdh.PublicKey, Canonical;
    SwitchSent(s, file, kdf, name, oldPassword, newPassword, i, env);
    if SwitchSends(s.db, file, kdf, name, oldPassword, newPassword, i) {
      var u := s.db.users[name];
      var oldKeys, newKeys := Derive(kdf, oldPassword, u.salt, u.argon2).value,
                              Derive(kdf, newPassword, i.newSalt, ARGON2).value;
      var r := ChangeRequest(name, oldKeys, newKeys, i).value;
      ChangeRequestIs(name, oldKeys, newKeys, i);
      PasswordEffect(s, r, env);
      OkTrip(s, r, env);
      RewrapGood(file, oldKeys.kek, newKeys.kek, i.nonce, i.writable);
    }
  }

  /** A CHANGE_PASSWORD frame with this name and nonce fits. */
  predicate ChangeFrameFits(name: Str, nonce: Str) {
    CHANGE_OVERHEAD + TextLength(name) + TextLength(nonce) <= Wire.MAX_MESSAGE_LEN
  }

  /** The keys that the user's password gives with the salt and parameters of the record. */
  function CurrentKeys(w: World, t: Truth, kdf: Kdf, name: Str): Option<Derived>
    requires name in t.users && name in w.server.db.users
  {
    hide *;
    Derive(kdf, t.users[name].password, w.server.db.users[name].salt, w.server.db.users[name].argon2)
  }

  /** The new password gives keys, the key file can be written and the old password's proof signed. */
  predicate GoesOut(w: World, t: Truth, kdf: Kdf, name: Str, newPassword: Str, i: ChangeInputs)
    requires name in t.users && name in w.server.db.users
  {
    hide *;
    var keys := CurrentKeys(w, t, kdf, name);
    && keys.Some? && Encode(newPassword).Some? && i.writable
    && SignableText(keys.value.authScalar, Session.PayloadChangePassword(name, i.request.nonce), i.request.k)
  }

  /** With the right old password, exactly then the request is sent. */
  lemma RightPasswordSends(w: World, t: Truth, kdf: Kdf, name: Str, newPassword: Str, i: ChangeInputs)
    requires P256.StandardFacts() && Ecdsa.InRange(i.request.k) && Sound(w, t, kdf) && name in t.users
    ensures name in w.server.db.users && KeyFileOf(w, name).Some?
    ensures var keys := CurrentKeys(w, t, kdf, name);
      && keys.Some? && Ecdh.PublicKey(keys.value.authScalar) == Some(w.server.db.users[name].authPub)
      && Keystore.Opened(KeyFileOf(w, name), keys.value.kek)
         == Ok(Keystore.Keys(t.users[name].sigPriv, t.users[name].dhPriv))
    ensures SwitchSends(w.server.db, KeyFileOf(w, name), kdf, name, t.users[name].password, newPassword, i)
       <==> GoesOut(w, t, kdf, name, newPassword, i)
  {
    hide P256.StandardFacts, Sound, TablesGood, SessionGood, TrustGood, Ecdsa.InRange, Keystore.Opened,
         Keystore.Sealed, SignString, SignableText, Ecdh.PublicKey, Encode, Hmac.DeriveAuthKey, Hmac.DeriveKek,
         AuthScalar, Session.PayloadChangePassword;
    SoundParts(w, t, kdf, name);
    var u, file := w.server.db.users[name], KeyFileOf(w, name);
    var oldKeys := Derive(kdf, t.users[name].password, u.salt, u.argon2).value;
    var newKeys := Derive(kdf, newPassword, i.newSalt, ARGON2);
    SignStringIff(oldKeys.authScalar, Session.PayloadChangePassword(name, i.request.nonce), i.request.k);
    if newKeys.Some? {
      Ecdh.PublicKeyDecodes(newKeys.value.authScalar);
      Keystore.OpenedFits(file, oldKeys.kek);
      Keystore.SealedDefined(Keystore.Opened(file, oldKeys.kek).value, newKeys.value.kek, i.nonce);
    }
  }

  lemma SentIsAdmissible(s: State, t: Truth, name: Str, oldKeys: Derived, newKeys: Derived, i: ChangeInputs)
    requires P256.StandardFacts() && Ecdsa.InRange(i.request.k) && TablesGood(s.db, t) && name in s.db.users
    requires Ecdh.PublicKey(oldKeys.authScalar) == Some(s.db.users[name].authPub)
    requires ChangeRequest(name, oldKeys, newKeys, i).Some?
    ensures var r := ChangeRequest(name, oldKeys, newKeys, i).value;
      r.ChangePassword?
      && (PasswordAdmissible(s, r) && RequestFits(r)
          <==> |i.newSalt| == SALT_LEN && NewNonce(s, i.request.nonce) && ChangeFrameFits(name, i.request.nonce))
  {
    hide P256.StandardFacts, TablesGood, Ecdsa.InRange, ChangeRequest, SignString, Canonical, Session.SignedBy,
         Encode, Ecdh.PublicKey, TextLength;
    var r := ChangeRequest(name, oldKeys, newKeys, i).value;
    ChangeRequestIs(name, oldKeys, newKeys, i);
    UserStorable(s.db, t, name);
    ProofVerifies(oldKeys.authScalar, Canonical(r), i.request.k);
    PublicKeyLength(newKeys.authScalar);
    if |i.newSalt| == SALT_LEN {
      SignedLengths(r);
    }
  }

  lemma ProofVerifies(priv: int, text: Str, k: int)
    requires P256.StandardFacts() && Ecdsa.InRange(k) && SignString(priv, text, k).Some?
    ensures Ecdh.PublicKey(priv).Some? && |SignString(priv, text, k).value| == SIG_LEN
    ensures Session.SignedBy(Ecdh.PublicKey(priv).value, text, SignString(priv, text, k).value)
  {
    hide P256.StandardFacts, Encode, Ecdh.PublicKey, SignBytes, Ecdsa.Verify, Ecdsa.SignatureFromBytes;
    SignedBytesVerify(priv, Encode(text).value, k);
  }

  /** After any honest run, with the right old password: when `change_password` gets as far as
      rewrapping the file, and when it then completes. Otherwise the server keeps salt and login key
      of the old password while the file opens under the new one. */
  lemma SwitchCompletes(w: World, t: Truth, kdf: Kdf, name: Str, newPassword: Str, i: ChangeInputs, env: Env)
    requires P256.StandardFacts() && Ecdsa.InRange(i.request.k) && Sound(w, t, kdf) && name in t.users
    ensures name in w.server.db.users
    ensures var s, newKeys := w.server, Derive(kdf, newPassword, i.newSalt, ARGON2);
            var (s', file', ok) :=
              SwitchPassword(s, KeyFileOf(w, name), kdf, name, t.users[name].password, newPassword, i, env);
      if !GoesOut(w, t, kdf, name, newPassword, i) then s' == s && file' == KeyFileOf(w, name) && !ok
      else
        && (ok <==>
              |i.newSalt| == SALT_LEN && NewNonce(s, i.request.nonce) && ChangeFrameFits(name, i.request.nonce))
        && (!ok ==> s' == s)
        && newKeys.Some?
        && Keystore.Opened(file', newKeys.value.kek)
           == Ok(Keystore.Keys(t.users[name].sigPriv, t.users[name].dhPriv))
  {
    hide P256.StandardFacts, Sound, TablesGood, SessionGood, TrustGood, KeyFileGood, Derive, Ecdsa.InRange,
         Keystore.Opened, ChangeRequest, SwitchPassword, PasswordAdmissible, RequestFits, SignableText,
         Ecdh.PublicKey, Encode, Session.PayloadChangePassword, ChangeFrameFits, NewNonce, KeyFileOf, GoesOut;
    SoundParts(w, t, kdf, name);
    var s, u, current := w.server, w.server.db.users[name], t.users[name].password;
    RightPasswordSends(w, t, kdf, name, newPassword, i);
    UserKnown(s.db, t, name);
    UserStorable(s.db, t, name);
    SwitchWritesFirst(s, KeyFileOf(w, name), kdf, name, current, newPassword, i, env);
    if SwitchSends(s.db, KeyFileOf(w, name), kdf, name, current, newPassword, i) {
      SentIsAdmissible(s, t, name, CurrentKeys(w, t, kdf, name).value,
                       Derive(kdf, newPassword, i.newSalt, ARGON2).value, i);
    }
  }

  /** So a request nonce that was used before leaves them apart: the call fails, the server's record
      is the old one, and the file opens to the user's keys under the new password. */
  lemma SwitchLeavesApart(w: World, t: Truth, kdf: Kdf, name: Str, newPassword: Str, i: ChangeInputs, env: Env)
    requires P256.StandardFacts() && Ecdsa.InRange(i.request.k) && Sound(w, t, kdf) && name in t.users
    requires name in w.server.db.users && GoesOut(w, t, kdf, name, newPassword, i)
    requires i.request.nonce in w.server.session.usedNonces
    ensures var newKeys := Derive(kdf, newPassword, i.newSalt, ARGON2);
            var (s', file', ok) :=
              SwitchPassword(w.server, KeyFileOf(w, name), kdf, name, t.users[name].password, newPassword, i, env);
      && !ok && s' == w.server && newKeys.Some?
      && Keystore.Opened(file', newKeys.value.kek) == Ok(Keystore.Keys(t.users[name].sigPriv, t.users[name].dhPriv))
  {
    hide P256.StandardFacts, Sound, Derive, Ecdsa.InRange, Keystore.Opened, SwitchPassword, GoesOut, ChangeFrameFits,
         KeyFileOf;
    SwitchCompletes(w, t, kdf, name, newPassword, i, env);
  }
}
