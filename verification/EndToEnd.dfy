/** Whole runs of clients against the server: what is stored opens to what was uploaded. */
module EndToEnd {
  import opened Bits
  import opened Wrappers
  import opened Utf8
  import opened Formats
  import opened Database
  import opened Server
  import opened Envelopes
  import opened Client
  import opened Exchanges
  import opened Messages
  import Ecdh
  import Ecdsa
  import Gcm
  import Keystore
  import P256
  import Session
  import Sha256
  import TrustStore
  import Wire

  /** The server, and on the clients' side the files of each user and who is logged in. A user
      has one key file, one trust file and at most one session. */
  datatype World = World(
    server: State, keyFiles: map<Str, seq<Byte>>, trust: map<Str, TrustStore.Entries>, sessions: map<Str, Account>)

  /** What only the users know: passwords, private scalars, and for each document the owner, the
      file key and the bytes chosen at upload. */
  datatype Secret = Secret(password: Str, sigPriv: int, dhPriv: int)
  datatype File = File(owner: Str, fk: seq<Byte>, content: seq<Byte>)
  datatype Truth = Truth(users: map<Str, Secret>, files: map<seq<Byte>, File>)

  // ---- The invariant ------------------------------------------------------------------

  /** The server's keys are the public halves of the user's scalars. */
  predicate UserGood(db: Tables, t: Truth, u: Str)
    requires u in db.users
  {
    hide *;
    && u in t.users && Storable(u)
    && P256.IsValidPrivateKey(t.users[u].sigPriv) && P256.IsValidPrivateKey(t.users[u].dhPriv)
    && Ecdh.PublicKey(t.users[u].sigPriv) == Some(db.users[u].sigPub)
    && Ecdh.PublicKey(t.users[u].dhPriv) == Some(db.users[u].dhPub)
  }

  /** The account is of the kind that `signup` and `change_password` leave, and its name fits into
      their frames: what clients ask about it comes through. */
  predicate Sized(name: Str, u: User) {
    |u.salt| == SALT_LEN && ArgonFits(u.argon2) && NameFits(name)
  }

  /** The stored blob opens, under the key chosen at upload, to the uploaded bytes signed by the owner. */
  predicate DocumentGood(db: Tables, t: Truth, docId: seq<Byte>, row: Document) {
    hide *;
    && docId in t.files && row.owner == t.files[docId].owner && row.owner in db.users
    && UnpackDocument(row.blob).Some?
    && var d := UnpackDocument(row.blob).value;
       d.header.owner == row.owner && OpenDocument(t.files[docId].fk, d).Some?
       && OpenDocument(t.files[docId].fk, d).value.content == t.files[docId].content
       && ContentSigned(db.users[row.owner].sigPub, OpenDocument(t.files[docId].fk, d).value)
  }

  /** The stored share unwraps, under its recipient's scalar, to the file key of its document, is
      signed by its sender and names the stored ciphertext. */
  predicate ShareGood(db: Tables, t: Truth, k: ShareKey, row: ShareRow) {
    hide *;
    && k.docId in db.documents && k.docId in t.files && k.recipient in db.users && k.recipient in t.users
    && UnpackShare(row.blob).Some? && UnpackDocument(db.documents[k.docId].blob).Some?
    && var s := UnpackShare(row.blob).value;
       s.recipient == k.recipient && s.sender in db.users
       && UnwrapFk(t.users[k.recipient].dhPriv, s) == Some(t.files[k.docId].fk)
       && ShareSigned(db.users[s.sender].sigPub, s)
       && s.docHash == Sha256.Digest(UnpackDocument(db.documents[k.docId].blob).value.ciphertext)
  }

  ghost predicate TablesGood(db: Tables, t: Truth) {
    hide *;
    && (forall u <- db.users :: UserGood(db, t, u))
    && (forall u <- db.users :: Sized(u, db.users[u]))
    && (forall u <- t.users :: u in db.users)
    && (forall d <- db.documents :: DocumentGood(db, t, d, db.documents[d]))
    && (forall d <- t.files :: d in db.documents)
    && (forall k <- db.shares :: ShareGood(db, t, k, db.shares[k]))
  }

  /** A logged-in client holds the user's own keys. */
  predicate SessionGood(db: Tables, t: Truth, a: Account) {
    && a.username in t.users && a.username in db.users
    && a == Account(a.username, t.users[a.username].sigPriv, db.users[a.username].sigPub,
                    t.users[a.username].dhPriv, db.users[a.username].dhPub)
  }

  /** The current password gives the key behind the server's login key, and opens the key file to
      the user's scalars. */
  predicate KeyFileGood(db: Tables, t: Truth, kdf: Kdf, u: Str, file: seq<Byte>) {
    hide *;
    && u in t.users && u in db.users
    && Derive(kdf, t.users[u].password, db.users[u].salt, db.users[u].argon2).Some?
    && var keys := Derive(kdf, t.users[u].password, db.users[u].salt, db.users[u].argon2).value;
       Ecdh.PublicKey(keys.authScalar) == Some(db.users[u].authPub)
       && Keystore.Opened(Some(file), keys.kek) == Ok(Keystore.Keys(t.users[u].sigPriv, t.users[u].dhPriv))
  }

  predicate EntryGood(db: Tables, name: Str, e: TrustStore.Entry) {
    name in db.users && e.fingerprint == TrustStore.Fingerprint(db.users[name].sigPub, db.users[name].dhPub)
  }

  /** Every pinned fingerprint is that of the keys the server holds. */
  ghost predicate TrustGood(db: Tables, m: TrustStore.Entries) {
    forall name <- m :: EntryGood(db, name, m[name])
  }

  ghost predicate ClientsGood(w: World, t: Truth, kdf: Kdf) {
    hide *;
    && (forall u <- w.sessions :: w.sessions[u].username == u && SessionGood(w.server.db, t, w.sessions[u]))
    && (forall u <- t.users :: u in w.keyFiles && KeyFileGood(w.server.db, t, kdf, u, w.keyFiles[u]))
    && (forall u <- w.trust :: TrustGood(w.server.db, w.trust[u]))
  }

  ghost predicate Sound(w: World, t: Truth, kdf: Kdf) {
    TablesGood(w.server.db, t) && ClientsGood(w, t, kdf)
  }

  // ---- What never changes -------------------------------------------------------------

  predicate SameKeys(db: Tables, t: Truth, db': Tables, t': Truth, u: Str)
    requires u in db.users && u in t.users
  {
    && u in db'.users && u in t'.users
    && db'.users[u].sigPub == db.users[u].sigPub && db'.users[u].dhPub == db.users[u].dhPub
    && t'.users[u].sigPriv == t.users[u].sigPriv && t'.users[u].dhPriv == t.users[u].dhPriv
  }

  /** Users, keys, documents and files are only added. */
  ghost predicate Extends(db: Tables, t: Truth, db': Tables, t': Truth) {
    && (forall u | u in db.users && u in t.users :: SameKeys(db, t, db', t', u))
    && (forall d <- db.documents :: d in db'.documents && db'.documents[d] == db.documents[d])
    && (forall d <- t.files :: d in t'.files && t'.files[d] == t.files[d])
  }

  lemma DocumentGoodExtends(db: Tables, t: Truth, db': Tables, t': Truth, docId: seq<Byte>, row: Document)
    requires Extends(db, t, db', t') && DocumentGood(db, t, docId, row) && row.owner in t.users
    ensures DocumentGood(db', t', docId, row)
  {
    hide UnpackDocument, OpenDocument, ContentSigned;
    assert SameKeys(db, t, db', t', row.owner);
  }

  lemma ShareGoodExtends(db: Tables, t: Truth, db': Tables, t': Truth, k: ShareKey, row: ShareRow)
    requires Extends(db, t, db', t') && ShareGood(db, t, k, row)
    requires UnpackShare(row.blob).value.sender in t.users
    ensures ShareGood(db', t', k, row)
  {
    hide UnpackDocument, UnpackShare, UnwrapFk, ShareSigned, Sha256.Digest;
    assert SameKeys(db, t, db', t', k.recipient);
    assert SameKeys(db, t, db', t', UnpackShare(row.blob).value.sender);
  }

  lemma TrustGoodExtends(db: Tables, t: Truth, db': Tables, t': Truth, m: TrustStore.Entries)
    requires Extends(db, t, db', t') && TrustGood(db, m) && TablesGood(db, t)
    ensures TrustGood(db', m)
  {
    hide UserGood, DocumentGood, ShareGood, TrustStore.Fingerprint;
    forall name | name in m ensures EntryGood(db', name, m[name]) {
      assert EntryGood(db, name, m[name]);
      UserKnown(db, t, name);
      assert SameKeys(db, t, db', t', name);
    }
  }

  lemma UserKnown(db: Tables, t: Truth, u: Str)
    requires TablesGood(db, t)
    ensures u in db.users <==> u in t.users
    ensures u in db.users ==> UserGood(db, t, u) && Sized(u, db.users[u])
  {
    hide DocumentGood, ShareGood, Sized;
    if u in db.users {
      assert UserGood(db, t, u);
    }
  }

  lemma UserGoodExtends(db: Tables, t: Truth, db': Tables, t': Truth, u: Str)
    requires Extends(db, t, db', t') && u in db.users && UserGood(db, t, u)
    ensures u in db'.users && UserGood(db', t', u)
  {
    hide Ecdh.PublicKey, Encode;
    assert SameKeys(db, t, db', t', u);
  }

  lemma DocumentOwner(db: Tables, t: Truth, docId: seq<Byte>, row: Document)
    requires DocumentGood(db, t, docId, row)
    ensures row.owner in db.users
  {
  }

  lemma ShareSender(db: Tables, t: Truth, k: ShareKey, row: ShareRow)
    requires ShareGood(db, t, k, row)
    ensures UnpackShare(row.blob).Some? && UnpackShare(row.blob).value.sender in db.users
  {
    hide UnpackDocument, UnpackShare, UnwrapFk, ShareSigned, Sha256.Digest;
  }

  ghost predicate NewRowsGood(db: Tables, db': Tables, t': Truth) {
    hide *;
    && (forall u <- db'.users :: u in db.users || UserGood(db', t', u))
    && (forall u <- db'.users :: (u in db.users && db'.users[u] == db.users[u]) || Sized(u, db'.users[u]))
    && (forall u <- t'.users :: u in db'.users)
    && (forall d <- db'.documents :: d in db.documents || DocumentGood(db', t', d, db'.documents[d]))
    && (forall d <- t'.files :: d in db'.documents)
    && (forall k <- db'.shares ::
          (k in db.shares && db'.shares[k] == db.shares[k]) || ShareGood(db', t', k, db'.shares[k]))
  }

  /** Tables stay good when what is new is good. */
  lemma TablesGoodExtends(db: Tables, t: Truth, db': Tables, t': Truth)
    requires TablesGood(db, t) && Extends(db, t, db', t') && NewRowsGood(db, db', t')
    ensures TablesGood(db', t')
  {
    hide UserGood, DocumentGood, ShareGood, Extends, Sized;
    forall u | u in db'.users ensures UserGood(db', t', u) {
      if u in db.users {
        UserGoodExtends(db, t, db', t', u);
      }
    }
    forall d | d in db'.documents ensures DocumentGood(db', t', d, db'.documents[d]) {
      if d in db.documents {
        DocumentOwner(db, t, d, db.documents[d]);
        UserKnown(db, t, db.documents[d].owner);
        DocumentGoodExtends(db, t, db', t', d, db.documents[d]);
        SameDocument(db, t, db', t', d);
      }
    }
    forall k | k in db'.shares ensures ShareGood(db', t', k, db'.shares[k]) {
      if k in db.shares && db'.shares[k] == db.shares[k] {
        ShareSender(db, t, k, db.shares[k]);
        UserKnown(db, t, UnpackShare(db.shares[k].blob).value.sender);
        ShareGoodExtends(db, t, db', t', k, db.shares[k]);
      }
    }
  }

  lemma SameDocument(db: Tables, t: Truth, db': Tables, t': Truth, d: seq<Byte>)
    requires Extends(db, t, db', t') && d in db.documents
    ensures d in db'.documents && db'.documents[d] == db.documents[d]
  {
  }

  // ---- Sending a share ---------------------------------------------------------------------

  lemma NewShareFacts(r: Request)
    requires r.ShareDoc? && NewShareRow(r).Ok?
    ensures UnpackShare(r.blob).Some? && NewShareRow(r).value.row.blob == r.blob
    ensures var s := UnpackShare(r.blob).value;
      NewShareRow(r).value.key == ShareKey(s.docId, s.recipient) && s.recipient == r.recipient && s.sender == r.sender
  {
    hide UnpackShare, FromHex;
  }

  /** What a client knows when it wraps a file key for a reader. */
  ghost predicate Wraps(db: Tables, t: Truth, a: Account, docId: seq<Byte>, docHash: seq<Byte>, recipient: Str,
                        dhPub: seq<Byte>, fk: seq<Byte>)
  {
    hide *;
    && SessionGood(db, t, a)
    && recipient in db.users && dhPub == db.users[recipient].dhPub
    && docId in db.documents && docId in t.files && fk == t.files[docId].fk
    && UnpackDocument(db.documents[docId].blob).Some?
    && docHash == Sha256.Digest(UnpackDocument(db.documents[docId].blob).value.ciphertext)
  }

  lemma MadeShareGood(db: Tables, t: Truth, a: Account, docId: seq<Byte>, version: int, docHash: seq<Byte>,
                      recipient: Str, dhPub: seq<Byte>, fk: seq<Byte>, i: ShareInputs, blob: seq<Byte>)
    requires P256.StandardFacts() && ShareInputsOk(i) && TablesGood(db, t)
    requires Wraps(db, t, a, docId, docHash, recipient, dhPub, fk)
    requires MakeShare(a, docId, version, docHash, recipient, dhPub, fk, i) == Some(blob)
    ensures UnpackShare(blob).Some? && UnpackShare(blob).value.docId == docId
    ensures UnpackShare(blob).value.recipient == recipient
    ensures ShareGood(db, t, ShareKey(docId, recipient), ShareRow(blob, i.now))
  {
    hide P256.StandardFacts, MakeShare, UnpackShare, UnpackDocument, UnwrapFk, ShareSigned, Sha256.Digest,
         Ecdh.PublicKey, TablesGood, Encode;
    UserKnown(db, t, recipient);
    UserKnown(db, t, a.username);
    MadeShareOpens(a, docId, version, docHash, recipient, t.users[recipient].dhPriv, fk, i, blob);
  }

  /** Sending a share of what one knows keeps the tables good, accepted or not. */
  lemma SendShareKeeps(s: State, t: Truth, a: Account, docIdHex: Str, docId: seq<Byte>, version: int,
                       docHash: seq<Byte>, recipient: Str, dhPub: seq<Byte>, fk: seq<Byte>, i: ShareInputs,
                       q: RequestInputs, env: Env)
    requires P256.StandardFacts() && ShareInputsOk(i) && TablesGood(s.db, t)
    requires Wraps(s.db, t, a, docId, docHash, recipient, dhPub, fk)
    ensures var db' := SendShare(s, a, docIdHex, docId, version, docHash, recipient, dhPub, fk, i, q, env).0.db;
      TablesGood(db', t) && db'.users == s.db.users && db'.documents == s.db.documents && Extends(s.db, t, db', t)
  {
    hide P256.StandardFacts, MakeShare, SignString, Handle, RequestFits, TablesGood, Wraps, ShareGood, UserGood,
         NewShareRow, UnpackShare, Session.PayloadShare, Admissible, ShareInputsOk;
    var blob := MakeShare(a, docId, version, docHash, recipient, dhPub, fk, i);
    var sig := SignString(a.sigPriv, Session.PayloadShare(a.username, docIdHex, recipient, q.nonce), q.k);
    if blob.Some? && sig.Some? {
      var r := ShareDoc(a.username, recipient, docIdHex, q.nonce, sig.value, blob.value);
      ShareEffect(s, r, env);
      OkTrip(s, r, env);
      if RoundTrip(s, r, env).1 == Done {
        var db' := Handle(s, r, env).0.db;
        NewShareFacts(r);
        MadeShareGood(s.db, t, a, docId, version, docHash, recipient, dhPub, fk, i, blob.value);
        ShareStored(s.db, t, db', NewShareRow(r).value.key, NewShareRow(r).value.row, i.now);
      }
    }
  }

  lemma SameShareGood(db: Tables, t: Truth, db': Tables, k: ShareKey, row: ShareRow, now: int)
    requires ShareGood(db, t, k, ShareRow(row.blob, now))
    requires db'.users == db.users && db'.documents == db.documents
    ensures ShareGood(db', t, k, row)
  {
    hide UnpackDocument, UnpackShare, UnwrapFk, ShareSigned, Sha256.Digest;
  }

  lemma ShareStored(db: Tables, t: Truth, db': Tables, k: ShareKey, row: ShareRow, now: int)
    requires TablesGood(db, t) && ShareGood(db, t, k, ShareRow(row.blob, now))
    requires db' == db.(shares := db.shares[k := row])
    ensures TablesGood(db', t)
  {
    hide UserGood, DocumentGood, ShareGood;
    SameShareGood(db, t, db', k, row, now);
    TablesGoodExtends(db, t, db', t);
  }

  // ---- Uploading -----------------------------------------------------------------------------

  /** The file chosen by an upload becomes part of the truth when the server stores its document. */
  function Recorded(t: Truth, db: Tables, db': Tables, a: Account, content: seq<Byte>, i: DocumentInputs): Truth {
    if i.docId in db'.documents && i.docId !in db.documents
    then t.(files := t.files[i.docId := File(a.username, i.fk, content)]) else t
  }

  lemma MadeDocumentGood(db: Tables, t: Truth, t': Truth, a: Account, filename: Str, content: seq<Byte>,
                         i: DocumentInputs, d: ParsedDocument, row: Document)
    requires P256.StandardFacts() && DocumentInputsOk(i) && TablesGood(db, t) && SessionGood(db, t, a)
    requires MakeDocument(a, filename, content, i) == Some(d) && DocumentBlob(d) == Some(row.blob)
    requires row.owner == a.username
    requires i.docId in t'.files && t'.files[i.docId] == File(a.username, i.fk, content)
    ensures DocumentGood(db, t', i.docId, row) && UnpackDocument(row.blob) == Some(d) && d.header.docId == i.docId
  {
    hide P256.StandardFacts, MakeDocument, DocumentBlob, UnpackDocument, OpenDocument, ContentSigned, TablesGood,
         Ecdh.PublicKey, Encode;
    UserKnown(db, t, a.username);
    MadeDocumentOpens(a, filename, content, i, row.blob);
  }

  lemma SameDocumentGood(db: Tables, t: Truth, db': Tables, docId: seq<Byte>, row: Document)
    requires DocumentGood(db, t, docId, row) && db'.users == db.users
    ensures DocumentGood(db', t, docId, row)
  {
    hide UnpackDocument, OpenDocument, ContentSigned;
  }

  lemma DocumentStored(db: Tables, t: Truth, db': Tables, t': Truth, docId: seq<Byte>, row: Document, f: File)
    requires TablesGood(db, t) && docId !in db.documents
    requires db' == db.(documents := db.documents[docId := row]) && t' == t.(files := t.files[docId := f])
    requires DocumentGood(db, t', docId, row)
    ensures TablesGood(db', t') && Extends(db, t, db', t')
  {
    hide UserGood, ShareGood, DocumentGood;
    SameDocumentGood(db, t', db', docId, row);
    TablesGoodExtends(db, t, db', t');
  }

  lemma ExtendsTransitive(db: Tables, t: Truth, db': Tables, t': Truth, db'': Tables, t'': Truth)
    requires Extends(db, t, db', t') && Extends(db', t', db'', t'')
    ensures Extends(db, t, db'', t'')
  {
    forall u | u in db.users && u in t.users ensures SameKeys(db, t, db'', t'', u) {
      assert SameKeys(db, t, db', t', u);
      assert SameKeys(db', t', db'', t'', u);
    }
  }

  lemma ExtendsReflexive(db: Tables, t: Truth)
    ensures Extends(db, t, db, t)
  {
  }

  lemma SessionGoodExtends(db: Tables, t: Truth, db': Tables, t': Truth, a: Account)
    requires Extends(db, t, db', t') && SessionGood(db, t, a)
    ensures SessionGood(db', t', a)
  {
    assert SameKeys(db, t, db', t', a.username);
  }

  predicate UploadInputsOk(i: UploadInputs) {
    DocumentInputsOk(i.document) && ShareInputsOk(i.share)
  }

  /** The server accepts the fields of a document that a client made. */
  lemma MadeUploadRow(a: Account, filename: Str, content: seq<Byte>, i: DocumentInputs, d: ParsedDocument, r: Request)
    requires MakeDocument(a, filename, content, i) == Some(d) && r.Upload? && r.owner == a.username
    requires DocumentBlob(d) == Some(r.document)
    ensures UploadRow(r) == Ok(NewDocument(i.docId, Document(a.username, 1, i.now, r.document)))
  {
    hide MakePayload, PackPayload, PackDocumentHeader, PackDocument, Seal, UnpackDocument;
    DocumentIff(r.document, d);
  }

  /** The tables and the truth once the document of an upload is stored. */
  lemma StoredDocument(db: Tables, t: Truth, a: Account, filename: Str, content: seq<Byte>, i: DocumentInputs,
                       d: ParsedDocument, r: Request)
    requires P256.StandardFacts() && DocumentInputsOk(i) && TablesGood(db, t) && SessionGood(db, t, a)
    requires MakeDocument(a, filename, content, i) == Some(d)
    requires r.Upload? && r.owner == a.username && DocumentBlob(d) == Some(r.document) && i.docId !in db.documents
    ensures UploadRow(r).Ok? && UploadRow(r).value.docId == i.docId
    ensures var db' := db.(documents := db.documents[i.docId := UploadRow(r).value.row]);
            var t' := Recorded(t, db, db', a, content, i);
      && t' == t.(files := t.files[i.docId := File(a.username, i.fk, content)])
      && TablesGood(db', t') && Extends(db, t, db', t')
      && Wraps(db', t', a, i.docId, Sha256.Digest(d.ciphertext), a.username, a.dhPub, i.fk)
  {
    hide P256.StandardFacts, MakeDocument, DocumentBlob, UnpackDocument, UploadRow, TablesGood, DocumentGood, Extends,
         DocumentInputsOk, Sha256.Digest;
    MadeUploadRow(a, filename, content, i, d, r);
    var f, row := File(a.username, i.fk, content), UploadRow(r).value.row;
    var db' := db.(documents := db.documents[i.docId := row]);
    var t' := t.(files := t.files[i.docId := f]);
    assert t' == Recorded(t, db, db', a, content, i);
    MadeDocumentGood(db, t, t', a, filename, content, i, d, row);
    DocumentStored(db, t, db', t', i.docId, row, f);
  }

  /** The first request of an upload. */
  lemma FirstUploadStep(s: State, t: Truth, a: Account, filename: Str, content: seq<Byte>, i: UploadInputs,
                        d: ParsedDocument, r: Request, env: Env)
    requires P256.StandardFacts() && UploadInputsOk(i) && TablesGood(s.db, t) && SessionGood(s.db, t, a)
    requires MakeDocument(a, filename, content, i.document) == Some(d)
    requires r.Upload? && r.owner == a.username && DocumentBlob(d) == Some(r.document)
    ensures var (s', reply) := RoundTrip(s, r, env); var t' := Recorded(t, s.db, s'.db, a, content, i.document);
      && TablesGood(s'.db, t') && Extends(s.db, t, s'.db, t') && s'.db.users == s.db.users
      && (reply.Uploaded? ==>
            reply.docId == i.document.docId
            && Wraps(s'.db, t', a, i.document.docId, Sha256.Digest(d.ciphertext), a.username, a.dhPub, i.document.fk))
  {
    hide P256.StandardFacts, MakeDocument, DocumentBlob, UploadRow, TablesGood, Handle, RequestFits, RoundTrip,
         Admissible, Extends, UploadInputsOk, DocumentInputsOk, Wraps, Sha256.Digest, SessionGood;
    UploadEffect(s, r, env);
    OkTrip(s, r, env);
    ExtendsReflexive(s.db, t);
    if RoundTrip(s, r, env).1.Uploaded? {
      InputsSplit(i);
      MadeUploadRow(a, filename, content, i.document, d, r);
      StoredDocument(s.db, t, a, filename, content, i.document, d, r);
    }
  }

  lemma InputsSplit(i: UploadInputs)
    requires UploadInputsOk(i)
    ensures DocumentInputsOk(i.document) && ShareInputsOk(i.share)
  {
  }

  /** An upload, complete or not, keeps the tables good. */
  lemma UploadKeeps(s: State, t: Truth, a: Account, filename: Str, content: seq<Byte>, i: UploadInputs, env: Env)
    requires P256.StandardFacts() && UploadInputsOk(i) && TablesGood(s.db, t) && SessionGood(s.db, t, a)
    ensures var s' := UploadFile(s, a, filename, content, i, env).0;
            var t' := Recorded(t, s.db, s'.db, a, content, i.document);
      TablesGood(s'.db, t') && Extends(s.db, t, s'.db, t') && s'.db.users == s.db.users
  {
    hide P256.StandardFacts, MakeDocument, DocumentBlob, SignString, TablesGood, RoundTrip, Extends, UploadInputsOk,
         DocumentInputsOk, ShareInputsOk, SendShare, Wraps, Sha256.Digest, ToHex, Session.PayloadUpload, SessionGood;
    ExtendsReflexive(s.db, t);
    var d := MakeDocument(a, filename, content, i.document);
    var sig := SignString(a.sigPriv, Session.PayloadUpload(a.username, i.request.nonce), i.request.k);
    if d.Some? && DocumentBlob(d.value).Some? && sig.Some? {
      var r := Request.Upload(a.username, i.request.nonce, sig.value, DocumentBlob(d.value).value);
      FirstUploadStep(s, t, a, filename, content, i, d.value, r, env);
      var (s1, reply) := RoundTrip(s, r, env);
      if reply.Uploaded? {
        var t1 := Recorded(t, s.db, s1.db, a, content, i.document);
        var docId, hash := i.document.docId, Sha256.Digest(d.value.ciphertext);
        InputsSplit(i);
        SendShareKeeps(s1, t1, a, ToHex(docId), docId, 1, hash, a.username, a.dhPub, i.document.fk,
                       i.share, i.shareRequest, env);
        var s2 := SendShare(s1, a, ToHex(docId), docId, 1, hash, a.username, a.dhPub, i.document.fk,
                            i.share, i.shareRequest, env).0;
        ExtendsTransitive(s.db, t, s1.db, t1, s2.db, t1);
      }
    }
  }

  // ---- Contacts and copies ------------------------------------------------------------------

  /** The keys that the server holds are never refused for a known contact, and for a new one only
      without consent. */
  lemma AskGood(db: Tables, trust: TrustStore.Entries, name: Str, consent: bool)
    requires TrustGood(db, trust) && name in db.users
    ensures var (trust', ok) := TrustStore.Ask(trust, name, db.users[name].sigPub, db.users[name].dhPub, consent);
      && TrustGood(db, trust') && (ok <==> name in trust || consent)
      && (forall c <- trust :: c in trust') && (forall c <- trust' :: c in trust || c == name)
      && (ok ==> name in trust')
  {
    hide TrustStore.Fingerprint;
    if name in trust {
      assert EntryGood(db, name, trust[name]);
    }
  }

  /** The keys a client gets for a contact are the ones the server holds; a contact in the trust
      store is never refused, and a new one only without consent. */
  lemma ContactKeysGood(s: State, t: Truth, a: Account, trust: TrustStore.Entries, name: Str, consent: bool, env: Env)
    requires TablesGood(s.db, t) && SessionGood(s.db, t, a) && TrustGood(s.db, trust)
    ensures var (trust', keys) := ContactKeys(s, a, trust, name, consent, env);
      && TrustGood(s.db, trust')
      && (keys.Some? <==> name in s.db.users && (name == a.username || name in trust || consent))
      && (keys.Some? ==> keys.value == Bundle(s.db.users[name].sigPub, s.db.users[name].dhPub))
      && (forall c <- trust :: c in trust')
      && (forall c <- trust' :: c in trust || (c == name && name != a.username))
      && (keys.Some? && name != a.username ==> name in trust')
  {
    hide TablesGood, RoundTrip, TrustStore.Ask, TrustGood;
    KeysTrip(s, t, name, env);
    if name in s.db.users {
      AskGood(s.db, trust, name, consent);
    }
  }

  lemma PublicKeyLength(d: int)
    ensures Ecdh.PublicKey(d).Some? ==> |Ecdh.PublicKey(d).value| == PUBLIC_KEY_LEN
  {
    hide P256.ScalarMul;
  }

  /** What an account's owner and others ask about it comes through. */
  lemma KeysTrip(s: State, t: Truth, name: Str, env: Env)
    requires TablesGood(s.db, t)
    ensures var reply := RoundTrip(s, GetUserPubkey(name), env).1;
      if name in s.db.users then reply == KeysReply(s.db.users[name].sigPub, s.db.users[name].dhPub) else reply.Failed?
  {
    hide TablesGood, Handle, RequestFits, ReplyFits, Encode, Ecdh.PublicKey;
    UserKnown(s.db, t, name);
    LookUpEffect(s, GetUserPubkey(name), env);
    if name in s.db.users {
      NamedFits(name, []);
      PublicKeyLength(t.users[name].sigPriv);
      PublicKeyLength(t.users[name].dhPriv);
      var u := s.db.users[name];
      SmallReplies(GetUserPubkey(name), u.salt, u.argon2, [], u.sigPub, u.dhPub);
    }
  }

  lemma SaltTrip(s: State, name: Str, env: Env)
    requires name in s.db.users && Storable(name) && Sized(name, s.db.users[name])
    ensures RoundTrip(s, GetSalt(name), env) == (s, SaltReply(s.db.users[name].salt, s.db.users[name].argon2))
  {
    hide Handle, RequestFits, ReplyFits, Encode;
    LookUpEffect(s, GetSalt(name), env);
    NamedFits(name, []);
    SmallReplies(GetSalt(name), s.db.users[name].salt, s.db.users[name].argon2, [], [], []);
  }

  lemma UserStorable(db: Tables, t: Truth, u: Str)
    requires TablesGood(db, t)
    ensures u in db.users ==> Storable(u)
  {
    UserKnown(db, t, u);
    hide TablesGood, Encode, Ecdh.PublicKey;
  }

  /** The two rows behind a copy that a client fetched. */
  ghost predicate HasCopy(db: Tables, a: Account, docIdHex: Str, c: Copy) {
    hide *;
    var docId := FromHex(docIdHex);
    && docId.Some? && docId.value in db.documents && ShareKey(docId.value, a.username) in db.shares
    && c == Copy(db.documents[docId.value].blob, db.shares[ShareKey(docId.value, a.username)].blob)
  }

  lemma FetchGood(s: State, a: Account, docIdHex: Str, q: RequestInputs, env: Env)
    ensures var (s', copy) := FetchDoc(s, a, docIdHex, q, env);
      s'.db == s.db && (copy.Some? ==> HasCopy(s.db, a, docIdHex, copy.value))
  {
    hide SignString, Handle, RequestFits, ReplyFits, FromHex, Session.PayloadDownload, Admissible;
    var sig := SignString(a.sigPriv, Session.PayloadDownload(a.username, docIdHex, q.nonce), q.k);
    if sig.Some? {
      GetDocEffect(s, GetDoc(a.username, docIdHex, q.nonce, sig.value), env);
    }
  }

  /** A copy of the stored document with a share that was good when it was read. */
  ghost predicate CopySound(db: Tables, t: Truth, a: Account, docIdHex: Str, c: Copy) {
    hide *;
    var docId := FromHex(docIdHex);
    && docId.Some? && docId.value in db.documents && c.document == db.documents[docId.value].blob
    && DocumentGood(db, t, docId.value, db.documents[docId.value])
    && ShareGood(db, t, ShareKey(docId.value, a.username), ShareRow(c.share, 0))
  }

  lemma CopyGood(db: Tables, t: Truth, a: Account, docIdHex: Str, c: Copy)
    requires TablesGood(db, t) && HasCopy(db, a, docIdHex, c)
    ensures CopySound(db, t, a, docIdHex, c)
  {
    hide DocumentGood, ShareGood, UserGood, FromHex;
    var k := ShareKey(FromHex(docIdHex).value, a.username);
    assert ShareGood(db, t, k, db.shares[k]);
    SameShareGood(db, t, db, k, ShareRow(c.share, 0), db.shares[k].issuedMs);
  }

  // ---- Sharing ---------------------------------------------------------------------------------

  /** From a good copy the client recovers the file key chosen at upload. */
  lemma RecoverGood(db: Tables, t: Truth, a: Account, docIdHex: Str, c: Copy, recipient: Str, dhPub: seq<Byte>)
    requires SessionGood(db, t, a) && CopySound(db, t, a, docIdHex, c)
    requires recipient in db.users && dhPub == db.users[recipient].dhPub
    ensures Recover(a, c).Some?
    ensures var r := Recover(a, c).value;
      Wraps(db, t, a, FromHex(docIdHex).value, Sha256.Digest(r.document.ciphertext), recipient, dhPub, r.fk)
  {
    hide TablesGood, UnpackDocument, UnpackShare, UnwrapFk, OpenDocument, ContentSigned, ShareSigned, Sha256.Digest,
         FromHex, Handle, Ecdh.PublicKey, Encode, UserGood;
  }

  /** Sharing, complete or not, keeps the tables good. */
  lemma ShareKeeps(s: State, t: Truth, a: Account, trust: TrustStore.Entries, docIdHex: Str, recipient: Str,
                   i: ReshareInputs, env: Env)
    requires P256.StandardFacts() && ShareInputsOk(i.share)
    requires TablesGood(s.db, t) && SessionGood(s.db, t, a) && TrustGood(s.db, trust)
    ensures var (s', trust', ok) := ShareWith(s, trust, a, docIdHex, recipient, i, env);
      TablesGood(s'.db, t) && Extends(s.db, t, s'.db, t) && s'.db.users == s.db.users && TrustGood(s'.db, trust')
  {
    hide P256.StandardFacts, TablesGood, SessionGood, ShareInputsOk, ContactKeys, FetchDoc, Recover, SendShare,
         FromHex, HasCopy, CopySound, Wraps, Extends, Sha256.Digest, TrustGood;
    ExtendsReflexive(s.db, t);
    ContactKeysGood(s, t, a, trust, recipient, i.consent, env);
    FetchGood(s, a, docIdHex, i.fetch, env);
    var (trust', keys) := ContactKeys(s, a, trust, recipient, i.consent, env);
    var (s1, copy) := FetchDoc(s, a, docIdHex, i.fetch, env);
    if keys.Some? && copy.Some? {
      CopyGood(s.db, t, a, docIdHex, copy.value);
      RecoverGood(s.db, t, a, docIdHex, copy.value, recipient, keys.value.dhPub);
      FetchedHex(s.db, a, docIdHex, copy.value);
      var r, docId := Recover(a, copy.value).value, FromHex(docIdHex).value;
      SendShareKeeps(s1, t, a, docIdHex, docId, r.document.header.version, Sha256.Digest(r.document.ciphertext),
                     recipient, keys.value.dhPub, r.fk, i.share, i.shareRequest, env);
      var s2 := SendShare(s1, a, docIdHex, docId, r.document.header.version, Sha256.Digest(r.document.ciphertext),
                          recipient, keys.value.dhPub, r.fk, i.share, i.shareRequest, env).0;
      TrustGoodSameUsers(s.db, s2.db, trust');
    }
    TrustGoodSameUsers(s.db, s1.db, trust');
  }

  lemma FetchedHex(db: Tables, a: Account, docIdHex: Str, c: Copy)
    requires HasCopy(db, a, docIdHex, c)
    ensures FromHex(docIdHex).Some?
  {
    hide FromHex;
  }

  lemma TrustGoodSameUsers(db: Tables, db': Tables, m: TrustStore.Entries)
    requires TrustGood(db, m) && db'.users == db.users
    ensures TrustGood(db', m)
  {
    hide TrustStore.Fingerprint;
    assert forall name <- m :: EntryGood(db, name, m[name]);
  }

  // ---- Downloading -------------------------------------------------------------------------------

  /** The uploaded bytes and the owner. */
  function Original(t: Truth, docId: seq<Byte>): Delivered
    requires docId in t.files
  {
    Delivered(t.files[docId].content, t.files[docId].owner)
  }

  /** Who sent the reader the share. */
  function SenderOf(db: Tables, docIdHex: Str, a: Account): Str {
    hide *;
    var docId := FromHex(docIdHex);
    if docId.None? || ShareKey(docId.value, a.username) !in db.shares then []
    else
      var s := UnpackShare(db.shares[ShareKey(docId.value, a.username)].blob);
      if s.None? then [] else s.value.sender
  }

  /** The keys the server holds for a user. */
  function Held(db: Tables, u: Str): Bundle
    requires u in db.users
  {
    Bundle(db.users[u].sigPub, db.users[u].dhPub)
  }

  /** The parcel is a good document with a good share of it. */
  ghost predicate ParcelOf(db: Tables, t: Truth, a: Account, docId: seq<Byte>, p: Parcel) {
    hide *;
    && docId in t.files && p.document.header.owner == t.files[docId].owner && t.files[docId].owner in db.users
    && p.share.sender in db.users && ShareSigned(db.users[p.share.sender].sigPub, p.share)
    && UnwrapFk(a.dhPriv, p.share) == Some(t.files[docId].fk)
    && OpenDocument(t.files[docId].fk, p.document).Some?
    && OpenDocument(t.files[docId].fk, p.document).value.content == t.files[docId].content
    && ContentSigned(db.users[t.files[docId].owner].sigPub, OpenDocument(t.files[docId].fk, p.document).value)
  }

  /** A good copy passes the first checks. */
  lemma ParcelGood(db: Tables, t: Truth, a: Account, docIdHex: Str, c: Copy)
    requires SessionGood(db, t, a) && CopySound(db, t, a, docIdHex, c)
    ensures FromHex(docIdHex).Some? && OpenParcel(a, c).Some?
    ensures ParcelOf(db, t, a, FromHex(docIdHex).value, OpenParcel(a, c).value)
    ensures HasCopy(db, a, docIdHex, c) ==> OpenParcel(a, c).value.share.sender == SenderOf(db, docIdHex, a)
  {
    hide TablesGood, UnpackDocument, UnpackShare, UnwrapFk, OpenDocument, ContentSigned, ShareSigned, Sha256.Digest,
         FromHex, Handle, Ecdh.PublicKey, Encode, UserGood;
  }

  /** With the sender's true keys, the parcel opens to the uploaded bytes, signed by the owner. */
  lemma ParcelOpens(db: Tables, t: Truth, a: Account, docId: seq<Byte>, p: Parcel)
    requires ParcelOf(db, t, a, docId, p)
    ensures OpenPayload(a, p, Held(db, p.share.sender)).Some?
    ensures var payload := OpenPayload(a, p, Held(db, p.share.sender)).value;
      payload.content == t.files[docId].content && ContentSigned(Held(db, t.files[docId].owner).sigPub, payload)
  {
    hide UnwrapFk, OpenDocument, ContentSigned, ShareSigned;
  }

  /** A string signed by a logged-in user verifies under the key the server holds. */
  lemma SignedStringVerifies(db: Tables, t: Truth, a: Account, text: Str, k: int)
    requires P256.StandardFacts() && Ecdsa.InRange(k) && TablesGood(db, t) && SessionGood(db, t, a)
    requires SignString(a.sigPriv, text, k).Some?
    ensures Session.SignedBy(db.users[a.username].sigPub, text, SignString(a.sigPriv, text, k).value)
  {
    hide P256.StandardFacts, TablesGood, Encode, Ecdh.PublicKey, SignBytes, Ecdsa.Verify, Ecdsa.SignatureFromBytes;
    UserKnown(db, t, a.username);
    SignedBytesVerify(a.sigPriv, Encode(text).value, k);
  }

  /** The text encodes and its signature exists. */
  predicate SignableText(priv: int, text: Str, k: int) {
    hide *;
    Encode(text).Some? && Signable(priv, Encode(text).value, k)
  }

  lemma SignStringIff(priv: int, text: Str, k: int)
    requires P256.StandardFacts() && Ecdsa.InRange(k)
    ensures SignString(priv, text, k).Some? <==> SignableText(priv, text, k)
  {
    hide P256.StandardFacts, Encode, SignBytes, Signable;
    if Encode(text).Some? {
      SignBytesIff(priv, Encode(text).value, k);
    }
  }

  /** A GET_DOC frame with this name, identifier and nonce fits. */
  predicate GetDocFits(name: Str, docIdHex: Str, nonce: Str) {
    GET_DOC_OVERHEAD + TextLength(name) + TextLength(docIdHex) + TextLength(nonce) <= Wire.MAX_MESSAGE_LEN
  }

  /** The GET_DOC frame and the DOC frame that answers it both fit. */
  predicate FetchFits(db: Tables, a: Account, docIdHex: Str, docId: seq<Byte>, nonce: Str)
    requires docId in db.documents && ShareKey(docId, a.username) in db.shares
  {
    hide *;
    var blob, share := db.documents[docId].blob, db.shares[ShareKey(docId, a.username)].blob;
    && GetDocFits(a.username, docIdHex, nonce)
    && DOC_OVERHEAD + DataLength(|blob|) + DataLength(|share|) <= Wire.MAX_MESSAGE_LEN
  }

  /** What a reader needs to fetch a document: a signature, a new nonce, both rows, and frames that
      are not too long. */
  predicate CanFetch(s: State, a: Account, docIdHex: Str, q: RequestInputs) {
    hide *;
    var docId := FromHex(docIdHex);
    && SignableText(a.sigPriv, Session.PayloadDownload(a.username, docIdHex, q.nonce), q.k)
    && q.nonce != [] && q.nonce !in s.session.usedNonces
    && docId.Some? && docId.value in s.db.documents && ShareKey(docId.value, a.username) in s.db.shares
    && FetchFits(s.db, a, docIdHex, docId.value, q.nonce)
  }

  /** The frames fit exactly when the sums of their parts do. */
  lemma FetchFrames(s: State, a: Account, docIdHex: Str, docId: seq<Byte>, r: Request)
    requires docId in s.db.documents && ShareKey(docId, a.username) in s.db.shares
    requires r.GetDoc? && r.reader == a.username && r.docIdHex == docIdHex && |r.signature| == SIG_LEN
    ensures var blob, share := s.db.documents[docId].blob, s.db.shares[ShareKey(docId, a.username)].blob;
      FetchFits(s.db, a, docIdHex, docId, r.nonce) <==> RequestFits(r) && ReplyFits(r, DocReply(blob, Some(share)))
  {
    hide TextLength, DataLength, RequestLength, ReplyLength;
    FetchLengths(r, s.db.documents[docId].blob, s.db.shares[ShareKey(docId, a.username)].blob);
  }

  lemma StringSignature(priv: int, text: Str, k: int)
    requires P256.StandardFacts() && Ecdsa.InRange(k) && SignString(priv, text, k).Some?
    ensures |SignString(priv, text, k).value| == SIG_LEN
  {
    hide P256.StandardFacts, Encode, SignBytes, VerifyBytes;
    SignedBytesVerify(priv, Encode(text).value, k);
  }

  lemma FetchIff(s: State, t: Truth, a: Account, docIdHex: Str, q: RequestInputs, env: Env)
    requires P256.StandardFacts() && Ecdsa.InRange(q.k) && TablesGood(s.db, t) && SessionGood(s.db, t, a)
    ensures FetchDoc(s, a, docIdHex, q, env).1.Some? <==> CanFetch(s, a, docIdHex, q)
  {
    hide P256.StandardFacts, TablesGood, SignString, Handle, FromHex, Session.PayloadDownload, Session.SignedBy,
         Encode, RequestFits, ReplyFits, FetchFits, SignableText;
    var text := Session.PayloadDownload(a.username, docIdHex, q.nonce);
    var sig := SignString(a.sigPriv, text, q.k);
    SignStringIff(a.sigPriv, text, q.k);
    if sig.Some? {
      var r := GetDoc(a.username, docIdHex, q.nonce, sig.value);
      assert Canonical(r) == text;
      UserStorable(s.db, t, a.username);
      SignedStringVerifies(s.db, t, a, text, q.k);
      GetDocEffect(s, r, env);
      StringSignature(a.sigPriv, text, q.k);
      var docId := FromHex(docIdHex);
      if docId.Some? && docId.value in s.db.documents && ShareKey(docId.value, a.username) in s.db.shares {
        FetchFrames(s, a, docIdHex, docId.value, r);
      }
      hide Canonical, TablesGood;
      assert Admissible(s, r) <==> q.nonce != [] && q.nonce !in s.session.usedNonces;
    }
  }

  /** The reader accepts the keys of both the sender and the owner. */
  predicate Trusts(db: Tables, t: Truth, a: Account, trust: TrustStore.Entries, docIdHex: Str, i: DownloadInputs) {
    hide *;
    var docId, sender := FromHex(docIdHex), SenderOf(db, docIdHex, a);
    && docId.Some? && docId.value in t.files
    && (sender == a.username || sender in trust || i.senderConsent)
    && var owner := t.files[docId.value].owner;
       owner == a.username || owner == sender || owner in trust || i.ownerConsent
  }

  /** A download completes exactly when the reader can fetch the document, trusts the sender and the
      owner, and can write to the given path; and then it writes the uploaded bytes and returns the owner. No check of
      the client ever refuses what an honest server stores. */
  lemma DownloadCorrect(s: State, t: Truth, a: Account, trust: TrustStore.Entries, docIdHex: Str,
                        i: DownloadInputs, env: Env)
    requires P256.StandardFacts() && Ecdsa.InRange(i.fetch.k)
    requires TablesGood(s.db, t) && SessionGood(s.db, t, a) && TrustGood(s.db, trust)
    ensures var (s', trust', r) := DownloadFile(s, trust, a, docIdHex, i, env);
      && s'.db == s.db && TrustGood(s'.db, trust')
      && (r.Some? <==> CanFetch(s, a, docIdHex, i.fetch) && Trusts(s.db, t, a, trust, docIdHex, i) && i.writable)
      && (r.Some? ==> FromHex(docIdHex).Some? && FromHex(docIdHex).value in t.files
                      && r.value == Original(t, FromHex(docIdHex).value))
  {
    hide P256.StandardFacts, TablesGood, SessionGood, TrustGood, ContactKeys, FetchDoc, OpenParcel, OpenPayload,
         CanFetch, FromHex, ContentSigned, ParcelOf, SenderOf, HasCopy, CopySound, Ecdsa.InRange;
    FetchGood(s, a, docIdHex, i.fetch, env);
    FetchIff(s, t, a, docIdHex, i.fetch, env);
    var (s1, copy) := FetchDoc(s, a, docIdHex, i.fetch, env);
    if copy.Some? {
      CopyGood(s.db, t, a, docIdHex, copy.value);
      ParcelGood(s.db, t, a, docIdHex, copy.value);
      var docId, p := FromHex(docIdHex).value, OpenParcel(a, copy.value).value;
      ParcelNames(s.db, t, a, docId, p);
      ParcelOpens(s.db, t, a, docId, p);
      ContactKeysGood(s1, t, a, trust, p.share.sender, i.senderConsent, env);
      var trust1 := ContactKeys(s1, a, trust, p.share.sender, i.senderConsent, env).0;
      ContactKeysGood(s1, t, a, trust1, p.document.header.owner, i.ownerConsent, env);
      assert ContactKeys(s1, a, trust, p.share.sender, i.senderConsent, env).1.Some?
          && ContactKeys(s1, a, trust1, p.document.header.owner, i.ownerConsent, env).1.Some?
        <==> Trusts(s.db, t, a, trust, docIdHex, i);
    }
  }

  lemma ParcelNames(db: Tables, t: Truth, a: Account, docId: seq<Byte>, p: Parcel)
    requires ParcelOf(db, t, a, docId, p)
    ensures docId in t.files && p.document.header.owner == t.files[docId].owner && t.files[docId].owner in db.users
    ensures p.share.sender in db.users
  {
    hide UnwrapFk, OpenDocument, ContentSigned, ShareSigned;
  }

  // ---- Accounts -----------------------------------------------------------------------------------

  lemma KeyFileSame(db: Tables, t: Truth, db': Tables, t': Truth, kdf: Kdf, u: Str, file: seq<Byte>)
    requires KeyFileGood(db, t, kdf, u, file)
    requires u in db'.users && u in t'.users && db'.users[u] == db.users[u] && t'.users[u] == t.users[u]
    ensures KeyFileGood(db', t', kdf, u, file)
  {
    hide Derive, Keystore.Opened, Ecdh.PublicKey;
  }

  /** Signing up writes a key file that the chosen password opens. */
  lemma NewKeyFileGood(db: Tables, t: Truth, kdf: Kdf, name: Str, password: Str, i: SignupInputs)
    requires NewKeyFile(kdf, password, i).Some? && name in db.users && name in t.users
    requires t.users[name] == Secret(password, i.sigPriv, i.dhPriv)
    requires NewUser(kdf, password, i) == Some(db.users[name])
    ensures KeyFileGood(db, t, kdf, name, NewKeyFile(kdf, password, i).value)
  {
    hide Derive, Keystore.Opened, Keystore.Sealed, Ecdh.PublicKey;
    var kek := Derive(kdf, password, i.salt, ARGON2).value.kek;
    Keystore.SealedOpens(Keystore.Keys(i.sigPriv, i.dhPriv), kek, i.nonce);
  }

  predicate SignupInputsOk(i: SignupInputs) {
    P256.IsValidPrivateKey(i.sigPriv) && P256.IsValidPrivateKey(i.dhPriv)
  }

  lemma NewUserGood(db: Tables, t: Truth, kdf: Kdf, name: Str, password: Str, i: SignupInputs)
    requires SignupInputsOk(i) && NewUser(kdf, password, i).Some? && Storable(name) && name in t.users
    requires name in db.users
    requires WellFormed(Register(name, db.users[name])) && RequestFits(Register(name, db.users[name]))
    requires db.users[name] == NewUser(kdf, password, i).value && t.users[name] == Secret(password, i.sigPriv, i.dhPriv)
    ensures UserGood(db, t, name) && Sized(name, db.users[name])
    ensures db.users[name].salt == i.salt && db.users[name].argon2 == ARGON2
  {
    hide Derive, Ecdh.PublicKey, Encode, RequestFits, NameFits;
    RegisterFits(Register(name, db.users[name]));
  }

  /** The tables after a completed sign-up. */
  lemma SignUpTables(s: State, t: Truth, file: Option<seq<Byte>>, kdf: Kdf, name: Str, password: Str,
                     i: SignupInputs, env: Env)
    requires SignupInputsOk(i) && TablesGood(s.db, t) && SignUp(s, file, kdf, name, password, i, env).2
    ensures var (s', file', _) := SignUp(s, file, kdf, name, password, i, env);
            var t' := t.(users := t.users[name := Secret(password, i.sigPriv, i.dhPriv)]);
      && name !in s.db.users && s'.db.users.Keys == s.db.users.Keys + {name}
      && (forall u <- s.db.users :: s'.db.users[u] == s.db.users[u])
      && TablesGood(s'.db, t') && Extends(s.db, t, s'.db, t')
      && file'.Some? && KeyFileGood(s'.db, t', kdf, name, file'.value)
  {
    hide TablesGood, Handle, RequestFits, NewUser, NewKeyFile, UserGood, Sized, DocumentGood, ShareGood, KeyFileGood,
         SignupInputsOk, Encode;
    var u := NewUser(kdf, password, i).value;
    RegisterEffect(s, Register(name, u), env);
    OkTrip(s, Register(name, u), env);
    var s' := RoundTrip(s, Register(name, u), env).0;
    var t' := t.(users := t.users[name := Secret(password, i.sigPriv, i.dhPriv)]);
    NewUserGood(s'.db, t', kdf, name, password, i);
    NewKeyFileGood(s'.db, t', kdf, name, password, i);
    OldUsersStay(s.db, t, t', name);
    TablesGoodExtends(s.db, t, s'.db, t');
  }

  lemma OldUsersStay(db: Tables, t: Truth, t': Truth, name: Str)
    requires TablesGood(db, t) && t'.users.Keys == t.users.Keys + {name} && t'.files == t.files
    ensures forall u <- t'.users :: u in db.users || u == name
    ensures forall d <- t'.files :: d in db.documents
  {
    hide UserGood, DocumentGood, ShareGood;
  }

  /** The request `change_password` sends; None where signing or encoding a key raises. */
  function ChangeRequest(name: Str, oldKeys: Derived, newKeys: Derived, i: ChangeInputs): Option<Request> {
    hide Ecdh.PublicKey, SignString;
    var newAuthPub :- Ecdh.PublicKey(newKeys.authScalar);
    var proof :- SignString(oldKeys.authScalar, Session.PayloadChangePassword(name, i.request.nonce), i.request.k);
    Some(Request.ChangePassword(name, i.request.nonce, proof, i.newSalt, Some(ARGON2), newAuthPub))
  }

  /** The client gets as far as sending it: both passwords give keys, the old one opens the key
      file, and the file is rewrapped. */
  predicate SwitchSends(db: Tables, file: Option<seq<Byte>>, kdf: Kdf, name: Str, oldPassword: Str, newPassword: Str,
                        i: ChangeInputs)
    requires name in db.users
  {
    hide *;
    var u := db.users[name];
    var oldKeys, newKeys := Derive(kdf, oldPassword, u.salt, u.argon2), Derive(kdf, newPassword, i.newSalt, ARGON2);
    && oldKeys.Some? && newKeys.Some? && Keystore.Opened(file, oldKeys.value.kek).Ok?
    && Keystore.Rewrapped(file, oldKeys.value.kek, newKeys.value.kek, i.nonce, i.writable).1.None?
    && ChangeRequest(name, oldKeys.value, newKeys.value, i).Some?
  }

  lemma SwitchSent(s: State, file: Option<seq<Byte>>, kdf: Kdf, name: Str, oldPassword: Str, newPassword: Str,
                   i: ChangeInputs, env: Env)
    requires name in s.db.users && Storable(name) && Sized(name, s.db.users[name])
    ensures var u := s.db.users[name];
            var oldKeys, newKeys := Derive(kdf, oldPassword, u.salt, u.argon2),
                                    Derive(kdf, newPassword, i.newSalt, ARGON2);
      SwitchPassword(s, file, kdf, name, oldPassword, newPassword, i, env)
      == if SwitchSends(s.db, file, kdf, name, oldPassword, newPassword, i) then
           (RoundTrip(s, ChangeRequest(name, oldKeys.value, newKeys.value, i).value, env).0,
            Keystore.Rewrapped(file, oldKeys.value.kek, newKeys.value.kek, i.nonce, i.writable).0,
            RoundTrip(s, ChangeRequest(name, oldKeys.value, newKeys.value, i).value, env).1 == Done)
         else (s, file, false)
  {
    hide Sized, RoundTrip, Derive, Keystore.Opened, Keystore.Sealed, SignString, Ecdh.PublicKey,
         Session.PayloadChangePassword;
    SaltTrip(s, name, env);
  }

  lemma ChangeRequestIs(name: Str, oldKeys: Derived, newKeys: Derived, i: ChangeInputs)
    requires ChangeRequest(name, oldKeys, newKeys, i).Some?
    ensures var r := ChangeRequest(name, oldKeys, newKeys, i).value;
      && r.ChangePassword? && r.username == name && r.nonce == i.request.nonce && r.newSalt == i.newSalt
      && r.newArgon2 == Some(ARGON2) && Ecdh.PublicKey(newKeys.authScalar) == Some(r.newAuthPub)
      && SignString(oldKeys.authScalar, Canonical(r), i.request.k) == Some(r.signature)
  {
    hide Ecdh.PublicKey, SignString, Session.PayloadChangePassword;
  }

  /** The request was accepted: the tables that follow. */
  lemma ChangeTables(s: State, t: Truth, r: Request, password: Str, env: Env)
    requires TablesGood(s.db, t) && r.ChangePassword? && RoundTrip(s, r, env).1 == Done
    ensures r.username in s.db.users && r.username in t.users && r.newArgon2.Some?
    ensures var db' := RoundTrip(s, r, env).0.db;
            var t' := t.(users := t.users[r.username := t.users[r.username].(password := password)]);
      && db' == s.db.(users := s.db.users[r.username := s.db.users[r.username].(
           salt := r.newSalt, argon2 := r.newArgon2.value, authPub := r.newAuthPub)])
      && TablesGood(db', t') && Extends(s.db, t, db', t')
  {
    hide TablesGood, Handle, RequestFits, RoundTrip, Extends, UserGood, Session.SignedBy, Canonical, Encode, NameFits;
    PasswordEffect(s, r, env);
    OkTrip(s, r, env);
    UserKnown(s.db, t, r.username);
    PasswordTables(s.db, t, r.username, password, r.newSalt, r.newArgon2.value, r.newAuthPub);
  }

  /** A completed change of password: same identity keys, in a file that the new password opens. */
  lemma SwitchTables(s: State, t: Truth, kdf: Kdf, name: Str, oldPassword: Str, newPassword: Str, file: seq<Byte>,
                     i: ChangeInputs, env: Env)
    requires TablesGood(s.db, t) && KeyFileGood(s.db, t, kdf, name, file) && t.users[name].password == oldPassword
    requires SwitchPassword(s, Some(file), kdf, name, oldPassword, newPassword, i, env).2
    ensures var (s', file', _) := SwitchPassword(s, Some(file), kdf, name, oldPassword, newPassword, i, env);
            var t' := t.(users := t.users[name := t.users[name].(password := newPassword)]);
      && s'.db.users.Keys == s.db.users.Keys
      && (forall u <- s.db.users :: u != name ==> s'.db.users[u] == s.db.users[u])
      && TablesGood(s'.db, t') && Extends(s.db, t, s'.db, t')
      && file'.Some? && KeyFileGood(s'.db, t', kdf, name, file'.value)
  {
    hide TablesGood, UserGood, Sized, RoundTrip, Derive, Keystore.Rewrapped, Keystore.Opened, Extends, ChangeRequest,
         SwitchPassword, SignString, Ecdh.PublicKey, Canonical;
    UserKnown(s.db, t, name);
    UserStorable(s.db, t, name);
    SwitchSent(s, Some(file), kdf, name, oldPassword, newPassword, i, env);
    var oldKeys, newKeys := Derive(kdf, oldPassword, s.db.users[name].salt, s.db.users[name].argon2).value,
                            Derive(kdf, newPassword, i.newSalt, ARGON2).value;
    var r := ChangeRequest(name, oldKeys, newKeys, i).value;
    ChangeRequestIs(name, oldKeys, newKeys, i);
    ChangeTables(s, t, r, newPassword, env);
    RewrapGood(Some(file), oldKeys.kek, newKeys.kek, i.nonce, i.writable);
  }

  lemma RewrapGood(file: Option<seq<Byte>>, oldKek: seq<Byte>, newKek: seq<Byte>, nonce: Gcm.Nonce, writable: bool)
    requires Keystore.Rewrapped(file, oldKek, newKek, nonce, writable).1.None?
    ensures var file' := Keystore.Rewrapped(file, oldKek, newKek, nonce, writable).0;
      file'.Some? && Keystore.Opened(file', newKek) == Keystore.Opened(file, oldKek)
  {
    hide Keystore.Opened, Keystore.Sealed;
    Keystore.SealedOpens(Keystore.Opened(file, oldKek).value, newKek, nonce);
  }

  lemma PasswordTables(db: Tables, t: Truth, name: Str, password: Str, salt: seq<Byte>, a: Argon2, authPub: seq<Byte>)
    requires TablesGood(db, t) && name in db.users && name in t.users && |salt| == SALT_LEN && ArgonFits(a)
    ensures var db' := db.(users := db.users[name := db.users[name].(salt := salt, argon2 := a, authPub := authPub)]);
            var t' := t.(users := t.users[name := t.users[name].(password := password)]);
      TablesGood(db', t') && Extends(db, t, db', t')
  {
    hide UserGood, DocumentGood, ShareGood, NameFits, ArgonFits;
    var db' := db.(users := db.users[name := db.users[name].(salt := salt, argon2 := a, authPub := authPub)]);
    var t' := t.(users := t.users[name := t.users[name].(password := password)]);
    OldUsersStay(db, t, t', name);
    UserKnown(db, t, name);
    TablesGoodExtends(db, t, db', t');
  }
}
