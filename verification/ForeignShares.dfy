/** Shares from senders who may not read the document: the server takes them. Which requests leave a
    reader's good share good, and one that does not. */
module ForeignShares {
  import opened Bits
  import opened Wrappers
  import opened Utf8
  import opened Database
  import opened Formats
  import opened Server
  import opened Envelopes
  import opened Client
  import opened Completion
  import opened EndToEnd
  import opened Exchanges
  import opened Messages
  import Ecdh
  import Ecdsa
  import P256
  import Session
  import Sha256
  import TrustStore

  // ---- Which requests touch a row --------------------------------------------------------

  predicate UserStays(db: Tables, db': Tables, u: Str)
    requires u in db.users
  {
    u in db'.users && db'.users[u].sigPub == db.users[u].sigPub && db'.users[u].dhPub == db.users[u].dhPub
  }

  predicate DocumentStays(db: Tables, db': Tables, d: seq<Byte>)
    requires d in db.documents
  {
    d in db'.documents && db'.documents[d] == db.documents[d]
  }

  /** A SHARE for this document and reader, as the server reads it before it stores anything: signed by a
      known sender, with a new nonce, a share that repeats the request's names and identifier, a known
      reader and document, and a time that fits. */
  predicate Replaces(s: State, r: Request, k: ShareKey) {
    hide Admissible, UnpackShare, FromHex, Encode;
    && r.ShareDoc? && Admissible(s, r)
    && FromHex(r.docIdHex) == Some(k.docId) && |k.docId| == DOC_ID_LEN && r.recipient == k.recipient
    && UnpackShare(r.blob).Some?
    && var share := UnpackShare(r.blob).value;
       share.sender == r.sender && share.recipient == r.recipient && share.docId == k.docId && Fits(share.issuedMs)
       && Storable(k.recipient) && k.recipient in s.db.users && k.docId in s.db.documents
  }

  /** Exactly these requests are accepted as shares, and each replaces one row. */
  lemma ReplacesIff(s: State, r: Request, env: Env)
    requires r.ShareDoc?
    ensures Handle(s, r, env).1 == Done <==> exists k :: Replaces(s, r, k)
    ensures forall k :: Replaces(s, r, k) ==>
              Handle(s, r, env).0.db.shares == s.db.shares[k := ShareRow(r.blob, UnpackShare(r.blob).value.issuedMs)]
  {
    hide Handle, Admissible, UnpackShare, FromHex, Encode;
    ShareEffect(s, r, env);
    if Handle(s, r, env).1 == Done {
      assert Replaces(s, r, NewShareRow(r).value.key);
    }
  }

  /** Whatever is asked, identity keys and documents stay, and so does every share that is not replaced. */
  lemma RequestKeeps(s: State, r: Request, env: Env)
    ensures var db' := Handle(s, r, env).0.db;
      && (forall u <- s.db.users :: UserStays(s.db, db', u))
      && (forall d <- s.db.documents :: DocumentStays(s.db, db', d))
      && (forall k <- s.db.shares :: k in db'.shares && (!Replaces(s, r, k) ==> db'.shares[k] == s.db.shares[k]))
      && (forall k :: Replaces(s, r, k) ==> k in db'.shares && db'.shares[k].blob == r.blob)
  {
    hide Handle, Admissible, PasswordAdmissible, UploadRow, LoginVerifies, LoginSalt, Session.Issue, Session.Consume,
         FromHex, WellFormed, Replaces, NewShareRow;
    if r.ShareDoc? {
      ReplacesIff(s, r, env);
      ShareEffect(s, r, env);
      ReplacedOnce(s, r);
    }
    OnlySharesReplace(s, r);
    match r
    case Malformed => MalformedHandled(s, env);
    case Register(_, _) => RegisterEffect(s, r, env);
    case GetSalt(_) => LookUpEffect(s, r, env);
    case GetUserPubkey(_) => LookUpEffect(s, r, env);
    case LoginChallenge(name) => ChallengeEffect(s, name, env);
    case Login(name, response) => LoginEffect(s, name, response, env);
    case Upload(_, _, _, _) => UploadEffect(s, r, env);
    case ShareDoc(_, _, _, _, _, _) =>
    case GetDoc(_, _, _, _) => GetDocEffect(s, r, env);
    case ChangePassword(_, _, _, _, _, _) => PasswordEffect(s, r, env);
  }

  lemma OnlySharesReplace(s: State, r: Request)
    ensures forall k :: Replaces(s, r, k) ==> r.ShareDoc?
  {
    hide Admissible, UnpackShare, FromHex, Encode;
  }

  lemma ReplacedOnce(s: State, r: Request)
    ensures forall k, k' :: Replaces(s, r, k) && Replaces(s, r, k') ==> k == k'
  {
    hide Admissible, UnpackShare, FromHex, Encode;
  }

  // ---- Which requests leave a good share good ------------------------------------------------

  /** The share in the request gives its recipient the document's file key, is signed by its sender and
      names the stored ciphertext: what an honest sender's share does. */
  predicate Faithful(db: Tables, t: Truth, r: Request, docId: seq<Byte>)
    requires r.ShareDoc? && docId in t.files && docId in db.documents && r.recipient in t.users && r.sender in db.users
  {
    hide *;
    && UnpackShare(r.blob).Some? && UnpackDocument(db.documents[docId].blob).Some?
    && var share := UnpackShare(r.blob).value;
       UnwrapFk(t.users[r.recipient].dhPriv, share) == Some(t.files[docId].fk)
       && ShareSigned(db.users[r.sender].sigPub, share)
       && share.docHash == Sha256.Digest(UnpackDocument(db.documents[docId].blob).value.ciphertext)
  }

  lemma ShareGoodStays(db: Tables, t: Truth, db': Tables, k: ShareKey, row: ShareRow)
    requires forall u <- db.users :: UserStays(db, db', u)
    requires forall d <- db.documents :: DocumentStays(db, db', d)
    requires k.docId in db.documents && k.recipient in db.users
    requires UnpackShare(row.blob).Some? && UnpackShare(row.blob).value.sender in db.users
    ensures ShareGood(db', t, k, row) <==> ShareGood(db, t, k, row)
  {
    hide UnpackDocument, UnpackShare, UnwrapFk, ShareSigned, Sha256.Digest;
    assert DocumentStays(db, db', k.docId);
    assert UserStays(db, db', k.recipient);
    assert UserStays(db, db', UnpackShare(row.blob).value.sender);
  }

  lemma ReplacingShare(s: State, r: Request, k: ShareKey)
    requires Replaces(s, r, k)
    ensures r.ShareDoc? && r.sender in s.db.users && r.recipient == k.recipient && r.recipient in s.db.users
    ensures UnpackShare(r.blob).Some?
    ensures UnpackShare(r.blob).value.sender == r.sender && UnpackShare(r.blob).value.recipient == r.recipient
  {
    hide UnpackShare, Session.SignedBy, Canonical, Encode, FromHex;
  }

  lemma RowIsFaithful(db: Tables, t: Truth, k: ShareKey, row: ShareRow, r: Request)
    requires r.ShareDoc? && row.blob == r.blob && k.recipient == r.recipient && k.docId in t.files
    requires k.docId in db.documents
    requires r.recipient in t.users && r.recipient in db.users && r.sender in db.users && UnpackShare(r.blob).Some?
    requires UnpackShare(r.blob).value.sender == r.sender && UnpackShare(r.blob).value.recipient == r.recipient
    ensures ShareGood(db, t, k, row) <==> Faithful(db, t, r, k.docId)
  {
    hide UnpackDocument, UnpackShare, UnwrapFk, ShareSigned, Sha256.Digest;
  }

  lemma RowPlace(db: Tables, t: Truth, k: ShareKey)
    requires TablesGood(db, t) && k in db.shares
    ensures ShareGood(db, t, k, db.shares[k]) && k.docId in db.documents && k.docId in t.files
    ensures k.recipient in db.users && k.recipient in t.users
    ensures UnpackShare(db.shares[k].blob).Some? && UnpackShare(db.shares[k].blob).value.sender in db.users
  {
    hide UserGood, DocumentGood, UnpackDocument, UnpackShare, UnwrapFk, ShareSigned, Sha256.Digest;
    assert ShareGood(db, t, k, db.shares[k]);
  }

  /** One request, whoever sent it, leaves a good share good unless it replaces that share by one that is
      not itself faithful; such a request spoils it. */
  lemma GoodShareStays(s: State, t: Truth, r: Request, env: Env, k: ShareKey)
    requires TablesGood(s.db, t) && k in s.db.shares
    ensures var db' := Handle(s, r, env).0.db;
      && k in db'.shares && k.docId in s.db.documents && k.docId in t.files && k.recipient in t.users
      && (Replaces(s, r, k) ==> r.ShareDoc? && r.recipient == k.recipient && r.sender in s.db.users)
      && (ShareGood(db', t, k, db'.shares[k]) <==> (Replaces(s, r, k) ==> Faithful(s.db, t, r, k.docId)))
  {
    hide Handle, TablesGood, ShareGood, Faithful, UnpackShare, Replaces;
    RowPlace(s.db, t, k);
    RequestKeeps(s, r, env);
    var db' := Handle(s, r, env).0.db;
    if Replaces(s, r, k) {
      ReplacingShare(s, r, k);
      RowIsFaithful(s.db, t, k, db'.shares[k], r);
    }
    ShareGoodStays(s.db, t, db', k, db'.shares[k]);
  }

  // ---- A share from someone who cannot read the document --------------------------------------------

  /** The account neither owns the document nor holds a share of it: `get_doc` denies it. */
  predicate Stranger(db: Tables, name: Str, docId: seq<Byte>)
    requires docId in db.documents
  {
    db.documents[docId].owner != name && ShareKey(docId, name) !in db.shares
  }

  /** Whoever asks for an existing document by a request that may act is denied it exactly as a stranger. */
  lemma StrangerDenied(s: State, r: Request, docId: seq<Byte>, env: Env)
    requires r.GetDoc? && Admissible(s, r) && FromHex(r.docIdHex) == Some(docId) && docId in s.db.documents
    ensures Handle(s, r, env).1.DocReply? <==> !Stranger(s.db, r.reader, docId)
    ensures Handle(s, r, env) ==
      (Consumed(s, r),
       if Stranger(s.db, r.reader, docId) then Failed(AccessDenied)
       else DocReply(s.db.documents[docId].blob,
                     if ShareKey(docId, r.reader) in s.db.shares
                     then Some(s.db.shares[ShareKey(docId, r.reader)].blob) else None))
  {
    hide Session.SignedBy, Canonical, Drive, Handle, FromHex, Encode;
    Authentication(s, r, env);
    RowNames(s, r);
    var s1 := Consumed(s, r);
    var p2 := Step(s1, Admitted(r), env).1;
    Unroll(s1, Admitted(r), env);
    Unroll(s1, p2, env);
    Unroll(s1, Step(s1, p2, env).1, env);
  }

  /** The server holds a share for this reader that names another ciphertext or does not unwrap. */
  predicate Spoiled(db: Tables, v: Account, docId: seq<Byte>) {
    hide *;
    && docId in db.documents && ShareKey(docId, v.username) in db.shares
    && UnpackDocument(db.documents[docId].blob).Some?
    && var share := UnpackShare(db.shares[ShareKey(docId, v.username)].blob);
       share.Some? && (share.value.docHash != Sha256.Digest(UnpackDocument(db.documents[docId].blob).value.ciphertext)
                       || UnwrapFk(v.dhPriv, share.value).None?)
  }

  lemma SpoiledCopy(db: Tables, v: Account, docIdHex: Str, docId: seq<Byte>, c: Copy, sender: Bundle)
    requires FromHex(docIdHex) == Some(docId) && Spoiled(db, v, docId) && HasCopy(db, v, docIdHex, c)
    ensures OpenParcel(v, c).Some? ==> OpenPayload(v, OpenParcel(v, c).value, sender).None?
    ensures Recover(v, c).None?
  {
    hide UnpackDocument, UnpackShare, UnwrapFk, ShareSigned, OpenDocument, Sha256.Digest, FromHex;
  }

  lemma SpoiledDownload(s: State, trust: TrustStore.Entries, v: Account, docIdHex: Str, docId: seq<Byte>,
                        i: DownloadInputs, env: Env)
    requires FromHex(docIdHex) == Some(docId) && Spoiled(s.db, v, docId)
    ensures DownloadFile(s, trust, v, docIdHex, i, env).2.None?
  {
    hide FetchDoc, ContactKeys, OpenPayload, OpenParcel, ContentSigned, FromHex, HasCopy, Spoiled;
    FetchGood(s, v, docIdHex, i.fetch, env);
    var (s', copy) := FetchDoc(s, v, docIdHex, i.fetch, env);
    if copy.Some? && OpenParcel(v, copy.value).Some? {
      var p := OpenParcel(v, copy.value).value;
      var sender := ContactKeys(s', v, trust, p.share.sender, i.senderConsent, env).1;
      if sender.Some? {
        SpoiledCopy(s.db, v, docIdHex, docId, copy.value, sender.value);
      }
    }
  }

  lemma SpoiledShare(s: State, trust: TrustStore.Entries, v: Account, docIdHex: Str, docId: seq<Byte>, i: ReshareInputs,
                     recipient: Str, env: Env)
    requires FromHex(docIdHex) == Some(docId) && Spoiled(s.db, v, docId)
    ensures !ShareWith(s, trust, v, docIdHex, recipient, i, env).2
  {
    hide FetchDoc, ContactKeys, Recover, SendShare, FromHex, HasCopy, Spoiled, Sha256.Digest;
    FetchGood(s, v, docIdHex, i.fetch, env);
    var copy := FetchDoc(s, v, docIdHex, i.fetch, env).1;
    if copy.Some? {
      SpoiledCopy(s.db, v, docIdHex, docId, copy.value, Bundle([], []));
    }
  }

  lemma GoodIsNotSpoiled(db: Tables, t: Truth, docId: seq<Byte>, v: Account)
    requires SessionGood(db, t, v)
    requires ShareKey(docId, v.username) in db.shares
    requires ShareGood(db, t, ShareKey(docId, v.username), db.shares[ShareKey(docId, v.username)])
    ensures !Spoiled(db, v, docId)
  {
    hide UnpackDocument, UnpackShare, UnwrapFk, ShareSigned, Sha256.Digest;
  }

  /** The row after a share was sent. */
  lemma SentRow(s: State, m: Account, v: Str, docIdHex: Str, docId: seq<Byte>, version: int, docHash: seq<Byte>,
                dhPub: seq<Byte>, fk: seq<Byte>, i: ShareInputs, q: RequestInputs, env: Env)
    requires FromHex(docIdHex) == Some(docId)
    ensures var k := ShareKey(docId, v);
            var (s', ok) := SendShare(s, m, docIdHex, docId, version, docHash, v, dhPub, fk, i, q, env);
      && s'.db.users == s.db.users && s'.db.documents == s.db.documents && (!ok ==> s'.db == s.db)
      && (ok ==> k in s'.db.shares
                 && MakeShare(m, docId, version, docHash, v, dhPub, fk, i) == Some(s'.db.shares[k].blob))
  {
    hide MakeShare, SignString, Handle, RequestFits, Admissible, NewShareRow, FromHex, Session.PayloadShare, Encode;
    var blob := MakeShare(m, docId, version, docHash, v, dhPub, fk, i);
    var sig := SignString(m.sigPriv, Session.PayloadShare(m.username, docIdHex, v, q.nonce), q.k);
    if blob.Some? && sig.Some? {
      var r := ShareDoc(m.username, v, docIdHex, q.nonce, sig.value, blob.value);
      ShareEffect(s, r, env);
      OkTrip(s, r, env);
      if Handle(s, r, env).1 == Done {
        ShareRowIs(r);
      }
    }
  }

  lemma ForeignRow(s: State, t: Truth, m: Account, v: Account, docIdHex: Str, docId: seq<Byte>, version: int,
                   docHash: seq<Byte>, fk: seq<Byte>, i: ShareInputs, q: RequestInputs, env: Env)
    requires P256.StandardFacts() && ShareInputsOk(i) && TablesGood(s.db, t) && v.username in s.db.users
    requires FromHex(docIdHex) == Some(docId) && docId in s.db.documents
    ensures var dhPub := s.db.users[v.username].dhPub; var k := ShareKey(docId, v.username);
            var (s', ok) := SendShare(s, m, docIdHex, docId, version, docHash, v.username, dhPub, fk, i, q, env);
      && s'.db.documents == s.db.documents && (!ok ==> s'.db == s.db)
      && (ok ==> k in s'.db.shares && UnpackShare(s'.db.shares[k].blob).Some?
                 && UnpackShare(s'.db.shares[k].blob).value.docHash == docHash)
  {
    hide P256.StandardFacts, TablesGood, ShareInputsOk, MakeShare, SendShare, UnpackShare, UnwrapFk, ShareSigned,
         FromHex, Encode, Ecdh.PublicKey;
    var dhPub, k := s.db.users[v.username].dhPub, ShareKey(docId, v.username);
    SentRow(s, m, v.username, docIdHex, docId, version, docHash, dhPub, fk, i, q, env);
    var (s', ok) := SendShare(s, m, docIdHex, docId, version, docHash, v.username, dhPub, fk, i, q, env);
    UserKnown(s.db, t, v.username);
    if ok {
      MadeShareOpens(m, docId, version, docHash, v.username, t.users[v.username].dhPriv, fk, i, s'.db.shares[k].blob);
    }
  }

  /** A registered user m who neither owns nor holds a share of a document sends the reader v a share
      of it with a wrong hash. The server accepts it whenever it is well made, and it takes the place
      of the good share that v had; from then on v's downloads and shares of the document fail. */
  lemma ForeignShare(s: State, t: Truth, m: Account, v: Account, docIdHex: Str, docId: seq<Byte>, version: int,
                     docHash: seq<Byte>, fk: seq<Byte>, i: ShareInputs, q: RequestInputs, env: Env)
    requires P256.StandardFacts() && ShareInputsOk(i) && Ecdsa.InRange(q.k) && TablesGood(s.db, t)
    requires SessionGood(s.db, t, m) && SessionGood(s.db, t, v) && FromHex(docIdHex) == Some(docId)
    requires docId in s.db.documents && Stranger(s.db, m.username, docId) && ShareKey(docId, v.username) in s.db.shares
    requires UnpackDocument(s.db.documents[docId].blob).Some?
    requires docHash != Sha256.Digest(UnpackDocument(s.db.documents[docId].blob).value.ciphertext)
    ensures !Spoiled(s.db, v, docId)
    ensures var dhPub := s.db.users[v.username].dhPub;
            var (s', ok) := SendShare(s, m, docIdHex, docId, version, docHash, v.username, dhPub, fk, i, q, env);
      && (ok <==> ShareReady(s, m, docIdHex, docId, version, docHash, v.username, dhPub, fk, i, q))
      && (ok ==> Spoiled(s'.db, v, docId)) && (!ok ==> s'.db == s.db)
  {
    hide P256.StandardFacts, TablesGood, ShareGood, ShareInputsOk, Ecdsa.InRange, SendShare, ShareReady,
         UnpackDocument, UnpackShare, Sha256.Digest, FromHex, UnwrapFk;
    var dhPub := s.db.users[v.username].dhPub;
    RowPlace(s.db, t, ShareKey(docId, v.username));
    GoodIsNotSpoiled(s.db, t, docId, v);
    SendShareIff(s, t, m, docIdHex, docId, version, docHash, v.username, dhPub, fk, i, q, env);
    ForeignRow(s, t, m, v, docIdHex, docId, version, docHash, fk, i, q, env);
  }

  /** The two together, from v's side: a download that would have completed fails after the accepted
      share, for every later input. */
  lemma ForeignShareBlocks(s: State, t: Truth, m: Account, v: Account, docIdHex: Str, docId: seq<Byte>, version: int,
                           docHash: seq<Byte>, fk: seq<Byte>, i: ShareInputs, q: RequestInputs, env: Env,
                           trust: TrustStore.Entries, download: DownloadInputs, env': Env)
    requires P256.StandardFacts() && ShareInputsOk(i) && Ecdsa.InRange(q.k) && Ecdsa.InRange(download.fetch.k)
    requires TablesGood(s.db, t) && SessionGood(s.db, t, m) && SessionGood(s.db, t, v) && TrustGood(s.db, trust)
    requires FromHex(docIdHex) == Some(docId) && docId in s.db.documents && Stranger(s.db, m.username, docId)
    requires CanFetch(s, v, docIdHex, download.fetch) && Trusts(s.db, t, v, trust, docIdHex, download)
    requires download.writable
    requires UnpackDocument(s.db.documents[docId].blob).Some?
    requires docHash != Sha256.Digest(UnpackDocument(s.db.documents[docId].blob).value.ciphertext)
    requires ShareReady(s, m, docIdHex, docId, version, docHash, v.username, s.db.users[v.username].dhPub, fk, i, q)
    ensures DownloadFile(s, trust, v, docIdHex, download, env').2.Some?
    ensures var dhPub := s.db.users[v.username].dhPub;
            var s' := SendShare(s, m, docIdHex, docId, version, docHash, v.username, dhPub, fk, i, q, env).0;
      DownloadFile(s', trust, v, docIdHex, download, env').2.None?
  {
    hide P256.StandardFacts, TablesGood, ShareInputsOk, Ecdsa.InRange, SendShare, ShareReady, UnpackDocument,
         Sha256.Digest, FromHex, Trusts, TrustGood, DownloadFile, Spoiled, FetchFits, SignableText;
    DownloadCorrect(s, t, v, trust, docIdHex, download, env');
    ForeignShare(s, t, m, v, docIdHex, docId, version, docHash, fk, i, q, env);
    var dhPub := s.db.users[v.username].dhPub;
    var s' := SendShare(s, m, docIdHex, docId, version, docHash, v.username, dhPub, fk, i, q, env).0;
    SpoiledDownload(s', trust, v, docIdHex, docId, download, env');
  }

  // ---- What the sender has to choose ------------------------------------------------------------------

  /** A share made by the client of a registered user is good exactly when it wraps the document's file
      key and names the stored ciphertext. */
  lemma SentRowGood(db: Tables, t: Truth, m: Account, v: Str, docId: seq<Byte>, version: int, docHash: seq<Byte>,
                    fk: seq<Byte>, i: ShareInputs, blob: seq<Byte>, row: ShareRow)
    requires P256.StandardFacts() && ShareInputsOk(i) && TablesGood(db, t) && SessionGood(db, t, m)
    requires v in db.users && docId in db.documents && row.blob == blob
    requires MakeShare(m, docId, version, docHash, v, db.users[v].dhPub, fk, i) == Some(blob)
    ensures docId in t.files && UnpackDocument(db.documents[docId].blob).Some?
    ensures ShareGood(db, t, ShareKey(docId, v), row)
       <==> fk == t.files[docId].fk
            && docHash == Sha256.Digest(UnpackDocument(db.documents[docId].blob).value.ciphertext)
  {
    hide P256.StandardFacts, TablesGood, ShareInputsOk, MakeShare, UnpackShare, UnpackDocument, UnwrapFk, ShareSigned,
         Sha256.Digest, Ecdh.PublicKey, Encode;
    UserKnown(db, t, v);
    UserKnown(db, t, m.username);
    DocumentKnown(db, t, docId);
    MadeShareOpens(m, docId, version, docHash, v, t.users[v].dhPriv, fk, i, blob);
  }

  lemma DocumentKnown(db: Tables, t: Truth, docId: seq<Byte>)
    requires TablesGood(db, t) && docId in db.documents
    ensures docId in t.files && UnpackDocument(db.documents[docId].blob).Some?
  {
    hide UserGood, ShareGood, UnpackDocument, OpenDocument, ContentSigned;
    assert DocumentGood(db, t, docId, db.documents[docId]);
  }

  /** After a registered user sent a share of a document to a reader who had a good one, the reader's
      share is good exactly when the request was not ready to be accepted, or the sender chose the file
      key of the upload and the hash of the stored ciphertext. */
  lemma SentShareStays(s: State, t: Truth, m: Account, v: Str, docIdHex: Str, docId: seq<Byte>, version: int,
                       docHash: seq<Byte>, fk: seq<Byte>, i: ShareInputs, q: RequestInputs, env: Env)
    requires P256.StandardFacts() && ShareInputsOk(i) && Ecdsa.InRange(q.k) && TablesGood(s.db, t)
    requires SessionGood(s.db, t, m) && v in s.db.users && FromHex(docIdHex) == Some(docId)
    requires docId in s.db.documents && ShareKey(docId, v) in s.db.shares
    ensures docId in t.files && UnpackDocument(s.db.documents[docId].blob).Some?
    ensures var dhPub := s.db.users[v].dhPub; var k := ShareKey(docId, v);
            var s' := SendShare(s, m, docIdHex, docId, version, docHash, v, dhPub, fk, i, q, env).0;
      && k in s'.db.shares
      && (ShareGood(s'.db, t, k, s'.db.shares[k])
          <==> (ShareReady(s, m, docIdHex, docId, version, docHash, v, dhPub, fk, i, q) ==>
                  fk == t.files[docId].fk
                  && docHash == Sha256.Digest(UnpackDocument(s.db.documents[docId].blob).value.ciphertext)))
  {
    hide P256.StandardFacts, TablesGood, SessionGood, ShareGood, ShareInputsOk, Ecdsa.InRange, SendShare, ShareReady,
         UnpackDocument, UnpackShare, Sha256.Digest, FromHex, MakeShare;
    var dhPub, k := s.db.users[v].dhPub, ShareKey(docId, v);
    var s' := SendShare(s, m, docIdHex, docId, version, docHash, v, dhPub, fk, i, q, env).0;
    DocumentKnown(s.db, t, docId);
    RowPlace(s.db, t, k);
    AddressesOf(s.db, t, m, docId, v, dhPub);
    SendShareIff(s, t, m, docIdHex, docId, version, docHash, v, dhPub, fk, i, q, env);
    SentRow(s, m, v, docIdHex, docId, version, docHash, dhPub, fk, i, q, env);
    if SendShare(s, m, docIdHex, docId, version, docHash, v, dhPub, fk, i, q, env).1 {
      SentRowGood(s.db, t, m, v, docId, version, docHash, fk, i, s'.db.shares[k].blob, s'.db.shares[k]);
      SameRowGood(s.db, t, s'.db, k, s'.db.shares[k]);
    }
  }

  lemma AddressesOf(db: Tables, t: Truth, m: Account, docId: seq<Byte>, v: Str, dhPub: seq<Byte>)
    requires SessionGood(db, t, m) && v in db.users && dhPub == db.users[v].dhPub && docId in db.documents
    ensures Addresses(db, t, m, docId, v, dhPub)
  {
    hide SessionGood;
  }

  lemma SameRowGood(db: Tables, t: Truth, db': Tables, k: ShareKey, row: ShareRow)
    requires db'.users == db.users && db'.documents == db.documents
    ensures ShareGood(db', t, k, row) <==> ShareGood(db, t, k, row)
  {
    hide UnpackDocument, UnpackShare, UnwrapFk, ShareSigned, Sha256.Digest;
  }
}
