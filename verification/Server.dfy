/** server/server.py: the request handlers. Each handler is a sequence of atomic steps, one for
    every call it makes into the database or the session state, which hold their own locks. */
module Server {
  import opened Bits
  import opened Wrappers
  import opened Utf8
  import opened Database
  import opened Formats
  import Ecdsa
  import Hmac
  import Session

  const SALT_LEN: nat := 16
  const PUBLIC_KEY_LEN: nat := 65

  /** A request whose fields have the right types and, where they are base64 text, decode.
      `Malformed` is any request that a handler turns away before it looks at anything else.
      An argument that is None is one that fails to convert after other checks were made. */
  datatype Request =
    | Malformed
    | Register(username: Str, user: User)
    | GetSalt(username: Str)
    | GetUserPubkey(username: Str)
    | LoginChallenge(username: Str)
    | Login(username: Str, response: Option<seq<Byte>>)
    | Upload(owner: Str, nonce: Str, signature: seq<Byte>, document: seq<Byte>)
    | ShareDoc(sender: Str, recipient: Str, docIdHex: Str, nonce: Str, signature: seq<Byte>, blob: seq<Byte>)
    | GetDoc(reader: Str, docIdHex: Str, nonce: Str, signature: seq<Byte>)
    | ChangePassword(username: Str, nonce: Str, signature: seq<Byte>,
                     newSalt: seq<Byte>, newArgon2: Option<Argon2>, newAuthPub: seq<Byte>)

  datatype Failure =
    | MalformedRequest | UserNotFound | BadSignature | NonceUsed | MalformedDocument | OwnerMismatch
    | BadDocId | MalformedShare | FieldsMismatch | RecipientNotFound | DocumentNotFound | AccessDenied
    | InvalidCredentials | OldPasswordIncorrect | BadArgon2 | FrameTooLong | Database(error: DbError)

  datatype Reply =
    | Failed(failure: Failure)
    | Done
    | Uploaded(docId: seq<Byte>)
    | SaltReply(salt: seq<Byte>, argon2: Argon2)
    | ChallengeReply(salt: seq<Byte>, argon2: Argon2, challenge: seq<Byte>)
    | KeysReply(sigPub: seq<Byte>, dhPub: seq<Byte>)
    | DocReply(document: seq<Byte>, share: Option<seq<Byte>>)

  datatype State = State(db: Tables, session: Session.Contents)

  /** What a step takes from outside: fresh random bytes, the clock, and the secret the server
      drew when it started. */
  datatype Env = Env(challenge: seq<Byte>, now: real, secret: seq<Byte>)

  // ---- Local computations ---------------------------------------------------------------

  predicate Authenticated(r: Request) {
    r.Upload? || r.ShareDoc? || r.GetDoc? || r.ChangePassword?
  }

  function Caller(r: Request): Str
    requires Authenticated(r)
  {
    match r
    case Upload(owner, _, _, _) => owner
    case ShareDoc(sender, _, _, _, _, _) => sender
    case GetDoc(reader, _, _, _) => reader
    case ChangePassword(username, _, _, _, _, _) => username
  }

  /** The string the caller signs. */
  function Canonical(r: Request): Str
    requires Authenticated(r)
  {
    match r
    case Upload(owner, nonce, _, _) => Session.PayloadUpload(owner, nonce)
    case ShareDoc(sender, recipient, docIdHex, nonce, _, _) => Session.PayloadShare(sender, docIdHex, recipient, nonce)
    case GetDoc(reader, docIdHex, nonce, _) => Session.PayloadDownload(reader, docIdHex, nonce)
    case ChangePassword(username, nonce, _, _, _, _) => Session.PayloadChangePassword(username, nonce)
  }

  /** Length checks made while the fields are read. */
  predicate WellFormed(r: Request) {
    match r
    case Malformed => false
    case Register(_, u) => |u.salt| == SALT_LEN && |u.authPub| == PUBLIC_KEY_LEN
                           && |u.sigPub| == PUBLIC_KEY_LEN && |u.dhPub| == PUBLIC_KEY_LEN
    case ChangePassword(_, _, _, newSalt, _, newAuthPub) => |newSalt| == SALT_LEN && |newAuthPub| == PUBLIC_KEY_LEN
    case _ => true
  }

  /** The signature check on the record found for the caller: change_password is signed with the
      key derived from the old password, the others with the identity key. */
  function CheckCaller(r: Request, found: Option<User>): Option<Failure>
    requires Authenticated(r)
  {
    match found
    case None => Some(if r.ChangePassword? then OldPasswordIncorrect else UserNotFound)
    case Some(u) =>
      if Session.SignedBy(if r.ChangePassword? then u.authPub else u.sigPub, Canonical(r), r.signature) then None
      else Some(if r.ChangePassword? then OldPasswordIncorrect else BadSignature)
  }

  datatype NewDocument = NewDocument(docId: seq<Byte>, row: Document)

  /** What `upload` stores. */
  function UploadRow(r: Request): Result<NewDocument, Failure>
    requires r.Upload?
  {
    match UnpackDocument(r.document)
    case None => Err(MalformedDocument)
    case Some(d) =>
      if d.header.owner != r.owner then Err(OwnerMismatch)
      else Ok(NewDocument(d.header.docId, Document(d.header.owner, d.header.version, d.header.createdMs, r.document)))
  }

  datatype NewShare = NewShare(key: ShareKey, row: ShareRow)

  /** What `share` stores, once recipient and document are known to exist. */
  function NewShareRow(r: Request): Result<NewShare, Failure>
    requires r.ShareDoc?
  {
    match FromHex(r.docIdHex)
    case None => Err(BadDocId)
    case Some(docId) =>
      if |docId| != DOC_ID_LEN then Err(BadDocId)
      else
        match UnpackShare(r.blob)
        case None => Err(MalformedShare)
        case Some(s) =>
          if s.sender != r.sender || s.recipient != r.recipient || s.docId != docId then Err(FieldsMismatch)
          else Ok(NewShare(ShareKey(docId, r.recipient), ShareRow(r.blob, s.issuedMs)))
  }

  /** The salt and parameters of a user, or a stable pretence for an unknown name. */
  function LoginSalt(username: Str, found: Option<User>, secret: seq<Byte>): (seq<Byte>, Argon2)
    requires Storable(username)
  {
    match found
    case Some(u) => (u.salt, u.argon2)
    case None => (Hmac.HmacSha256(secret, Encode(username).value)[..SALT_LEN], Argon2(2, 128 * 1024, 1))
  }

  predicate LoginVerifies(found: Option<User>, challenge: Option<seq<Byte>>, response: Option<seq<Byte>>) {
    && found.Some? && challenge.Some? && response.Some?
    && Ecdsa.SignatureFromBytes(response.value).Some?
    && Ecdsa.Verify(found.value.authPub, challenge.value, Ecdsa.SignatureFromBytes(response.value).value)
  }

  // ---- Atomic steps -----------------------------------------------------------------------

  /** Where a handler stands. `Signed`: the signature held against the record read. `Admitted`:
      and the nonce was new. `passed` in `Finished` records whether the nonce was consumed. */
  datatype Pc =
    | Start(request: Request)
    | Signed(request: Request)
    | Admitted(request: Request)
    | RecipientFound(request: Request)
    | DocumentFound(request: Request)
    | Fetched(request: Request, document: Document)
    | Asked(request: Request, found: Option<User>)
    | Finished(request: Request, reply: Reply, passed: bool)

  function Stop(r: Request, f: Failure, passed: bool): Pc {
    Finished(r, Failed(f), passed)
  }

  /** The states a request of each kind can be in. */
  predicate Sensible(pc: Pc) {
    match pc
    case Start(_) => true
    case Finished(_, _, _) => true
    case Signed(r) => Authenticated(r)
    case Admitted(r) => Authenticated(r)
    case RecipientFound(r) => r.ShareDoc? && NewShareRow(r).Ok?
    case DocumentFound(r) => r.ShareDoc? && NewShareRow(r).Ok?
    case Fetched(r, _) => r.GetDoc? && FromHex(r.docIdHex).Some?
    case Asked(r, _) => (r.LoginChallenge? || r.Login?) && Storable(r.username)
  }

  /** One step: at most one call into the database or the session state. */
  function Step(s: State, pc: Pc, env: Env): (r: (State, Pc))
    requires Sensible(pc)
    ensures Sensible(r.1) && r.1.request == pc.request
  {
    match pc
    case Start(r) => if r.Register? then AddAccount(s, r) else LookUp(s, r)
    case Signed(r) => TryNonce(s, r)
    case Admitted(r) => Act(s, r)
    case RecipientFound(r) => SeeDocument(s, r)
    case DocumentFound(r) => StoreShare(s, r)
    case Fetched(r, d) => Deliver(s, r, d)
    case Asked(r, found) => AnswerLogin(s, r, found, env)
    case Finished(_, _, _) => (s, pc)
  }

  function AddAccount(s: State, r: Request): (State, Pc)
    requires r.Register?
  {
    if !WellFormed(r) then (s, Stop(r, MalformedRequest, false))
    else
      var t := AddUser(s.db, r.username, r.user);
      (s.(db := Committed(s.db, t)), Finished(r, if t.Ok? then Done else Failed(Database(t.error)), false))
  }

  /** The first look-up and what follows from it alone. */
  function LookUp(s: State, r: Request): (State, Pc)
    requires !r.Register?
  {
    if !WellFormed(r) then (s, Stop(r, MalformedRequest, false))
    else
      match FindUser(s.db, if Authenticated(r) then Caller(r) else r.username)
      case Err(e) => (s, Stop(r, Database(e), false))
      case Ok(found) =>
        if Authenticated(r) then
          match CheckCaller(r, found)
          case None => (s, Signed(r))
          case Some(f) => (s, Stop(r, f, false))
        else if r.LoginChallenge? || r.Login? then (s, Asked(r, found))
        else if found.None? then (s, Stop(r, UserNotFound, false))
        else if r.GetSalt? then (s, Finished(r, SaltReply(found.value.salt, found.value.argon2), false))
        else (s, Finished(r, KeysReply(found.value.sigPub, found.value.dhPub), false))
  }

  function TryNonce(s: State, r: Request): (State, Pc)
    requires Authenticated(r)
  {
    var (session, isNew) := Session.UseNonce(s.session, r.nonce);
    if isNew then (s.(session := session), Admitted(r)) else (s, Stop(r, NonceUsed, false))
  }

  /** The first step behind the nonce check. */
  function Act(s: State, r: Request): (State, Pc)
    requires Authenticated(r)
  {
    match r
    case Upload(_, _, _, _) => StoreDocument(s, r)
    case ShareDoc(_, _, _, _, _, _) => SeeRecipient(s, r)
    case GetDoc(_, _, _, _) => FetchDocument(s, r)
    case ChangePassword(_, _, _, _, _, _) => ReplaceAuth(s, r)
  }

  function StoreDocument(s: State, r: Request): (State, Pc)
    requires r.Upload?
  {
    match UploadRow(r)
    case Err(f) => (s, Stop(r, f, true))
    case Ok(n) =>
      var t := AddDocument(s.db, n.docId, n.row);
      (s.(db := Committed(s.db, t)),
       Finished(r, if t.Ok? then Uploaded(n.docId) else Failed(Database(t.error)), true))
  }

  function SeeRecipient(s: State, r: Request): (State, Pc)
    requires r.ShareDoc?
  {
    if NewShareRow(r).Err? then (s, Stop(r, NewShareRow(r).error, true))
    else
      match FindUser(s.db, r.recipient)
      case Err(e) => (s, Stop(r, Database(e), true))
      case Ok(found) => if found.None? then (s, Stop(r, RecipientNotFound, true)) else (s, RecipientFound(r))
  }

  function SeeDocument(s: State, r: Request): (State, Pc)
    requires r.ShareDoc? && NewShareRow(r).Ok?
  {
    if NewShareRow(r).value.key.docId !in s.db.documents then (s, Stop(r, DocumentNotFound, true))
    else (s, DocumentFound(r))
  }

  function StoreShare(s: State, r: Request): (State, Pc)
    requires r.ShareDoc? && NewShareRow(r).Ok?
  {
    var n := NewShareRow(r).value;
    var t := PutShare(s.db, n.key, n.row);
    (s.(db := Committed(s.db, t)), Finished(r, if t.Ok? then Done else Failed(Database(t.error)), true))
  }

  function FetchDocument(s: State, r: Request): (State, Pc)
    requires r.GetDoc?
  {
    match FromHex(r.docIdHex)
    case None => (s, Stop(r, BadDocId, true))
    case Some(docId) =>
      if docId !in s.db.documents then (s, Stop(r, DocumentNotFound, true))
      else (s, Fetched(r, s.db.documents[docId]))
  }

  /** The access check of `get_doc`: the owner, or whoever holds a share. */
  function Deliver(s: State, r: Request, d: Document): (State, Pc)
    requires r.GetDoc? && FromHex(r.docIdHex).Some?
  {
    match FindShare(s.db, ShareKey(FromHex(r.docIdHex).value, r.reader))
    case Err(e) => (s, Stop(r, Database(e), true))
    case Ok(share) =>
      if d.owner != r.reader && share.None? then (s, Stop(r, AccessDenied, true))
      else (s, Finished(r, DocReply(d.blob, if share.Some? then Some(share.value.blob) else None), true))
  }

  function ReplaceAuth(s: State, r: Request): (State, Pc)
    requires r.ChangePassword?
  {
    if r.newArgon2.None? then (s, Stop(r, BadArgon2, true))
    else
      var t := SetAuth(s.db, r.username, r.newSalt, r.newArgon2.value, r.newAuthPub);
      (s.(db := Committed(s.db, t)), Finished(r, if t.Ok? then Done else Failed(Database(t.error)), true))
  }

  /** The session step of `login_challenge` and `login`. */
  function AnswerLogin(s: State, r: Request, found: Option<User>, env: Env): (State, Pc)
    requires (r.LoginChallenge? || r.Login?) && Storable(r.username)
  {
    if r.LoginChallenge? then
      var (salt, argon2) := LoginSalt(r.username, found, env.secret);
      (s.(session := Session.Issue(s.session, r.username, env.challenge, env.now)),
       Finished(r, ChallengeReply(salt, argon2, env.challenge), false))
    else
      var (session, challenge) := Session.Consume(s.session, r.username, env.now);
      (s.(session := session),
       Finished(r, if LoginVerifies(found, challenge, r.response) then Done else Failed(InvalidCredentials), false))
  }

  // ---- A handler that runs alone --------------------------------------------------------------

  /** Steps still to make, at most. */
  function Remaining(pc: Pc): nat {
    match pc
    case Start(_) => 5
    case Signed(_) => 4
    case Admitted(_) => 3
    case RecipientFound(_) => 2
    case DocumentFound(_) => 1
    case Fetched(_, _) => 1
    case Asked(_, _) => 1
    case Finished(_, _, _) => 0
  }

  lemma StepProgress(s: State, pc: Pc, env: Env)
    requires Sensible(pc) && !pc.Finished?
    ensures Remaining(Step(s, pc, env).1) < Remaining(pc)
  {
    hide CheckCaller, UploadRow, NewShareRow, FromHex, LoginVerifies, LoginSalt, Encode;
  }

  /** The rest of a handler with nothing in between. */
  function Drive(s: State, pc: Pc, env: Env): (State, Reply)
    requires Sensible(pc)
    decreases Remaining(pc)
  {
    if pc.Finished? then (s, pc.reply)
    else
      StepProgress(s, pc, env);
      var (s', pc') := Step(s, pc, env);
      Drive(s', pc', env)
  }

  /** One request on its own. */
  function Handle(s: State, r: Request, env: Env): (State, Reply) {
    Drive(s, Start(r), env)
  }

  // ---- The handlers -----------------------------------------------------------------------

  lemma Unroll(s: State, pc: Pc, env: Env)
    requires Sensible(pc)
    ensures pc.Finished? ==> Drive(s, pc, env) == (s, pc.reply)
    ensures !pc.Finished? ==> Drive(s, pc, env) == Drive(Step(s, pc, env).0, Step(s, pc, env).1, env)
  {
    hide Step;
  }

  lemma MalformedHandled(s: State, env: Env)
    ensures Handle(s, Malformed, env) == (s, Failed(MalformedRequest))
  {
  }

  class SecureVaultServer {
    const db: ServerDB
    const session: Session.SessionState
    const secret: seq<Byte>

    ghost predicate Valid() {
      session.ttl == Session.CHALLENGE_TTL_SECONDS
    }

    ghost function View(): State
      reads db, session
    {
      State(db.State(), session.State())
    }

    constructor (secret: seq<Byte>)
      ensures Valid() && fresh(db) && fresh(session)
      ensures View() == State(EMPTY, Session.Contents({}, map[]))
    {
      this.secret := secret;
      db := new ServerDB();
      session := new Session.SessionState();
    }

    method HandleRegister(r: Request, ghost env: Env) returns (reply: Reply)
      requires r.Register?
      modifies db
      ensures (View(), reply) == Handle(old(View()), r, env)
    {
      hide Drive;
      Unroll(View(), Start(r), env);
      Unroll(Step(View(), Start(r), env).0, Step(View(), Start(r), env).1, env);
      if !WellFormed(r) {
        return Failed(MalformedRequest);
      }
      var raised := db.CreateUser(r.username, r.user);
      reply := if raised.Some? then Failed(Database(raised.value)) else Done;
    }

    /** `_authenticate`: on success the handler goes on behind the nonce check. */
    method Authenticate(ghost r: Request, user: Str, canonical: Str, signature: seq<Byte>, nonce: Str, ghost env: Env)
        returns (failure: Option<Failure>)
      requires Authenticated(r) && !r.ChangePassword? && WellFormed(r)
      requires user == Caller(r) && canonical == Canonical(r) && signature == r.signature && nonce == r.nonce
      modifies session
      ensures failure.Some? ==> (View(), Failed(failure.value)) == Handle(old(View()), r, env)
      ensures failure.None? ==> Drive(View(), Admitted(r), env) == Handle(old(View()), r, env)
      ensures failure.Some? ==> View() == old(View())
    {
      hide Drive, Session.SignedBy;
      ghost var s := View();
      ghost var pc := Step(s, Start(r), env).1;
      Unroll(s, Start(r), env);
      Unroll(s, pc, env);
      var record := db.GetUser(user);
      if record.Err? {
        return Some(Database(record.error));
      }
      if record.value.None? {
        return Some(UserNotFound);
      }
      if !Session.SignedBy(record.value.value.sigPub, canonical, signature) {
        return Some(BadSignature);
      }
      var isNew := session.CheckAndConsumeNonce(nonce);
      Unroll(View(), Step(s, pc, env).1, env);
      failure := if isNew then None else Some(NonceUsed);
    }

    method HandleUpload(r: Request, ghost env: Env) returns (reply: Reply)
      requires r.Upload?
      modifies db, session
      ensures (View(), reply) == Handle(old(View()), r, env)
    {
      hide Drive, UnpackDocument, Session.SignedBy, Handle;
      var auth := Authenticate(r, r.owner, Session.PayloadUpload(r.owner, r.nonce), r.signature, r.nonce, env);
      if auth.Some? {
        return Failed(auth.value);
      }
      ghost var s := View();
      Unroll(s, Admitted(r), env);
      Unroll(Step(s, Admitted(r), env).0, Step(s, Admitted(r), env).1, env);
      var parsed := UnpackDocumentLoop(r.document);
      if parsed.None? {
        return Failed(MalformedDocument);
      }
      var h := parsed.value.header;
      if h.owner != r.owner {
        return Failed(OwnerMismatch);
      }
      var raised := db.CreateDocument(h.docId, Document(h.owner, h.version, h.createdMs, r.document));
      reply := if raised.Some? then Failed(Database(raised.value)) else Uploaded(h.docId);
    }

    method HandleShare(r: Request, ghost env: Env) returns (reply: Reply)
      requires r.ShareDoc?
      modifies db, session
      ensures (View(), reply) == Handle(old(View()), r, env)
    {
      hide Drive, UnpackShare, FromHex, Session.SignedBy, Handle;
      var canonical := Session.PayloadShare(r.sender, r.docIdHex, r.recipient, r.nonce);
      var auth := Authenticate(r, r.sender, canonical, r.signature, r.nonce, env);
      if auth.Some? {
        return Failed(auth.value);
      }
      ghost var s := View();
      ghost var pc := Step(s, Admitted(r), env).1;
      Unroll(s, Admitted(r), env);
      Unroll(s, pc, env);
      var docId := FromHex(r.docIdHex);
      if docId.None? || |docId.value| != DOC_ID_LEN {
        return Failed(BadDocId);
      }
      var parsed := UnpackShareLoop(r.blob);
      if parsed.None? {
        return Failed(MalformedShare);
      }
      var share := parsed.value;
      if share.sender != r.sender || share.recipient != r.recipient || share.docId != docId.value {
        return Failed(FieldsMismatch);
      }
      var recipient := db.GetUser(r.recipient);
      if recipient.Err? {
        return Failed(Database(recipient.error));
      } else if recipient.value.None? {
        return Failed(RecipientNotFound);
      }
      ghost var pc' := Step(s, pc, env).1;
      Unroll(s, pc', env);
      var document := db.GetDocument(docId.value);
      if document.None? {
        return Failed(DocumentNotFound);
      }
      Unroll(Step(s, pc', env).0, Step(s, pc', env).1, env);
      var raised := db.CreateOrReplaceShare(ShareKey(docId.value, r.recipient), ShareRow(r.blob, share.issuedMs));
      reply := if raised.Some? then Failed(Database(raised.value)) else Done;
    }

    method HandleGetDoc(r: Request, ghost env: Env) returns (reply: Reply)
      requires r.GetDoc?
      modifies session
      ensures (View(), reply) == Handle(old(View()), r, env)
    {
      hide Drive, FromHex, Session.SignedBy, Handle;
      var canonical := Session.PayloadDownload(r.reader, r.docIdHex, r.nonce);
      var auth := Authenticate(r, r.reader, canonical, r.signature, r.nonce, env);
      if auth.Some? {
        return Failed(auth.value);
      }
      ghost var s := View();
      ghost var pc := Step(s, Admitted(r), env).1;
      Unroll(s, Admitted(r), env);
      Unroll(s, pc, env);
      var docId := FromHex(r.docIdHex);
      if docId.None? {
        return Failed(BadDocId);
      }
      var doc := db.GetDocument(docId.value);
      if doc.None? {
        return Failed(DocumentNotFound);
      }
      Unroll(s, Step(s, pc, env).1, env);
      var share := db.GetShare(ShareKey(docId.value, r.reader));
      if share.Err? {
        return Failed(Database(share.error));
      }
      if doc.value.owner != r.reader && share.value.None? {
        return Failed(AccessDenied);
      }
      reply := DocReply(doc.value.blob, if share.value.Some? then Some(share.value.value.blob) else None);
    }

    method HandleChangePassword(r: Request, ghost env: Env) returns (reply: Reply)
      requires r.ChangePassword?
      modifies db, session
      ensures (View(), reply) == Handle(old(View()), r, env)
    {
      hide Drive, Session.SignedBy;
      ghost var s := View();
      ghost var pc := Step(s, Start(r), env).1;
      Unroll(s, Start(r), env);
      Unroll(s, pc, env);
      if !WellFormed(r) {
        return Failed(MalformedRequest);
      }
      var user := db.GetUser(r.username);
      if user.Err? {
        return Failed(Database(user.error));
      } else if user.value.None? {
        return Failed(OldPasswordIncorrect);
      }
      var canonical := Session.PayloadChangePassword(r.username, r.nonce);
      if !Session.SignedBy(user.value.value.authPub, canonical, r.signature) {
        return Failed(OldPasswordIncorrect);
      }
      var isNew := session.CheckAndConsumeNonce(r.nonce);
      Unroll(View(), Step(s, pc, env).1, env);
      if !isNew {
        return Failed(NonceUsed);
      }
      if r.newArgon2.None? {
        Unroll(View(), Stop(r, BadArgon2, true), env);
        return Failed(BadArgon2);
      }
      Unroll(Step(View(), Admitted(r), env).0, Step(View(), Admitted(r), env).1, env);
      var raised := db.UpdateUserAuth(r.username, r.newSalt, r.newArgon2.value, r.newAuthPub);
      reply := if raised.Some? then Failed(Database(raised.value)) else Done;
    }

    method HandleLoginChallenge(r: Request, challenge: seq<Byte>, now: real) returns (reply: Reply)
      requires r.LoginChallenge?
      modifies session
      ensures (View(), reply) == Handle(old(View()), r, Env(challenge, now, secret))
    {
      hide Drive, Encode, Hmac.HmacSha256;
      ghost var s, env := View(), Env(challenge, now, secret);
      ghost var pc := Step(s, Start(r), env).1;
      Unroll(s, Start(r), env);
      Unroll(s, pc, env);
      var user := db.GetUser(r.username);
      if user.Err? {
        return Failed(Database(user.error));
      }
      Unroll(Step(s, pc, env).0, Step(s, pc, env).1, env);
      var (salt, argon2) := LoginSalt(r.username, user.value, secret);
      session.IssueChallenge(r.username, challenge, now);
      reply := ChallengeReply(salt, argon2, challenge);
    }

    method HandleLogin(r: Request, now: real, ghost env: Env) returns (reply: Reply)
      requires Valid() && r.Login? && env.now == now
      modifies session
      ensures (View(), reply) == Handle(old(View()), r, env)
    {
      hide Drive, Encode, Ecdsa.Verify, Ecdsa.SignatureFromBytes;
      ghost var s := View();
      ghost var pc := Step(s, Start(r), env).1;
      Unroll(s, Start(r), env);
      Unroll(s, pc, env);
      var user := db.GetUser(r.username);
      if user.Err? {
        return Failed(Database(user.error));
      }
      Unroll(Step(s, pc, env).0, Step(s, pc, env).1, env);
      var challenge := session.ConsumeChallenge(r.username, now);
      if user.value.None? || challenge.None? || r.response.None? {
        return Failed(InvalidCredentials);
      }
      var sig := Ecdsa.SignatureFromBytes(r.response.value);
      if sig.None? || !Ecdsa.Verify(user.value.value.authPub, challenge.value, sig.value) {
        return Failed(InvalidCredentials);
      }
      reply := Done;
    }

    /** `get_salt` and `get_user_pubkey`. */
    method HandleLookUp(r: Request, ghost env: Env) returns (reply: Reply)
      requires r.GetSalt? || r.GetUserPubkey?
      ensures (View(), reply) == Handle(View(), r, env)
    {
      hide Drive;
      Unroll(View(), Start(r), env);
      Unroll(View(), Step(View(), Start(r), env).1, env);
      var user := db.GetUser(r.username);
      if user.Err? {
        return Failed(Database(user.error));
      } else if user.value.None? {
        return Failed(UserNotFound);
      }
      var u := user.value.value;
      reply := if r.GetSalt? then SaltReply(u.salt, u.argon2) else KeysReply(u.sigPub, u.dhPub);
    }

    /** `_dispatch`. */
    method Dispatch(r: Request, challenge: seq<Byte>, now: real) returns (reply: Reply)
      requires Valid()
      modifies db, session
      ensures (View(), reply) == Handle(old(View()), r, Env(challenge, now, secret))
    {
      hide Handle;
      ghost var env := Env(challenge, now, secret);
      match r
      case Malformed =>
        MalformedHandled(View(), env);
        reply := Failed(MalformedRequest);
      case Register(_, _) => reply := HandleRegister(r, env);
      case GetSalt(_) => reply := HandleLookUp(r, env);
      case GetUserPubkey(_) => reply := HandleLookUp(r, env);
      case LoginChallenge(_) => reply := HandleLoginChallenge(r, challenge, now);
      case Login(_, _) => reply := HandleLogin(r, now, env);
      case Upload(_, _, _, _) => reply := HandleUpload(r, env);
      case ShareDoc(_, _, _, _, _, _) => reply := HandleShare(r, env);
      case GetDoc(_, _, _, _) => reply := HandleGetDoc(r, env);
      case ChangePassword(_, _, _, _, _, _) => reply := HandleChangePassword(r, env);
    }
  }
}
