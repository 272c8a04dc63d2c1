/** What one request, served on its own, does to the tables and replies. */
module Exchanges {
  import opened Bits
  import opened Wrappers
  import opened Utf8
  import opened Database
  import opened Formats
  import opened Server
  import Ecdsa
  import Hmac
  import P256
  import Session

  /** The request holds a valid signature of a registered caller and a nonce that is new. */
  predicate Admissible(s: State, r: Request) {
    hide Session.SignedBy, Canonical, Encode;
    && Authenticated(r) && !r.ChangePassword? && Storable(Caller(r)) && Caller(r) in s.db.users
    && Session.SignedBy(s.db.users[Caller(r)].sigPub, Canonical(r), r.signature)
    && r.nonce != [] && r.nonce !in s.session.usedNonces
  }

  function Consumed(s: State, r: Request): State
    requires Authenticated(r)
  {
    s.(session := s.session.(usedNonces := s.session.usedNonces + {r.nonce}))
  }

  /** Signature and nonce decide whether a request gets to act; if not, nothing changes. */
  lemma Authentication(s: State, r: Request, env: Env)
    requires Authenticated(r) && !r.ChangePassword?
    ensures Admissible(s, r) ==> Handle(s, r, env) == Drive(Consumed(s, r), Admitted(r), env)
    ensures !Admissible(s, r) ==> Handle(s, r, env).0 == s && Handle(s, r, env).1.Failed?
  {
    hide Session.SignedBy, Canonical, Encode, Drive;
    var (s1, p1) := Step(s, Start(r), env);
    Unroll(s, Start(r), env);
    Unroll(s1, p1, env);
    Unroll(Step(s1, p1, env).0, Step(s1, p1, env).1, env);
  }

  lemma RowNames(s: State, r: Request)
    ensures r.Upload? && UploadRow(r).Ok? ==> UploadRow(r).value.row.owner == r.owner
    ensures r.ShareDoc? && NewShareRow(r).Ok? ==> NewShareRow(r).value.key.recipient == r.recipient
    ensures Admissible(s, r) ==> Storable(Caller(r))
  {
    hide UnpackDocument, UnpackShare, FromHex, Session.SignedBy, Canonical, Encode;
  }

  lemma UploadEffect(s: State, r: Request, env: Env)
    requires r.Upload?
    ensures var (s', reply) := Handle(s, r, env);
      reply.Uploaded? <==>
        Admissible(s, r) && UploadRow(r).Ok? && UploadRow(r).value.row.version == 1
        && Fits(UploadRow(r).value.row.createdMs) && UploadRow(r).value.docId !in s.db.documents
    ensures var (s', reply) := Handle(s, r, env);
      reply.Uploaded? ==> s'.session == Consumed(s, r).session
    ensures var (s', reply) := Handle(s, r, env);
      if reply.Uploaded? then
        && Admissible(s, r) && UploadRow(r).Ok? && UploadRow(r).value.row.version == 1
        && UploadRow(r).value.docId !in s.db.documents && reply.docId == UploadRow(r).value.docId
        && s'.db == s.db.(documents := s.db.documents[UploadRow(r).value.docId := UploadRow(r).value.row])
      else s'.db == s.db
  {
    hide Session.SignedBy, Canonical, UploadRow, Drive, Handle, Admissible, Encode;
    Authentication(s, r, env);
    RowNames(s, r);
    if Admissible(s, r) {
      var s1 := Consumed(s, r);
      Unroll(s1, Admitted(r), env);
      Unroll(Step(s1, Admitted(r), env).0, Step(s1, Admitted(r), env).1, env);
    }
  }

  lemma ShareEffect(s: State, r: Request, env: Env)
    requires r.ShareDoc?
    ensures var (s', reply) := Handle(s, r, env);
      reply == Done <==>
        Admissible(s, r) && NewShareRow(r).Ok? && Storable(r.recipient) && r.recipient in s.db.users
        && NewShareRow(r).value.key.docId in s.db.documents && Fits(NewShareRow(r).value.row.issuedMs)
    ensures var (s', reply) := Handle(s, r, env);
      if reply == Done then
        && Admissible(s, r) && NewShareRow(r).Ok?
        && r.recipient in s.db.users && NewShareRow(r).value.key.docId in s.db.documents
        && s'.db == s.db.(shares := s.db.shares[NewShareRow(r).value.key := NewShareRow(r).value.row])
      else s'.db == s.db
  {
    hide Session.SignedBy, Canonical, NewShareRow, Drive, Handle, Admissible, Encode;
    Authentication(s, r, env);
    RowNames(s, r);
    if Admissible(s, r) {
      var s1 := Consumed(s, r);
      var p2 := Step(s1, Admitted(r), env).1;
      Unroll(s1, Admitted(r), env);
      Unroll(s1, p2, env);
      var p3 := Step(s1, p2, env).1;
      Unroll(s1, p3, env);
      Unroll(Step(s1, p3, env).0, Step(s1, p3, env).1, env);
    }
  }

  /** A document comes back exactly when the request is admissible, the document exists and its reader is
      the owner or holds a share; it comes as it was stored, with the stored share and with none else. */
  lemma GetDocEffect(s: State, r: Request, env: Env)
    requires r.GetDoc?
    ensures Admissible(s, r) ==> Handle(s, r, env).0 == Consumed(s, r)
    ensures !Admissible(s, r) ==> Handle(s, r, env).0 == s
    ensures var reply := Handle(s, r, env).1; var docId := FromHex(r.docIdHex);
      && (reply.DocReply? <==>
            Admissible(s, r) && docId.Some? && docId.value in s.db.documents
            && (s.db.documents[docId.value].owner == r.reader || ShareKey(docId.value, r.reader) in s.db.shares))
      && (!reply.DocReply? ==> reply.Failed?)
      && (reply.DocReply? ==>
            && reply.document == s.db.documents[docId.value].blob
            && (reply.share.Some? <==> ShareKey(docId.value, r.reader) in s.db.shares)
            && (reply.share.Some? ==> reply.share.value == s.db.shares[ShareKey(docId.value, r.reader)].blob))
  {
    hide Session.SignedBy, Canonical, Drive, Handle, FromHex, Encode;
    Authentication(s, r, env);
    RowNames(s, r);
    if Admissible(s, r) {
      var s1 := Consumed(s, r);
      var p2 := Step(s1, Admitted(r), env).1;
      Unroll(s1, Admitted(r), env);
      Unroll(s1, p2, env);
      Unroll(s1, Step(s1, p2, env).1, env);
    }
  }

  lemma RegisterEffect(s: State, r: Request, env: Env)
    requires r.Register?
    ensures var (s', reply) := Handle(s, r, env);
      && (reply == Done <==>
            |r.user.salt| == 16 && |r.user.authPub| == 65 && |r.user.sigPub| == 65 && |r.user.dhPub| == 65
            && Storable(r.username) && ArgonFits(r.user.argon2) && r.username !in s.db.users)
      && s' == if reply == Done then s.(db := s.db.(users := s.db.users[r.username := r.user])) else s
  {
    hide Drive, Encode;
    Unroll(s, Start(r), env);
    Unroll(Step(s, Start(r), env).0, Step(s, Start(r), env).1, env);
  }

  lemma LookUpEffect(s: State, r: Request, env: Env)
    requires r.GetSalt? || r.GetUserPubkey?
    ensures var found := Storable(r.username) && r.username in s.db.users;
      Handle(s, r, env).0 == s
      && (found && r.GetSalt? ==>
            Handle(s, r, env).1 == SaltReply(s.db.users[r.username].salt, s.db.users[r.username].argon2))
      && (found && r.GetUserPubkey? ==>
            Handle(s, r, env).1 == KeysReply(s.db.users[r.username].sigPub, s.db.users[r.username].dhPub))
      && (!found ==> Handle(s, r, env).1.Failed?)
  {
    hide Drive, Encode;
    Unroll(s, Start(r), env);
    Unroll(s, Step(s, Start(r), env).1, env);
  }

  /** `login_challenge` answers unknown names too, and remembers the challenge either way. */
  lemma ChallengeEffect(s: State, name: Str, env: Env)
    ensures var found := if name in s.db.users then Some(s.db.users[name]) else None;
      if Storable(name) then
        Handle(s, LoginChallenge(name), env) ==
          (s.(session := Session.Issue(s.session, name, env.challenge, env.now)),
           ChallengeReply(LoginSalt(name, found, env.secret).0, LoginSalt(name, found, env.secret).1, env.challenge))
      else Handle(s, LoginChallenge(name), env) == (s, Failed(Database(Unencodable)))
  {
    hide Drive, Encode, Session.Issue, LoginSalt;
    var r := LoginChallenge(name);
    var p1 := Step(s, Start(r), env).1;
    Unroll(s, Start(r), env);
    Unroll(s, p1, env);
    Unroll(Step(s, p1, env).0, Step(s, p1, env).1, env);
  }

  lemma LoginEffect(s: State, name: Str, response: Option<seq<Byte>>, env: Env)
    ensures var (s', reply) := Handle(s, Login(name, response), env);
      && s'.db == s.db
      && (reply == Done <==>
            Storable(name) && name in s.db.users
            && LoginVerifies(Some(s.db.users[name]), Session.Consume(s.session, name, env.now).1, response))
  {
    hide Drive, Encode, Session.Consume, Ecdsa.Verify, Ecdsa.SignatureFromBytes;
    var r := Login(name, response);
    var p1 := Step(s, Start(r), env).1;
    Unroll(s, Start(r), env);
    Unroll(s, p1, env);
    Unroll(Step(s, p1, env).0, Step(s, p1, env).1, env);
  }

  /** The proof verifies under the login key of a known account, the nonce is new and the new
      parameters fit. */
  predicate PasswordAdmissible(s: State, r: Request)
    requires r.ChangePassword?
  {
    hide Session.SignedBy, Canonical, Encode;
    && WellFormed(r) && Storable(r.username) && r.username in s.db.users
    && Session.SignedBy(s.db.users[r.username].authPub, Canonical(r), r.signature)
    && r.nonce != [] && r.nonce !in s.session.usedNonces
    && r.newArgon2.Some? && ArgonFits(r.newArgon2.value)
  }

  lemma PasswordEffect(s: State, r: Request, env: Env)
    requires r.ChangePassword?
    ensures Handle(s, r, env).1 == Done <==> PasswordAdmissible(s, r)
    ensures var (s', reply) := Handle(s, r, env);
      if reply == Done then
        && r.username in s.db.users && r.newArgon2.Some?
        && s'.db == s.db.(users := s.db.users[r.username := s.db.users[r.username].(
             salt := r.newSalt, argon2 := r.newArgon2.value, authPub := r.newAuthPub)])
      else s'.db == s.db && reply.Failed? && (r.newArgon2.Some? && ArgonFits(r.newArgon2.value) ==> s' == s)
  {
    hide Session.SignedBy, Canonical, Drive, Encode;
    var (s1, p1) := Step(s, Start(r), env);
    var (s2, p2) := Step(s1, p1, env);
    var (s3, p3) := Step(s2, p2, env);
    Unroll(s, Start(r), env);
    Unroll(s1, p1, env);
    Unroll(s2, p2, env);
    Unroll(s3, p3, env);
  }

  // ---- The conditions in terms of signatures ----------------------------------------

  /** The 64 bytes sign the text of the request under the key. */
  ghost predicate Signs(key: seq<Byte>, r: Request)
    requires Authenticated(r)
  {
    hide Ecdsa.Genuine, Canonical, Encode;
    Encode(Canonical(r)).Some? && Ecdsa.Genuine(key, Encode(Canonical(r)).value, r.signature)
  }

  /** What lets a request act: a registered caller, a signature that solves the equation under the caller's
      identity key, and a nonce that is not empty and that nobody used. */
  lemma AdmissibleIff(s: State, r: Request)
    requires P256.StandardFacts() && Authenticated(r) && !r.ChangePassword?
    ensures Admissible(s, r) <==>
              Storable(Caller(r)) && Caller(r) in s.db.users && Signs(s.db.users[Caller(r)].sigPub, r)
              && r.nonce != [] && r.nonce !in s.session.usedNonces
  {
    hide P256.StandardFacts, Session.SignedBy, Ecdsa.Genuine, Canonical, Encode;
    if Caller(r) in s.db.users {
      Session.SignedByIff(s.db.users[Caller(r)].sigPub, Canonical(r), r.signature);
    }
  }

  predicate In64Bits(x: int) {
    -TWO64 <= 2 * x < TWO64
  }

  /** What lets a password change act: the same under the login key, and new values of the right sizes. */
  lemma PasswordAdmissibleIff(s: State, r: Request)
    requires P256.StandardFacts() && r.ChangePassword?
    ensures PasswordAdmissible(s, r) <==>
              Storable(r.username) && r.username in s.db.users && Signs(s.db.users[r.username].authPub, r)
              && r.nonce != [] && r.nonce !in s.session.usedNonces
              && |r.newSalt| == 16 && |r.newAuthPub| == 65 && r.newArgon2.Some?
              && In64Bits(r.newArgon2.value.t) && In64Bits(r.newArgon2.value.m) && In64Bits(r.newArgon2.value.p)
  {
    hide P256.StandardFacts, Session.SignedBy, Ecdsa.Genuine, Canonical, Encode;
    if r.username in s.db.users {
      Session.SignedByIff(s.db.users[r.username].authPub, Canonical(r), r.signature);
    }
  }

  /** A login succeeds exactly for a known account whose pending challenge is at most 60 seconds old and is
      signed, by the same equation, under the login key; the challenge is gone in any case. */
  lemma LoginIff(s: State, name: Str, response: Option<seq<Byte>>, env: Env)
    requires P256.StandardFacts()
    ensures var (s', reply) := Handle(s, Login(name, response), env);
      && (reply == Done <==>
            Storable(name) && name in s.db.users && name in s.session.challenges
            && env.now - s.session.challenges[name].issuedAt <= 60.0 && response.Some?
            && Ecdsa.Genuine(s.db.users[name].authPub, s.session.challenges[name].bytes, response.value))
      && (Storable(name) && reply != Done ==> reply == Failed(InvalidCredentials))
      && s' == if Storable(name) then s.(session := s.session.(challenges := s.session.challenges - {name})) else s
  {
    hide P256.StandardFacts, Drive, Encode, Ecdsa.Verify, Ecdsa.SignatureFromBytes, Ecdsa.Genuine;
    LoginEffect(s, name, response, env);
    LoginState(s, name, response, env);
    if name in s.db.users && name in s.session.challenges && response.Some? {
      Ecdsa.BytesVerifyIff(s.db.users[name].authPub, s.session.challenges[name].bytes, response.value);
    }
  }

  lemma LoginState(s: State, name: Str, response: Option<seq<Byte>>, env: Env)
    ensures Storable(name) ==> Handle(s, Login(name, response), env).1 in {Done, Failed(InvalidCredentials)}
    ensures Handle(s, Login(name, response), env).0
         == if Storable(name) then s.(session := s.session.(challenges := s.session.challenges - {name})) else s
  {
    hide Drive, Encode, LoginVerifies;
    var r := Login(name, response);
    var p1 := Step(s, Start(r), env).1;
    Unroll(s, Start(r), env);
    Unroll(s, p1, env);
    Unroll(Step(s, p1, env).0, Step(s, p1, env).1, env);
    assert name !in s.session.challenges ==> s.session.challenges - {name} == s.session.challenges;
  }

  /** The challenge for a known name comes with its salt and parameters, and for an unknown one with a salt
      that the server's secret and the name determine, and with the parameters of every new account. */
  lemma ChallengeFields(s: State, name: Str, env: Env)
    requires Encode(name).Some?
    ensures var (s', reply) := Handle(s, LoginChallenge(name), env);
      && s'.db == s.db && s'.session.usedNonces == s.session.usedNonces
      && s'.session.challenges == s.session.challenges[name := Session.Challenge(env.challenge, env.now)]
      && reply.ChallengeReply? && reply.challenge == env.challenge
      && reply.salt == (if name in s.db.users then s.db.users[name].salt
                        else Hmac.HmacSha256(env.secret, Encode(name).value)[..16])
      && reply.argon2 == (if name in s.db.users then s.db.users[name].argon2 else Argon2(2, 131072, 1))
  {
    hide Handle, Encode, Hmac.HmacSha256;
    ChallengeEffect(s, name, env);
  }

  /** Why a request is turned away before it acts, in the order of the checks. Whether the caller of a password
      change is unknown or the proof does not hold, the answer is the same. */
  lemma Refusals(s: State, r: Request, env: Env)
    requires P256.StandardFacts() && Authenticated(r) && WellFormed(r) && Storable(Caller(r))
    ensures var (s', reply) := Handle(s, r, env); var name := Caller(r);
      && (name !in s.db.users ==> reply == Failed(if r.ChangePassword? then OldPasswordIncorrect else UserNotFound))
      && (name in s.db.users ==>
            var key := if r.ChangePassword? then s.db.users[name].authPub else s.db.users[name].sigPub;
            && (!Signs(key, r) ==> reply == Failed(if r.ChangePassword? then OldPasswordIncorrect else BadSignature))
            && (Signs(key, r) && (r.nonce == [] || r.nonce in s.session.usedNonces) ==> reply == Failed(NonceUsed)))
  {
    hide P256.StandardFacts, Session.SignedBy, Ecdsa.Genuine, Canonical, Encode, Drive;
    if Caller(r) in s.db.users {
      var u := s.db.users[Caller(r)];
      Session.SignedByIff(if r.ChangePassword? then u.authPub else u.sigPub, Canonical(r), r.signature);
    }
    var (s1, p1) := Step(s, Start(r), env);
    Unroll(s, Start(r), env);
    Unroll(s1, p1, env);
    Unroll(Step(s1, p1, env).0, Step(s1, p1, env).1, env);
  }
}
