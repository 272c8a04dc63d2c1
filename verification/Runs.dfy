/** Runs of any number of clients against one server: sign-ups, logins, password changes,
    uploads, shares along chains, and downloads, in any order. */
module Runs {
  import opened Bits
  import opened Wrappers
  import opened Utf8
  import opened Database
  import opened Formats
  import opened Server
  import opened Envelopes
  import opened Client
  import opened EndToEnd
  import opened Exchanges
  import opened Messages
  import Ecdh
  import Ecdsa
  import Hmac
  import Keystore
  import P256
  import Session
  import Sha256
  import TrustStore

  datatype Call =
    | SignUpCall(name: Str, password: Str, signup: SignupInputs)
    | LogInCall(name: Str, password: Str, k: int, env': Env)
    | LogOutCall(name: Str)
    | SwitchCall(name: Str, oldPassword: Str, newPassword: Str, change: ChangeInputs)
    | UploadCall(name: Str, filename: Str, content: seq<Byte>, upload: UploadInputs)
    | ShareCall(name: Str, docIdHex: Str, recipient: Str, reshare: ReshareInputs)
    | DownloadCall(name: Str, docIdHex: Str, download: DownloadInputs)
    | VerifyContactCall(name: Str, contact: Str)

  function KeyFileOf(w: World, name: Str): Option<seq<Byte>> {
    if name in w.keyFiles then Some(w.keyFiles[name]) else None
  }

  function TrustOf(w: World, name: Str): TrustStore.Entries {
    if name in w.trust then w.trust[name] else map[]
  }

  function WithKeyFile(w: World, name: Str, file: Option<seq<Byte>>): World {
    if file.Some? then w.(keyFiles := w.keyFiles[name := file.value]) else w
  }

  /** One call by the user `name`, and whether it completed. */
  function Apply(w: World, kdf: Kdf, c: Call, env: Env): (World, bool) {
    hide *;
    match c
    case SignUpCall(name, password, i) =>
      var (s, file, ok) := SignUp(w.server, KeyFileOf(w, name), kdf, name, password, i, env);
      (WithKeyFile(w.(server := s), name, file), ok)
    case LogInCall(name, password, k, env') =>
      var (s, a) := LogIn(w.server, KeyFileOf(w, name), kdf, name, password, k, env, env');
      (if a.Some? then w.(server := s, sessions := w.sessions[name := a.value]) else w.(server := s), a.Some?)
    case _ =>
      if c.name !in w.sessions then (w, false) else ApplyLoggedIn(w, kdf, c, env)
  }

  /** The calls that need a session. */
  function ApplyLoggedIn(w: World, kdf: Kdf, c: Call, env: Env): (World, bool)
    requires !c.SignUpCall? && !c.LogInCall? && c.name in w.sessions
  {
    hide *;
    var a := w.sessions[c.name];
    match c
    case LogOutCall(name) => (w.(sessions := w.sessions - {name}), true)
    case SwitchCall(name, oldPassword, newPassword, i) =>
      var (s, file, ok) := SwitchPassword(w.server, KeyFileOf(w, name), kdf, name, oldPassword, newPassword, i, env);
      (WithKeyFile(w.(server := s), name, file), ok)
    case UploadCall(name, filename, content, i) =>
      var (s, docId) := UploadFile(w.server, a, filename, content, i, env);
      (w.(server := s), docId.Some?)
    case ShareCall(name, docIdHex, recipient, i) =>
      var (s, trust, ok) := ShareWith(w.server, TrustOf(w, name), a, docIdHex, recipient, i, env);
      (w.(server := s, trust := w.trust[name := trust]), ok)
    case DownloadCall(name, docIdHex, i) =>
      var (s, trust, got) := DownloadFile(w.server, TrustOf(w, name), a, docIdHex, i, env);
      (w.(server := s, trust := w.trust[name := trust]), got.Some?)
    case VerifyContactCall(name, contact) =>
      (match TrustStore.Verify(TrustOf(w, name), contact)
       case Ok(m) => (w.(trust := w.trust[name := m]), true)
       case Err(_) => (w, false))
    case _ => (w, false)
  }

  /** What the users know after a call that completed, or an upload whose document was stored. */
  function Learn(t: Truth, w: World, w': World, c: Call): Truth {
    hide *;
    match c
    case SignUpCall(name, password, i) => t.(users := t.users[name := Secret(password, i.sigPriv, i.dhPriv)])
    case SwitchCall(name, _, newPassword, _) =>
      if name in t.users then t.(users := t.users[name := t.users[name].(password := newPassword)]) else t
    case UploadCall(name, _, content, i) =>
      if name in w.sessions
      then Recorded(t, w.server.db, w'.server.db, w.sessions[name], content, i.document) else t
    case _ => t
  }

  /** Inputs drawn as the client draws them. */
  predicate Drawn(c: Call) {
    hide *;
    match c
    case SignUpCall(_, _, i) => SignupInputsOk(i)
    case UploadCall(_, _, _, i) => UploadInputsOk(i)
    case ShareCall(_, _, _, i) => ShareInputsOk(i.share)
    case _ => true
  }

  /** Sign-ups and password changes complete, and users give their own current password. Logins,
      uploads, shares and downloads may fail. */
  predicate Honest(w: World, t: Truth, kdf: Kdf, c: Call, env: Env) {
    hide *;
    && Drawn(c)
    && (c.SignUpCall? || c.SwitchCall? ==> Apply(w, kdf, c, env).1)
    && (c.LogInCall? ==> c.name in t.users && c.password == t.users[c.name].password)
    && (c.SwitchCall? ==> c.name in t.users && c.oldPassword == t.users[c.name].password)
  }

  datatype Stage = Stage(world: World, truth: Truth)

  const START: Stage :=
    Stage(World(State(EMPTY, Session.Contents({}, map[])), map[], map[], map[]), Truth(map[], map[]))

  function After(kdf: Kdf, calls: seq<(Call, Env)>): Stage {
    hide *;
    if calls == [] then START
    else
      var before, (c, env) := After(kdf, calls[..|calls| - 1]), calls[|calls| - 1];
      var w := Apply(before.world, kdf, c, env).0;
      Stage(w, Learn(before.truth, before.world, w, c))
  }

  predicate HonestRun(kdf: Kdf, calls: seq<(Call, Env)>) {
    hide *;
    if calls == [] then true
    else
      HonestRun(kdf, calls[..|calls| - 1])
      && var before := After(kdf, calls[..|calls| - 1]);
         Honest(before.world, before.truth, kdf, calls[|calls| - 1].0, calls[|calls| - 1].1)
  }

  // ---- Each call keeps the invariant ---------------------------------------------------------

  ghost predicate Keeps(w: World, t: Truth, kdf: Kdf, c: Call, env: Env) {
    hide *;
    var w' := Apply(w, kdf, c, env).0;
    Sound(w', Learn(t, w, w', c), kdf) && Extends(w.server.db, t, w'.server.db, Learn(t, w, w', c))
  }

  ghost predicate SessionKept(w: World, w': World, t': Truth, u: Str)
    requires u in w'.sessions
  {
    (u in w.sessions && w'.sessions[u] == w.sessions[u])
    || (w'.sessions[u].username == u && SessionGood(w'.server.db, t', w'.sessions[u]))
  }

  ghost predicate KeyFileKept(w: World, t: Truth, w': World, t': Truth, kdf: Kdf, u: Str)
    requires u in t'.users
  {
    hide *;
    u in w'.keyFiles
    && ((u in t.users && u in w.server.db.users && u in w'.server.db.users && u in w.keyFiles
         && w'.server.db.users[u] == w.server.db.users[u] && t'.users[u] == t.users[u]
         && w'.keyFiles[u] == w.keyFiles[u])
        || KeyFileGood(w'.server.db, t', kdf, u, w'.keyFiles[u]))
  }

  ghost predicate TrustKept(w: World, w': World, u: Str)
    requires u in w'.trust
  {
    (u in w.trust && w'.trust[u] == w.trust[u]) || TrustGood(w'.server.db, w'.trust[u])
  }

  /** The invariant stays when the tables extend and each client's part is kept or made good. */
  lemma SoundKept(w: World, t: Truth, w': World, t': Truth, kdf: Kdf)
    requires Sound(w, t, kdf) && TablesGood(w'.server.db, t') && Extends(w.server.db, t, w'.server.db, t')
    requires forall u <- w'.sessions :: SessionKept(w, w', t', u)
    requires forall u <- t'.users :: KeyFileKept(w, t, w', t', kdf, u)
    requires forall u <- w'.trust :: TrustKept(w, w', u)
    ensures Sound(w', t', kdf)
  {
    hide TablesGood, SessionGood, KeyFileGood, TrustGood, Extends;
    var db, db' := w.server.db, w'.server.db;
    forall u | u in w'.sessions ensures w'.sessions[u].username == u && SessionGood(db', t', w'.sessions[u]) {
      assert SessionKept(w, w', t', u);
      if u in w.sessions && w'.sessions[u] == w.sessions[u] {
        SessionGoodExtends(db, t, db', t', w.sessions[u]);
      }
    }
    forall u | u in t'.users ensures u in w'.keyFiles && KeyFileGood(db', t', kdf, u, w'.keyFiles[u]) {
      assert KeyFileKept(w, t, w', t', kdf, u);
      if !KeyFileGood(db', t', kdf, u, w'.keyFiles[u]) {
        KeyFileSame(db, t, db', t', kdf, u, w.keyFiles[u]);
      }
    }
    forall u | u in w'.trust ensures TrustGood(db', w'.trust[u]) {
      assert TrustKept(w, w', u);
      if u in w.trust && w'.trust[u] == w.trust[u] {
        TrustGoodExtends(db, t, db', t', w.trust[u]);
      }
    }
  }

  lemma SoundParts(w: World, t: Truth, kdf: Kdf, u: Str)
    requires Sound(w, t, kdf)
    ensures TablesGood(w.server.db, t)
    ensures u in w.sessions ==> w.sessions[u].username == u && SessionGood(w.server.db, t, w.sessions[u])
    ensures u in t.users ==>
              u in w.keyFiles && u in w.server.db.users && KeyFileGood(w.server.db, t, kdf, u, w.keyFiles[u])
    ensures u in w.server.db.users ==> u in t.users
    ensures TrustGood(w.server.db, TrustOf(w, u))
  {
    hide TablesGood, SessionGood, KeyFileGood;
    UserKnown(w.server.db, t, u);
  }

  /** Nobody else's key file is touched. */
  lemma OtherFilesKept(w: World, t: Truth, w': World, t': Truth, kdf: Kdf, name: Str)
    requires Sound(w, t, kdf)
    requires forall u <- t'.users :: u == name || (u in t.users && t'.users[u] == t.users[u])
    requires forall u <- w.keyFiles :: u == name || (u in w'.keyFiles && w'.keyFiles[u] == w.keyFiles[u])
    requires forall u <- w.server.db.users ::
               u == name || (u in w'.server.db.users && w'.server.db.users[u] == w.server.db.users[u])
    requires name in t'.users ==> KeyFileKept(w, t, w', t', kdf, name)
    ensures forall u <- t'.users :: KeyFileKept(w, t, w', t', kdf, u)
  {
    hide Sound, KeyFileGood, TablesGood, SessionGood, TrustGood, Handle;
    forall u | u in t'.users ensures KeyFileKept(w, t, w', t', kdf, u) {
      if u != name {
        SoundParts(w, t, kdf, u);
      }
    }
  }

  /** A call that touches no account and no key file. */
  lemma FilesKept(w: World, t: Truth, w': World, t': Truth, kdf: Kdf, name: Str)
    requires Sound(w, t, kdf) && t'.users == t.users && w'.keyFiles == w.keyFiles
    requires w'.server.db.users == w.server.db.users
    ensures forall u <- t'.users :: KeyFileKept(w, t, w', t', kdf, u)
  {
    hide Sound, KeyFileGood, TablesGood, SessionGood, TrustGood, Handle;
    SoundParts(w, t, kdf, name);
    OtherFilesKept(w, t, w', t', kdf, name);
  }

  lemma SignUpSound(w: World, t: Truth, kdf: Kdf, c: Call, env: Env)
    requires Sound(w, t, kdf) && c.SignUpCall? && SignupInputsOk(c.signup) && Apply(w, kdf, c, env).1
    ensures Keeps(w, t, kdf, c, env)
  {
    hide Sound, TablesGood, Extends, KeyFileGood, SessionGood, TrustGood, SignUp, SignupInputsOk, LogIn,
         SwitchPassword, UploadFile, ShareWith, DownloadFile, Handle;
    var w', name := Apply(w, kdf, c, env).0, c.name;
    var t' := Learn(t, w, w', c);
    SoundParts(w, t, kdf, name);
    SignUpTables(w.server, t, KeyFileOf(w, name), kdf, name, c.password, c.signup, env);
    OtherFilesKept(w, t, w', t', kdf, name);
    SoundKept(w, t, w', t', kdf);
  }

  lemma SwitchSound(w: World, t: Truth, kdf: Kdf, c: Call, env: Env)
    requires Sound(w, t, kdf) && c.SwitchCall? && c.name in t.users && c.oldPassword == t.users[c.name].password
    requires Apply(w, kdf, c, env).1
    ensures Keeps(w, t, kdf, c, env)
  {
    hide Sound, TablesGood, Extends, KeyFileGood, SessionGood, TrustGood, SwitchPassword, SignUp, LogIn, UploadFile,
         ShareWith, DownloadFile, Handle;
    var w', name := Apply(w, kdf, c, env).0, c.name;
    var t' := Learn(t, w, w', c);
    SoundParts(w, t, kdf, name);
    SwitchTables(w.server, t, kdf, name, c.oldPassword, c.newPassword, w.keyFiles[name], c.change, env);
    OtherFilesKept(w, t, w', t', kdf, name);
    SoundKept(w, t, w', t', kdf);
  }

  /** What a login with the right password opens is the user's own identity. */
  lemma OpenedAccount(db: Tables, t: Truth, kdf: Kdf, name: Str, file: seq<Byte>)
    requires TablesGood(db, t) && name in db.users && name in t.users && KeyFileGood(db, t, kdf, name, file)
    ensures var keys := Derive(kdf, t.users[name].password, db.users[name].salt, db.users[name].argon2);
      keys.Some? && Ecdh.PublicKey(keys.value.authScalar) == Some(db.users[name].authPub)
      && OpenAccount(Some(file), name, keys.value.kek).Some?
      && OpenAccount(Some(file), name, keys.value.kek).value.username == name
      && SessionGood(db, t, OpenAccount(Some(file), name, keys.value.kek).value)
  {
    hide TablesGood, Derive, Keystore.Opened, Ecdh.PublicKey, Encode;
    UserKnown(db, t, name);
  }

  lemma LogInSound(w: World, t: Truth, kdf: Kdf, c: Call, env: Env)
    requires Sound(w, t, kdf) && c.LogInCall? && c.name in t.users && c.password == t.users[c.name].password
    ensures Keeps(w, t, kdf, c, env)
  {
    hide Sound, TablesGood, Extends, KeyFileGood, SessionGood, TrustGood, Derive, OpenAccount, Handle, SignBytes,
         LoginSalt, LoginVerifies, Encode, SignUp, LogIn, SwitchPassword, UploadFile, ShareWith, DownloadFile;
    var w', name := Apply(w, kdf, c, env).0, c.name;
    SoundParts(w, t, kdf, name);
    ExtendsReflexive(w.server.db, t);
    OpenedAccount(w.server.db, t, kdf, name, w.keyFiles[name]);
    LogInKeepsDb(w.server, KeyFileOf(w, name), kdf, name, c.password, c.k, env, c.env');
    FilesKept(w, t, w', t, kdf, c.name);
    SoundKept(w, t, w', t, kdf);
  }

  /** A login changes no table, and uses the salt and parameters of the record. */
  lemma LogInKeepsDb(s: State, file: Option<seq<Byte>>, kdf: Kdf, name: Str, password: Str, k: int, env: Env, env': Env)
    ensures var (s', a) := LogIn(s, file, kdf, name, password, k, env, env');
      && s'.db == s.db
      && (a.Some? && name in s.db.users ==>
            Derive(kdf, password, s.db.users[name].salt, s.db.users[name].argon2).Some?
            && a == OpenAccount(file, name,
                                Derive(kdf, password, s.db.users[name].salt, s.db.users[name].argon2).value.kek))
  {
    hide Derive, OpenAccount, Handle, RequestFits, ReplyFits, SignBytes, LoginVerifies, Encode, Session.Issue,
         Session.Consume, Hmac.HmacSha256;
    ChallengeEffect(s, name, env);
    var (s1, reply) := RoundTrip(s, LoginChallenge(name), env);
    if reply.ChallengeReply? && Derive(kdf, password, reply.salt, reply.argon2).Some? {
      var keys := Derive(kdf, password, reply.salt, reply.argon2).value;
      var sig := SignBytes(keys.authScalar, reply.challenge, k);
      if sig.Some? {
        LoginEffect(s1, name, Some(sig.value), env');
      }
    }
  }

  lemma UploadSound(w: World, t: Truth, kdf: Kdf, c: Call, env: Env)
    requires P256.StandardFacts() && Sound(w, t, kdf) && c.UploadCall? && UploadInputsOk(c.upload)
    requires c.name in w.sessions
    ensures Keeps(w, t, kdf, c, env)
  {
    hide P256.StandardFacts, Sound, TablesGood, Extends, KeyFileGood, SessionGood, TrustGood, UploadFile,
         UploadInputsOk, SignUp, LogIn, SwitchPassword, ShareWith, DownloadFile, Handle;
    var w', a := Apply(w, kdf, c, env).0, w.sessions[c.name];
    var t' := Learn(t, w, w', c);
    SoundParts(w, t, kdf, c.name);
    UploadKeeps(w.server, t, a, c.filename, c.content, c.upload, env);
    FilesKept(w, t, w', t', kdf, c.name);
    SoundKept(w, t, w', t', kdf);
  }

  lemma ShareSound(w: World, t: Truth, kdf: Kdf, c: Call, env: Env)
    requires P256.StandardFacts() && Sound(w, t, kdf) && c.ShareCall? && ShareInputsOk(c.reshare.share)
    requires c.name in w.sessions
    ensures Keeps(w, t, kdf, c, env)
  {
    hide P256.StandardFacts, Sound, TablesGood, Extends, KeyFileGood, SessionGood, TrustGood, ShareWith,
         ShareInputsOk, SignUp, LogIn, SwitchPassword, UploadFile, DownloadFile, Handle;
    var w', a := Apply(w, kdf, c, env).0, w.sessions[c.name];
    SoundParts(w, t, kdf, c.name);
    ShareKeeps(w.server, t, a, TrustOf(w, c.name), c.docIdHex, c.recipient, c.reshare, env);
    FilesKept(w, t, w', t, kdf, c.name);
    SoundKept(w, t, w', t, kdf);
  }

  lemma DownloadSound(w: World, t: Truth, kdf: Kdf, c: Call, env: Env)
    requires Sound(w, t, kdf) && c.DownloadCall? && c.name in w.sessions
    ensures Keeps(w, t, kdf, c, env)
  {
    hide Sound, TablesGood, Extends, KeyFileGood, SessionGood, TrustGood, DownloadFile, SignUp, LogIn, SwitchPassword,
         UploadFile, ShareWith, Handle;
    var w', a := Apply(w, kdf, c, env).0, w.sessions[c.name];
    SoundParts(w, t, kdf, c.name);
    ExtendsReflexive(w.server.db, t);
    DownloadKeeps(w.server, t, a, TrustOf(w, c.name), c.docIdHex, c.download, env);
    FilesKept(w, t, w', t, kdf, c.name);
    SoundKept(w, t, w', t, kdf);
  }

  /** A download changes no table and trusts only the server's keys, whatever its inputs. */
  lemma DownloadKeeps(s: State, t: Truth, a: Account, trust: TrustStore.Entries, docIdHex: Str, i: DownloadInputs,
                      env: Env)
    requires TablesGood(s.db, t) && SessionGood(s.db, t, a) && TrustGood(s.db, trust)
    ensures var (s', trust', _) := DownloadFile(s, trust, a, docIdHex, i, env);
      s'.db == s.db && TrustGood(s'.db, trust')
  {
    hide TablesGood, SessionGood, TrustGood, ContactKeys, FetchDoc, OpenParcel, OpenPayload, ContentSigned;
    FetchGood(s, a, docIdHex, i.fetch, env);
    var (s1, copy) := FetchDoc(s, a, docIdHex, i.fetch, env);
    if copy.Some? && OpenParcel(a, copy.value).Some? {
      var p := OpenParcel(a, copy.value).value;
      ContactKeysGood(s1, t, a, trust, p.share.sender, i.senderConsent, env);
      var trust1 := ContactKeys(s1, a, trust, p.share.sender, i.senderConsent, env).0;
      ContactKeysGood(s1, t, a, trust1, p.document.header.owner, i.ownerConsent, env);
    }
  }

  lemma LocalSound(w: World, t: Truth, kdf: Kdf, c: Call, env: Env)
    requires Sound(w, t, kdf) && (c.LogOutCall? || c.VerifyContactCall?) && c.name in w.sessions
    ensures Keeps(w, t, kdf, c, env)
  {
    hide Sound, TablesGood, Extends, KeyFileGood, SessionGood, TrustGood, SignUp, LogIn, SwitchPassword, UploadFile,
         ShareWith, DownloadFile, Handle;
    var w' := Apply(w, kdf, c, env).0;
    SoundParts(w, t, kdf, c.name);
    ExtendsReflexive(w.server.db, t);
    if c.VerifyContactCall? {
      VerifyKeeps(w.server.db, TrustOf(w, c.name), c.contact);
    }
    FilesKept(w, t, w', t, kdf, c.name);
    SoundKept(w, t, w', t, kdf);
  }

  lemma VerifyKeeps(db: Tables, m: TrustStore.Entries, contact: Str)
    requires TrustGood(db, m)
    ensures TrustStore.Verify(m, contact).Ok? ==> TrustGood(db, TrustStore.Verify(m, contact).value)
  {
    hide TrustStore.Fingerprint;
    if contact in m {
      assert EntryGood(db, contact, m[contact]);
    }
  }

  lemma NothingDone(w: World, t: Truth, kdf: Kdf, c: Call, env: Env)
    requires Sound(w, t, kdf) && Apply(w, kdf, c, env).0 == w && Learn(t, w, w, c) == t
    ensures Keeps(w, t, kdf, c, env)
  {
    hide Sound, Extends, Apply, Learn;
    ExtendsReflexive(w.server.db, t);
  }

  lemma CallSound(w: World, t: Truth, kdf: Kdf, c: Call, env: Env)
    requires P256.StandardFacts() && Sound(w, t, kdf) && Honest(w, t, kdf, c, env)
    ensures Keeps(w, t, kdf, c, env)
  {
    hide P256.StandardFacts, Sound, SignupInputsOk, UploadInputsOk, ShareInputsOk, ApplyLoggedIn, SignUp, LogIn,
         Keeps, Recorded;
    if c.name !in w.sessions && !c.SignUpCall? && !c.LogInCall? && !c.SwitchCall? {
      NothingDone(w, t, kdf, c, env);
    }
    match c
    case SignUpCall(_, _, _) => SignUpSound(w, t, kdf, c, env);
    case LogInCall(_, _, _, _) => LogInSound(w, t, kdf, c, env);
    case SwitchCall(_, _, _, _) => SwitchSound(w, t, kdf, c, env);
    case UploadCall(_, _, _, _) => if c.name in w.sessions { UploadSound(w, t, kdf, c, env); }
    case ShareCall(_, _, _, _) => if c.name in w.sessions { ShareSound(w, t, kdf, c, env); }
    case DownloadCall(_, _, _) => if c.name in w.sessions { DownloadSound(w, t, kdf, c, env); }
    case _ => if c.name in w.sessions { LocalSound(w, t, kdf, c, env); }
  }

  // ---- The theorems ----------------------------------------------------------------------------

  /** After every honest run, every stored share and document, every key file, session and trust
      store is right. */
  lemma {:induction false} RunSound(kdf: Kdf, calls: seq<(Call, Env)>)
    requires P256.StandardFacts() && HonestRun(kdf, calls)
    ensures Sound(After(kdf, calls).world, After(kdf, calls).truth, kdf)
  {
    hide P256.StandardFacts, Sound, Apply, Learn, Honest, Extends;
    if calls == [] {
      StartSound(kdf);
    } else {
      var before := After(kdf, calls[..|calls| - 1]);
      RunSound(kdf, calls[..|calls| - 1]);
      CallSound(before.world, before.truth, kdf, calls[|calls| - 1].0, calls[|calls| - 1].1);
    }
  }

  lemma StartSound(kdf: Kdf)
    ensures Sound(START.world, START.truth, kdf)
  {
  }

  lemma PrefixHonest(kdf: Kdf, calls: seq<(Call, Env)>, m: nat)
    requires HonestRun(kdf, calls) && m <= |calls|
    ensures HonestRun(kdf, calls[..m])
    decreases |calls|
  {
    hide Honest, After;
    if m == |calls| {
      assert calls[..m] == calls;
    } else {
      assert calls[..|calls| - 1][..m] == calls[..m];
      PrefixHonest(kdf, calls[..|calls| - 1], m);
    }
  }

  /** Keys, documents and what was chosen at upload never change along an honest run. */
  lemma {:induction false} RunExtends(kdf: Kdf, calls: seq<(Call, Env)>, m: nat)
    requires P256.StandardFacts() && HonestRun(kdf, calls) && m <= |calls|
    ensures var a, b := After(kdf, calls[..m]), After(kdf, calls);
      Extends(a.world.server.db, a.truth, b.world.server.db, b.truth)
    decreases |calls|
  {
    hide P256.StandardFacts, Sound, Apply, Learn, Honest, Extends;
    var a, b := After(kdf, calls[..m]), After(kdf, calls);
    if m == |calls| {
      assert calls[..m] == calls;
      ExtendsReflexive(a.world.server.db, a.truth);
    } else {
      var calls' := calls[..|calls| - 1];
      var c := After(kdf, calls');
      assert calls'[..m] == calls[..m];
      RunExtends(kdf, calls', m);
      RunSound(kdf, calls');
      CallSound(c.world, c.truth, kdf, calls[|calls| - 1].0, calls[|calls| - 1].1);
      ExtendsTransitive(a.world.server.db, a.truth, c.world.server.db, c.truth, b.world.server.db, b.truth);
    }
  }

  /** Every stored share unwraps, under its recipient's own scalar, to the file key that was
      chosen when the document was uploaded: along chains of any length, after replacement, and
      across password changes. */
  lemma EveryShareOpens(kdf: Kdf, calls: seq<(Call, Env)>, k: ShareKey)
    requires P256.StandardFacts() && HonestRun(kdf, calls)
    requires k in After(kdf, calls).world.server.db.shares
    ensures var n := After(kdf, calls); var share := UnpackShare(n.world.server.db.shares[k].blob);
      share.Some? && k.recipient in n.truth.users && k.docId in n.truth.files
      && UnwrapFk(n.truth.users[k.recipient].dhPriv, share.value) == Some(n.truth.files[k.docId].fk)
  {
    hide P256.StandardFacts, After, UnpackShare, UnwrapFk, UserGood, DocumentGood, UnpackDocument, ShareSigned,
         ClientsGood, HonestRun;
    RunSound(kdf, calls);
    var n := After(kdf, calls);
    assert ShareGood(n.world.server.db, n.truth, k, n.world.server.db.shares[k]);
  }

  /** A completed upload stored a document nobody had, and the truth records its key and bytes. */
  lemma UploadRecords(w: World, t: Truth, kdf: Kdf, c: Call, env: Env)
    requires c.UploadCall? && Apply(w, kdf, c, env).1
    requires c.name in w.sessions ==> w.sessions[c.name].username == c.name
    ensures var w' := Apply(w, kdf, c, env).0; var docId := c.upload.document.docId;
      docId in Learn(t, w, w', c).files
      && Learn(t, w, w', c).files[docId] == File(c.name, c.upload.document.fk, c.content)
  {
    hide UploadFile, SignUp, LogIn, SwitchPassword, ShareWith, DownloadFile;
    UploadIsNew(w.server, w.sessions[c.name], c.filename, c.content, c.upload, env);
  }

  /** The first request of an upload: an accepted one stores a document under a new identifier. */
  lemma StoredIsNew(s: State, a: Account, filename: Str, content: seq<Byte>, i: DocumentInputs, d: ParsedDocument,
                    r: Request, env: Env)
    requires MakeDocument(a, filename, content, i) == Some(d)
    requires r.Upload? && r.owner == a.username && DocumentBlob(d) == Some(r.document)
    requires RoundTrip(s, r, env).1.Uploaded?
    ensures RoundTrip(s, r, env).1.docId == i.docId
    ensures i.docId in RoundTrip(s, r, env).0.db.documents && i.docId !in s.db.documents
  {
    hide MakeDocument, DocumentBlob, Handle, RequestFits, UploadRow, Admissible;
    UploadEffect(s, r, env);
    OkTrip(s, r, env);
    MadeUploadRow(a, filename, content, i, d, r);
  }

  lemma UploadIsNew(s: State, a: Account, filename: Str, content: seq<Byte>, i: UploadInputs, env: Env)
    requires UploadFile(s, a, filename, content, i, env).1.Some?
    ensures i.document.docId in UploadFile(s, a, filename, content, i, env).0.db.documents
    ensures i.document.docId !in s.db.documents
  {
    hide MakeDocument, DocumentBlob, SignString, RoundTrip, SendShare, ToHex, Sha256.Digest, Session.PayloadUpload;
    var d := MakeDocument(a, filename, content, i.document).value;
    var sig := SignString(a.sigPriv, Session.PayloadUpload(a.username, i.request.nonce), i.request.k).value;
    var r := Request.Upload(a.username, i.request.nonce, sig, DocumentBlob(d).value);
    StoredIsNew(s, a, filename, content, i.document, d, r, env);
    var s1 := RoundTrip(s, r, env).0;
    SendShareKeepsDocuments(s1, a, ToHex(i.document.docId), i.document.docId, 1, Sha256.Digest(d.ciphertext),
                            a.username, a.dhPub, i.document.fk, i.share, i.shareRequest, env);
  }

  lemma SendShareKeepsDocuments(s: State, a: Account, docIdHex: Str, docId: seq<Byte>, version: int, docHash: seq<Byte>,
                                recipient: Str, dhPub: seq<Byte>, fk: seq<Byte>, i: ShareInputs, q: RequestInputs,
                                env: Env)
    ensures SendShare(s, a, docIdHex, docId, version, docHash, recipient, dhPub, fk, i, q, env).0.db.documents
         == s.db.documents
  {
    hide MakeShare, SignString, Handle, RequestFits, Admissible, NewShareRow, Session.PayloadShare;
    var blob := MakeShare(a, docId, version, docHash, recipient, dhPub, fk, i);
    var sig := SignString(a.sigPriv, Session.PayloadShare(a.username, docIdHex, recipient, q.nonce), q.k);
    if blob.Some? && sig.Some? {
      ShareEffect(s, ShareDoc(a.username, recipient, docIdHex, q.nonce, sig.value, blob.value), env);
      OkTrip(s, ShareDoc(a.username, recipient, docIdHex, q.nonce, sig.value, blob.value), env);
    }
  }

  /** The reader can fetch the document of the identifier, trusts its sender and its owner, and can write
      to the given path. */
  predicate Reaches(n: Stage, reader: Str, docIdHex: Str, i: DownloadInputs) {
    hide *;
    && reader in n.world.sessions
    && CanFetch(n.world.server, n.world.sessions[reader], docIdHex, i.fetch)
    && Trusts(n.world.server.db, n.truth, n.world.sessions[reader], TrustOf(n.world, reader), docIdHex, i)
    && i.writable
  }

  function DownloadBy(n: Stage, reader: Str, docIdHex: Str, i: DownloadInputs, env: Env): Option<Delivered> {
    hide *;
    if reader !in n.world.sessions then None
    else DownloadFile(n.world.server, TrustOf(n.world, reader), n.world.sessions[reader], docIdHex, i, env).2
  }

  /** At any point of an honest run, a download completes exactly when the reader reaches the
      document, and then it delivers what the truth records for it. */
  lemma EveryDownload(kdf: Kdf, calls: seq<(Call, Env)>, reader: Str, docIdHex: Str, i: DownloadInputs, env: Env)
    requires P256.StandardFacts() && HonestRun(kdf, calls) && Ecdsa.InRange(i.fetch.k)
    ensures var n := After(kdf, calls); var got := DownloadBy(n, reader, docIdHex, i, env);
      && (got.Some? <==> Reaches(n, reader, docIdHex, i))
      && (got.Some? ==> FromHex(docIdHex).Some? && FromHex(docIdHex).value in n.truth.files
                        && got.value == Original(n.truth, FromHex(docIdHex).value))
  {
    hide P256.StandardFacts, After, DownloadFile, CanFetch, Trusts, FromHex, Ecdsa.InRange, TablesGood, SessionGood,
         TrustGood, KeyFileGood, Sound, HonestRun;
    RunSound(kdf, calls);
    var n := After(kdf, calls);
    SoundParts(n.world, n.truth, kdf, reader);
    if reader in n.world.sessions {
      DownloadCorrect(n.world.server, n.truth, n.world.sessions[reader], TrustOf(n.world, reader), docIdHex, i, env);
    }
  }

  /** Call u is an upload that completed. */
  predicate UploadedAt(kdf: Kdf, calls: seq<(Call, Env)>, u: nat) {
    hide *;
    u < |calls| && calls[u].0.UploadCall? && Apply(After(kdf, calls[..u]).world, kdf, calls[u].0, calls[u].1).1
  }

  lemma AfterNext(kdf: Kdf, calls: seq<(Call, Env)>, u: nat)
    requires u < |calls|
    ensures var before, w := After(kdf, calls[..u]), Apply(After(kdf, calls[..u]).world, kdf, calls[u].0, calls[u].1).0;
      After(kdf, calls[..u + 1]) == Stage(w, Learn(before.truth, before.world, w, calls[u].0))
  {
    hide Apply, Learn;
    assert calls[..u + 1][..u] == calls[..u];
  }

  lemma FileStays(db: Tables, t: Truth, db': Tables, t': Truth, docId: seq<Byte>)
    requires Extends(db, t, db', t') && docId in t.files
    ensures docId in t'.files && t'.files[docId] == t.files[docId]
  {
  }

  /** The truth keeps what the upload chose. */
  lemma UploadRemembered(kdf: Kdf, calls: seq<(Call, Env)>, u: nat)
    requires P256.StandardFacts() && HonestRun(kdf, calls) && UploadedAt(kdf, calls, u)
    ensures var c, files := calls[u].0, After(kdf, calls).truth.files;
      c.upload.document.docId in files
      && files[c.upload.document.docId] == File(c.name, c.upload.document.fk, c.content)
  {
    hide P256.StandardFacts, Sound, Apply, Learn, Honest, HonestRun, After, TablesGood, SessionGood, KeyFileGood,
         TrustGood, Extends, UserGood;
    var (c, env) := calls[u];
    var before, next, last := After(kdf, calls[..u]), After(kdf, calls[..u + 1]), After(kdf, calls);
    PrefixHonest(kdf, calls, u);
    RunSound(kdf, calls[..u]);
    SoundParts(before.world, before.truth, kdf, c.name);
    UploadRecords(before.world, before.truth, kdf, c, env);
    AfterNext(kdf, calls, u);
    RunExtends(kdf, calls, u + 1);
    FileStays(next.world.server.db, next.truth, last.world.server.db, last.truth, c.upload.document.docId);
  }

  /** Whatever happens between an upload that completed and a download of that document that
      completes, the reader gets the uploaded bytes and the name of the uploader. */
  lemma UploadedIsDownloaded(kdf: Kdf, calls: seq<(Call, Env)>, u: nat, reader: Str, docIdHex: Str,
                             i: DownloadInputs, env: Env)
    requires P256.StandardFacts() && HonestRun(kdf, calls) && Ecdsa.InRange(i.fetch.k) && UploadedAt(kdf, calls, u)
    requires FromHex(docIdHex) == Some(calls[u].0.upload.document.docId)
    ensures var got := DownloadBy(After(kdf, calls), reader, docIdHex, i, env);
      got.Some? ==> got.value == Delivered(calls[u].0.content, calls[u].0.name)
  {
    hide P256.StandardFacts, After, FromHex, Ecdsa.InRange, DownloadBy, Reaches, HonestRun, Apply;
    UploadRemembered(kdf, calls, u);
    EveryDownload(kdf, calls, reader, docIdHex, i, env);
  }

  /** Every stored share of an uploaded document gives its recipient that upload's file key. */
  lemma SharesCarryUploadKey(kdf: Kdf, calls: seq<(Call, Env)>, u: nat, k: ShareKey)
    requires P256.StandardFacts() && HonestRun(kdf, calls) && UploadedAt(kdf, calls, u)
    requires k in After(kdf, calls).world.server.db.shares && k.docId == calls[u].0.upload.document.docId
    ensures var n := After(kdf, calls); var share := UnpackShare(n.world.server.db.shares[k].blob);
      share.Some? && k.recipient in n.truth.users
      && UnwrapFk(n.truth.users[k.recipient].dhPriv, share.value) == Some(calls[u].0.upload.document.fk)
  {
    hide P256.StandardFacts, After, HonestRun, UnpackShare, UnwrapFk, Apply;
    UploadRemembered(kdf, calls, u);
    EveryShareOpens(kdf, calls, k);
  }
}
