/** client/client.py: the operations of a client, first as functions of the server's state, the
    files and the inputs, then as the class that performs them against a server. Random values,
    the clock, the passwords and the user's answers to trust prompts are inputs. */
module Client {
  import opened Bits
  import opened Wrappers
  import opened Utf8
  import opened Formats
  import opened Database
  import opened Server
  import opened Envelopes
  import opened Messages
  import Ecdh
  import Exchanges
  import Gcm
  import Hmac
  import Keystore
  import ModArith
  import P256
  import Session
  import Sha256
  import TrustStore

  /** Argon2id: password, salt and parameters to the 32-byte master key. */
  type Kdf = (seq<Byte>, seq<Byte>, Argon2) -> seq<Byte>

  const ARGON2: Argon2 := Argon2(2, 128 * 1024, 1)

  /** The nonce of a signed request, and the nonce its signature uses. */
  datatype RequestInputs = RequestInputs(nonce: Str, k: int)

  // ---- Keys from a password -------------------------------------------------------------

  datatype Derived = Derived(authScalar: int, kek: seq<Byte>)

  /** `_derive_auth_scalar`: always in [1, N-1]. */
  function AuthScalar(authKey: seq<Byte>): (d: int)
    ensures P256.IsValidPrivateKey(d)
  {
    FromBE(authKey) % (P256.N - 1) + 1
  }

  /** `_derive_master` and `derive_both`; None for a password that does not encode. */
  function Derive(kdf: Kdf, password: Str, salt: seq<Byte>, a: Argon2): (r: Option<Derived>)
    ensures r.Some? ==> P256.IsValidPrivateKey(r.value.authScalar) && |r.value.kek| == 32
  {
    var bytes :- Encode(password);
    var master := kdf(bytes, salt, a);
    Some(Derived(AuthScalar(Hmac.DeriveAuthKey(master)), Hmac.DeriveKek(master)))
  }

  /** The two keys drawn from a master key: the text "auth" gives the login scalar, by the remainder modulo
      N - 1 and one more, and the text "kek" gives the key of the key file. */
  ghost predicate DrawnFrom(d: Derived, master: seq<Byte>) {
    hide Hmac.HmacSha256, FromBE, ModArith.Cong;
    && d.kek == Hmac.HmacSha256(master, AsciiBytes("kek"))
    && 1 <= d.authScalar <= P256.N - 1
    && ModArith.Cong(P256.N - 1, d.authScalar, FromBE(Hmac.HmacSha256(master, AsciiBytes("auth"))) + 1)
  }

  lemma DerivedFrom(kdf: Kdf, password: Str, salt: seq<Byte>, a: Argon2, bytes: seq<Byte>)
    requires Encode(password) == Some(bytes)
    ensures Derive(kdf, password, salt, a).Some? && DrawnFrom(Derive(kdf, password, salt, a).value, kdf(bytes, salt, a))
  {
    hide Encode, Hmac.HmacSha256, FromBE, ModArith.Cong;
    var master := kdf(bytes, salt, a);
    Hmac.DerivedKeys(master, AsciiBytes("auth"), AsciiBytes("kek"));
    AuthScalarRange(Hmac.DeriveAuthKey(master));
  }

  lemma AuthScalarRange(authKey: seq<Byte>)
    ensures 1 <= AuthScalar(authKey) <= P256.N - 1
    ensures ModArith.Cong(P256.N - 1, AuthScalar(authKey), FromBE(authKey) + 1)
  {
    var x := FromBE(authKey);
    ModArith.CongMod(P256.N - 1, x);
    ModArith.CongRefl(P256.N - 1, 1);
    ModArith.CongAdd(P256.N - 1, x % (P256.N - 1), x, 1, 1);
  }

  function SignString(priv: int, text: Str, k: int): Option<seq<Byte>> {
    var bytes :- Encode(text);
    SignBytes(priv, bytes, k)
  }

  // ---- Signing up, logging in, changing the password ----------------------------------------

  /** `writable`: whether the path of the key file, which holds the name, can be written. */
  datatype SignupInputs = SignupInputs(salt: seq<Byte>, sigPriv: int, dhPriv: int, nonce: Gcm.Nonce, writable: bool)

  /** The account `signup` registers. */
  function NewUser(kdf: Kdf, password: Str, i: SignupInputs): Option<User> {
    hide Derive, Ecdh.PublicKey;
    var keys :- Derive(kdf, password, i.salt, ARGON2);
    var authPub :- Ecdh.PublicKey(keys.authScalar);
    var sigPub :- Ecdh.PublicKey(i.sigPriv);
    var dhPub :- Ecdh.PublicKey(i.dhPriv);
    Some(User(i.salt, ARGON2, authPub, sigPub, dhPub))
  }

  /** The key file that `signup` writes; None where a call raises. */
  function NewKeyFile(kdf: Kdf, password: Str, i: SignupInputs): Option<seq<Byte>> {
    hide Derive, Keystore.Sealed;
    var keys :- Derive(kdf, password, i.salt, ARGON2);
    if !i.writable then None
    else
      match Keystore.Sealed(Keystore.Keys(i.sigPriv, i.dhPriv), keys.kek, i.nonce)
      case Ok(b) => Some(b)
      case Err(_) => None
  }

  /** `signup`: the key file is written before the server is asked, and stays if it refuses. */
  function SignUp(s: State, file: Option<seq<Byte>>, kdf: Kdf, name: Str, password: Str, i: SignupInputs, env: Env):
    (State, Option<seq<Byte>>, bool)
  {
    hide *;
    if NewUser(kdf, password, i).None? || NewKeyFile(kdf, password, i).None? then (s, file, false)
    else
      var (s', reply) := RoundTrip(s, Register(name, NewUser(kdf, password, i).value), env);
      (s', NewKeyFile(kdf, password, i), reply == Done)
  }

  /** `login`: two requests, then the key file. */
  function LogIn(s: State, file: Option<seq<Byte>>, kdf: Kdf, name: Str, password: Str, k: int, env: Env, env': Env):
    (State, Option<Account>)
  {
    hide *;
    var (s1, reply) := RoundTrip(s, LoginChallenge(name), env);
    if !reply.ChallengeReply? then (s1, None)
    else
      match Derive(kdf, password, reply.salt, reply.argon2)
      case None => (s1, None)
      case Some(keys) =>
        match SignBytes(keys.authScalar, reply.challenge, k)
        case None => (s1, None)
        case Some(sig) =>
          var (s2, reply2) := RoundTrip(s1, Login(name, Some(sig)), env');
          (s2, if reply2 == Done then OpenAccount(file, name, keys.kek) else None)
  }

  /** The identity in a key file. */
  function OpenAccount(file: Option<seq<Byte>>, name: Str, kek: seq<Byte>): Option<Account> {
    hide Keystore.Opened, Ecdh.PublicKey;
    match Keystore.Opened(file, kek)
    case Err(_) => None
    case Ok(k) =>
      var sigPub :- Ecdh.PublicKey(k.sigPriv);
      var dhPub :- Ecdh.PublicKey(k.dhPriv);
      Some(Account(name, k.sigPriv, sigPub, k.dhPriv, dhPub))
  }

  datatype ChangeInputs = ChangeInputs(newSalt: seq<Byte>, request: RequestInputs, nonce: Gcm.Nonce, writable: bool)

  /** `change_password`: the key file is rewrapped before the server is asked. */
  function SwitchPassword(s: State, file: Option<seq<Byte>>, kdf: Kdf, name: Str, oldPassword: Str, newPassword: Str,
                          i: ChangeInputs, env: Env): (State, Option<seq<Byte>>, bool)
  {
    hide *;
    var reply := RoundTrip(s, GetSalt(name), env).1;
    if !reply.SaltReply? then (s, file, false)
    else
      match (Derive(kdf, oldPassword, reply.salt, reply.argon2), Derive(kdf, newPassword, i.newSalt, ARGON2))
      case (Some(oldKeys), Some(newKeys)) =>
        if Keystore.Opened(file, oldKeys.kek).Err? then (s, file, false)
        else
          (match (Ecdh.PublicKey(newKeys.authScalar),
                  SignString(oldKeys.authScalar, Session.PayloadChangePassword(name, i.request.nonce), i.request.k))
           case (Some(newAuthPub), Some(proof)) =>
             var (file', raised) := Keystore.Rewrapped(file, oldKeys.kek, newKeys.kek, i.nonce, i.writable);
             if raised.Some? then (s, file', false)
             else
               var r := Request.ChangePassword(name, i.request.nonce, proof, i.newSalt, Some(ARGON2), newAuthPub);
               var (s', reply') := RoundTrip(s, r, env);
               (s', file', reply' == Done)
           case _ => (s, file, false))
      case _ => (s, file, false)
  }

  // ---- Sharing ----------------------------------------------------------------------------

  /** A signed SHARE request carrying a new share. */
  function SendShare(s: State, a: Account, docIdHex: Str, docId: seq<Byte>, version: int, docHash: seq<Byte>,
                     recipient: Str, dhPub: seq<Byte>, fk: seq<Byte>, i: ShareInputs, q: RequestInputs, env: Env):
    (State, bool)
  {
    hide *;
    match MakeShare(a, docId, version, docHash, recipient, dhPub, fk, i)
    case None => (s, false)
    case Some(blob) =>
      match SignString(a.sigPriv, Session.PayloadShare(a.username, docIdHex, recipient, q.nonce), q.k)
      case None => (s, false)
      case Some(sig) =>
        var (s', reply) := RoundTrip(s, ShareDoc(a.username, recipient, docIdHex, q.nonce, sig, blob), env);
        (s', reply == Done)
  }

  datatype UploadInputs = UploadInputs(document: DocumentInputs, request: RequestInputs,
                                       share: ShareInputs, shareRequest: RequestInputs)

  /** `upload`: the document, then a share to oneself; the result is the identifier in hexadecimal. */
  function UploadFile(s: State, a: Account, filename: Str, content: seq<Byte>, i: UploadInputs, env: Env):
    (State, Option<Str>)
  {
    hide *;
    match MakeDocument(a, filename, content, i.document)
    case None => (s, None)
    case Some(d) =>
      match (DocumentBlob(d), SignString(a.sigPriv, Session.PayloadUpload(a.username, i.request.nonce), i.request.k))
      case (Some(blob), Some(sig)) =>
        var (s1, reply) := RoundTrip(s, Request.Upload(a.username, i.request.nonce, sig, blob), env);
        if !reply.Uploaded? then (s1, None)
        else
          var docId := i.document.docId;
          var (s2, shared) := SendShare(s1, a, ToHex(docId), docId, 1, Sha256.Digest(d.ciphertext), a.username,
                                        a.dhPub, i.document.fk, i.share, i.shareRequest, env);
          (s2, if shared then Some(ToHex(reply.docId)) else None)
      case _ => (s, None)
  }

  datatype Copy = Copy(document: seq<Byte>, share: seq<Byte>)

  /** `_fetch_doc`. */
  function FetchDoc(s: State, a: Account, docIdHex: Str, q: RequestInputs, env: Env): (State, Option<Copy>) {
    hide *;
    match SignString(a.sigPriv, Session.PayloadDownload(a.username, docIdHex, q.nonce), q.k)
    case None => (s, None)
    case Some(sig) =>
      var (s', reply) := RoundTrip(s, GetDoc(a.username, docIdHex, q.nonce, sig), env);
      (s', if reply.DocReply? && reply.share.Some? then Some(Copy(reply.document, reply.share.value)) else None)
  }

  datatype Bundle = Bundle(sigPub: seq<Byte>, dhPub: seq<Byte>)

  /** `_get_verified_pubkey`. */
  function ContactKeys(s: State, a: Account, trust: TrustStore.Entries, name: Str, consent: bool, env: Env):
    (TrustStore.Entries, Option<Bundle>)
  {
    hide *;
    if name == a.username then (trust, Some(Bundle(a.sigPub, a.dhPub)))
    else
      match RoundTrip(s, GetUserPubkey(name), env).1
      case KeysReply(sigPub, dhPub) =>
        var (trust', ok) := TrustStore.Ask(trust, name, sigPub, dhPub, consent);
        (trust', if ok then Some(Bundle(sigPub, dhPub)) else None)
      case _ => (trust, None)
  }

  datatype ReshareInputs = ReshareInputs(consent: bool, fetch: RequestInputs, share: ShareInputs,
                                         shareRequest: RequestInputs)

  /** What `share` learns from its own copy before it wraps the key again. */
  datatype Recovered = Recovered(fk: seq<Byte>, document: ParsedDocument)

  function Recover(a: Account, copy: Copy): Option<Recovered> {
    hide UnpackDocument, UnpackShare, UnwrapFk, Sha256.Digest;
    var d :- UnpackDocument(copy.document);
    var own :- UnpackShare(copy.share);
    var fk :- UnwrapFk(a.dhPriv, own);
    if Sha256.Digest(d.ciphertext) != own.docHash then None else Some(Recovered(fk, d))
  }

  /** `share`. */
  function ShareWith(s: State, trust: TrustStore.Entries, a: Account, docIdHex: Str, recipient: Str,
                     i: ReshareInputs, env: Env): (State, TrustStore.Entries, bool)
  {
    hide *;
    var (trust', keys) := ContactKeys(s, a, trust, recipient, i.consent, env);
    if keys.None? then (s, trust', false)
    else
      var (s', copy) := FetchDoc(s, a, docIdHex, i.fetch, env);
      if copy.None? then (s', trust', false)
      else
        match (Recover(a, copy.value), FromHex(docIdHex))
        case (Some(r), Some(docId)) =>
          var (s'', ok) := SendShare(s', a, docIdHex, docId, r.document.header.version,
                                     Sha256.Digest(r.document.ciphertext), recipient, keys.value.dhPub, r.fk,
                                     i.share, i.shareRequest, env);
          (s'', trust', ok)
        case _ => (s', trust', false)
  }

  // ---- Downloading ------------------------------------------------------------------------------

  /** `writable`: whether the given path can be written. */
  datatype DownloadInputs = DownloadInputs(fetch: RequestInputs, senderConsent: bool, ownerConsent: bool,
                                           writable: bool)

  /** The bytes written to disk and the name returned. */
  datatype Delivered = Delivered(content: seq<Byte>, owner: Str)

  /** The first checks of `download`. */
  datatype Parcel = Parcel(document: ParsedDocument, share: Share)

  function OpenParcel(a: Account, copy: Copy): Option<Parcel> {
    hide UnpackDocument, UnpackShare, Sha256.Digest;
    var d :- UnpackDocument(copy.document);
    var share :- UnpackShare(copy.share);
    if Sha256.Digest(d.ciphertext) != share.docHash || share.recipient != a.username then None
    else Some(Parcel(d, share))
  }

  /** The payload, once the sender's keys are known. */
  function OpenPayload(a: Account, p: Parcel, sender: Bundle): Option<Payload> {
    hide ShareSigned, UnwrapFk, OpenDocument;
    if !ShareSigned(sender.sigPub, p.share) then None
    else
      var fk :- UnwrapFk(a.dhPriv, p.share);
      OpenDocument(fk, p.document)
  }

  /** `download`. */
  function DownloadFile(s: State, trust: TrustStore.Entries, a: Account, docIdHex: Str, i: DownloadInputs, env: Env):
    (State, TrustStore.Entries, Option<Delivered>)
  {
    hide *;
    var (s', copy) := FetchDoc(s, a, docIdHex, i.fetch, env);
    if copy.None? || OpenParcel(a, copy.value).None? then (s', trust, None)
    else
      var p := OpenParcel(a, copy.value).value;
      var (trust1, sender) := ContactKeys(s', a, trust, p.share.sender, i.senderConsent, env);
      if sender.None? || OpenPayload(a, p, sender.value).None? then (s', trust1, None)
      else
        var payload := OpenPayload(a, p, sender.value).value;
        var (trust2, owner) := ContactKeys(s', a, trust1, p.document.header.owner, i.ownerConsent, env);
        if owner.None? || !ContentSigned(owner.value.sigPub, payload) || !i.writable then (s', trust2, None)
        else (s', trust2, Some(Delivered(payload.content, p.document.header.owner)))
  }

  lemma LookUpTrip(s: State, r: Request, env: Env)
    requires r.GetSalt? || r.GetUserPubkey?
    ensures RoundTrip(s, r, env).0 == s
  {
    hide Handle, RequestFits, ReplyFits, Encode;
    Exchanges.LookUpEffect(s, r, env);
  }

  // ---- The client --------------------------------------------------------------------------------

  class SecureVaultClient {
    const server: SecureVaultServer

    /** The username and the identity keys; None while nobody is logged in. */
    var account: Option<Account>
    var trust: TrustStore.TrustStore?

    ghost predicate Valid()
      reads this
    {
      server.Valid() && (account.Some? ==> trust != null)
    }

    /** The trust store and its file. */
    ghost function TrustRepr(): set<object>
      reads this
    {
      if trust == null then {} else {trust, trust.file}
    }

    ghost function Trusted(): TrustStore.Store
      reads this, TrustRepr()
    {
      if trust == null then TrustStore.Store(map[], None) else trust.State()
    }

    constructor (server: SecureVaultServer)
      requires server.Valid()
      ensures Valid() && this.server == server && account == None
    {
      this.server := server;
      account := None;
      trust := null;
    }

    /** `_rpc`, to a server that serves nothing else meanwhile. */
    method Rpc(r: Request, challenge: seq<Byte>, now: real) returns (reply: Reply)
      requires server.Valid()
      modifies server.db, server.session
      ensures (server.View(), reply) == RoundTrip(old(server.View()), r, Env(challenge, now, server.secret))
    {
      hide Handle, RequestFits, ReplyFits;
      if !RequestFits(r) {
        return Failed(FrameTooLong);
      }
      var answer := server.Dispatch(r, challenge, now);
      reply := if ReplyFits(r, answer) then answer else Failed(FrameTooLong);
    }

    method Signup(file: Keystore.KeyFile, kdf: Kdf, name: Str, password: Str, i: SignupInputs, challenge: seq<Byte>,
                  now: real)
        returns (ok: bool)
      requires server.Valid()
      modifies server.db, server.session, file
      ensures (server.View(), file.contents, ok)
           == SignUp(old(server.View()), old(file.contents), kdf, name, password, i, Env(challenge, now, server.secret))
    {
      hide RoundTrip, Derive, Ecdh.PublicKey, Keystore.Sealed;
      var user := NewUser(kdf, password, i);
      var keys := Derive(kdf, password, i.salt, ARGON2);
      if user.None? || keys.None? {
        return false;
      }
      var raised := file.SaveKeys(Keystore.Keys(i.sigPriv, i.dhPriv), keys.value.kek, i.nonce, i.writable);
      if raised.Some? {
        return false;
      }
      var reply := Rpc(Register(name, user.value), challenge, now);
      ok := reply == Done;
    }

    method Login(file: Keystore.KeyFile, trustFile: TrustStore.File, kdf: Kdf, name: Str, password: Str, k: int,
                 challenge: seq<Byte>, now: real, later: real) returns (ok: bool)
      requires Valid()
      modifies this, server.db, server.session
      ensures var (s, a) := LogIn(old(server.View()), file.contents, kdf, name, password, k,
                                  Env(challenge, now, server.secret), Env(challenge, later, server.secret));
        && server.View() == s && ok == a.Some?
        && (ok ==> account == a && trust != null && fresh(trust) && trust.file == trustFile
                   && trust.State() == TrustStore.Apply(TrustStore.Store(map[], trustFile.contents), TrustStore.Reopen))
        && (!ok ==> account == old(account) && trust == old(trust))
      ensures Valid()
    {
      hide RoundTrip, Derive, SignBytes, Ecdh.PublicKey, Keystore.Opened, TrustStore.Apply;
      var reply := Rpc(LoginChallenge(name), challenge, now);
      if !reply.ChallengeReply? {
        return false;
      }
      var keys := Derive(kdf, password, reply.salt, reply.argon2);
      if keys.None? {
        return false;
      }
      var sig := SignBytes(keys.value.authScalar, reply.challenge, k);
      if sig.None? {
        return false;
      }
      var reply2 := Rpc(Request.Login(name, Some(sig.value)), challenge, later);
      if reply2 != Done {
        return false;
      }
      var k' := file.LoadKeys(keys.value.kek);
      if k'.Err? {
        return false;
      }
      var sigPub, dhPub := Ecdh.PublicKey(k'.value.sigPriv), Ecdh.PublicKey(k'.value.dhPriv);
      if sigPub.None? || dhPub.None? {
        return false;
      }
      account := Some(Account(name, k'.value.sigPriv, sigPub.value, k'.value.dhPriv, dhPub.value));
      trust := new TrustStore.TrustStore(trustFile);
      ok := true;
    }

    method Logout()
      requires Valid()
      modifies this
      ensures Valid() && account == None && trust == null
    {
      account := None;
      trust := null;
    }

    method ChangePassword(file: Keystore.KeyFile, kdf: Kdf, oldPassword: Str, newPassword: Str, i: ChangeInputs,
                          challenge: seq<Byte>, now: real) returns (ok: bool)
      requires Valid()
      modifies server.db, server.session, file
      ensures account.None? ==> !ok && server.View() == old(server.View()) && file.contents == old(file.contents)
      ensures account.Some? ==>
        (server.View(), file.contents, ok) ==
          SwitchPassword(old(server.View()), old(file.contents), kdf, account.value.username, oldPassword, newPassword,
                         i, Env(challenge, now, server.secret))
    {
      hide RoundTrip, Derive, SignString, Ecdh.PublicKey, Keystore.Opened, Keystore.Sealed,
           Session.PayloadChangePassword;
      if account.None? {
        return false;
      }
      var name := account.value.username;
      ghost var env := Env(challenge, now, server.secret);
      LookUpTrip(server.View(), GetSalt(name), env);
      var reply := Rpc(GetSalt(name), challenge, now);
      if !reply.SaltReply? {
        return false;
      }
      var oldKeys := Derive(kdf, oldPassword, reply.salt, reply.argon2);
      var newKeys := Derive(kdf, newPassword, i.newSalt, ARGON2);
      if oldKeys.None? || newKeys.None? {
        return false;
      }
      var loaded := file.LoadKeys(oldKeys.value.kek);
      if loaded.Err? {
        return false;
      }
      var newAuthPub := Ecdh.PublicKey(newKeys.value.authScalar);
      var text := Session.PayloadChangePassword(name, i.request.nonce);
      var proof := SignString(oldKeys.value.authScalar, text, i.request.k);
      if newAuthPub.None? || proof.None? {
        return false;
      }
      var raised := file.RewrapKeys(oldKeys.value.kek, newKeys.value.kek, i.nonce, i.writable);
      if raised.Some? {
        return false;
      }
      var r := Request.ChangePassword(name, i.request.nonce, proof.value, i.newSalt, Some(ARGON2), newAuthPub.value);
      var reply' := Rpc(r, challenge, now);
      ok := reply' == Done;
    }

    /** The end of `share`, and `_store_self_share`. */
    method PostShare(a: Account, docIdHex: Str, docId: seq<Byte>, version: int, docHash: seq<Byte>, recipient: Str,
                     dhPub: seq<Byte>, fk: seq<Byte>, i: ShareInputs, q: RequestInputs, challenge: seq<Byte>, now: real)
        returns (ok: bool)
      requires server.Valid()
      modifies server.db, server.session
      ensures (server.View(), ok)
           == SendShare(old(server.View()), a, docIdHex, docId, version, docHash, recipient, dhPub, fk, i, q,
                        Env(challenge, now, server.secret))
    {
      hide RoundTrip, MakeShare, SignString, Session.PayloadShare;
      var blob := MakeShare(a, docId, version, docHash, recipient, dhPub, fk, i);
      if blob.None? {
        return false;
      }
      var sig := SignString(a.sigPriv, Session.PayloadShare(a.username, docIdHex, recipient, q.nonce), q.k);
      if sig.None? {
        return false;
      }
      var r := ShareDoc(a.username, recipient, docIdHex, q.nonce, sig.value, blob.value);
      var reply := Rpc(r, challenge, now);
      ok := reply == Done;
    }

    method Upload(filename: Str, content: seq<Byte>, i: UploadInputs, challenge: seq<Byte>, now: real)
        returns (docIdHex: Option<Str>)
      requires Valid()
      modifies server.db, server.session
      ensures account.None? ==> docIdHex.None? && server.View() == old(server.View())
      ensures account.Some? ==>
        (server.View(), docIdHex) ==
          UploadFile(old(server.View()), account.value, filename, content, i, Env(challenge, now, server.secret))
    {
      hide RoundTrip, MakeDocument, DocumentBlob, SignString, SendShare, Session.PayloadUpload, Sha256.Digest, ToHex;
      if account.None? {
        return None;
      }
      var a := account.value;
      var d := MakeDocument(a, filename, content, i.document);
      if d.None? {
        return None;
      }
      var blob := DocumentBlob(d.value);
      var sig := SignString(a.sigPriv, Session.PayloadUpload(a.username, i.request.nonce), i.request.k);
      if blob.None? || sig.None? {
        return None;
      }
      var reply := Rpc(Request.Upload(a.username, i.request.nonce, sig.value, blob.value), challenge, now);
      if !reply.Uploaded? {
        return None;
      }
      var docId := i.document.docId;
      var shared := PostShare(a, ToHex(docId), docId, 1, Sha256.Digest(d.value.ciphertext), a.username, a.dhPub,
                              i.document.fk, i.share, i.shareRequest, challenge, now);
      docIdHex := if shared then Some(ToHex(reply.docId)) else None;
    }

    method Fetch(a: Account, docIdHex: Str, q: RequestInputs, challenge: seq<Byte>,
                 now: real) returns (copy: Option<Copy>)
      requires server.Valid()
      modifies server.db, server.session
      ensures (server.View(), copy) == FetchDoc(old(server.View()), a, docIdHex, q, Env(challenge, now, server.secret))
    {
      hide RoundTrip, SignString, Session.PayloadDownload;
      var sig := SignString(a.sigPriv, Session.PayloadDownload(a.username, docIdHex, q.nonce), q.k);
      if sig.None? {
        return None;
      }
      var reply := Rpc(GetDoc(a.username, docIdHex, q.nonce, sig.value), challenge, now);
      if !reply.DocReply? || reply.share.None? {
        return None;
      }
      copy := Some(Copy(reply.document, reply.share.value));
    }

    method GetVerifiedPubkey(a: Account, name: Str, consent: bool, challenge: seq<Byte>, now: real)
        returns (keys: Option<Bundle>)
      requires Valid() && trust != null
      modifies server.db, server.session, trust, trust.file
      ensures server.View() == old(server.View())
      ensures (trust.entries, keys)
           == ContactKeys(old(server.View()), a, old(trust.entries), name, consent, Env(challenge, now, server.secret))
      ensures trust.State() == TrustStore.Written(old(trust.State()), trust.entries)
    {
      hide RoundTrip, TrustStore.Fingerprint;
      if name == a.username {
        return Some(Bundle(a.sigPub, a.dhPub));
      }
      ghost var env := Env(challenge, now, server.secret);
      LookUpTrip(server.View(), GetUserPubkey(name), env);
      var reply := Rpc(GetUserPubkey(name), challenge, now);
      if !reply.KeysReply? {
        return None;
      }
      var seen := trust.Check(name, reply.sigPub, reply.dhPub);
      if seen.Err? && seen.error.KeyMismatch? {
        return None;
      }
      if seen.Err? {
        if !consent {
          return None;
        }
        var recorded := trust.RecordFirstContact(name, reply.sigPub, reply.dhPub);
      }
      keys := Some(Bundle(reply.sigPub, reply.dhPub));
    }

    method Share(docIdHex: Str, recipient: Str, i: ReshareInputs, challenge: seq<Byte>, now: real) returns (ok: bool)
      requires Valid()
      modifies server.db, server.session, TrustRepr()
      ensures account.None? ==> !ok && server.View() == old(server.View())
      ensures account.Some? ==>
        (server.View(), Trusted().entries, ok) ==
          ShareWith(old(server.View()), old(Trusted().entries), account.value, docIdHex, recipient, i,
                        Env(challenge, now, server.secret))
    {
      hide RoundTrip, ContactKeys, FetchDoc, Recover, SendShare, FromHex, Sha256.Digest;
      if account.None? {
        return false;
      }
      var a := account.value;
      var keys := GetVerifiedPubkey(a, recipient, i.consent, challenge, now);
      if keys.None? {
        return false;
      }
      var copy := Fetch(a, docIdHex, i.fetch, challenge, now);
      if copy.None? {
        return false;
      }
      var r, docId := Recover(a, copy.value), FromHex(docIdHex);
      if r.None? || docId.None? {
        return false;
      }
      ok := PostShare(a, docIdHex, docId.value, r.value.document.header.version,
                      Sha256.Digest(r.value.document.ciphertext), recipient, keys.value.dhPub, r.value.fk,
                      i.share, i.shareRequest, challenge, now);
    }

    /** The result is what is written to the given path, and the owner's name. */
    method Download(docIdHex: Str, i: DownloadInputs, challenge: seq<Byte>, now: real) returns (got: Option<Delivered>)
      requires Valid()
      modifies server.db, server.session, TrustRepr()
      ensures account.None? ==> got.None? && server.View() == old(server.View())
      ensures account.Some? ==>
        (server.View(), Trusted().entries, got) ==
          DownloadFile(old(server.View()), old(Trusted().entries), account.value, docIdHex, i,
                           Env(challenge, now, server.secret))
    {
      hide RoundTrip, ContactKeys, FetchDoc, OpenParcel, OpenPayload, ContentSigned;
      if account.None? {
        return None;
      }
      var a := account.value;
      var copy := Fetch(a, docIdHex, i.fetch, challenge, now);
      if copy.None? {
        return None;
      }
      var p := OpenParcel(a, copy.value);
      if p.None? {
        return None;
      }
      var sender := GetVerifiedPubkey(a, p.value.share.sender, i.senderConsent, challenge, now);
      if sender.None? {
        return None;
      }
      var payload := OpenPayload(a, p.value, sender.value);
      if payload.None? {
        return None;
      }
      var owner := GetVerifiedPubkey(a, p.value.document.header.owner, i.ownerConsent, challenge, now);
      if owner.None? || !ContentSigned(owner.value.sigPub, payload.value) || !i.writable {
        return None;
      }
      got := Some(Delivered(payload.value.content, p.value.document.header.owner));
    }

    method MarkContactVerified(name: Str) returns (ok: bool)
      requires Valid()
      modifies TrustRepr()
      ensures account.None? ==> !ok && Trusted() == old(Trusted())
      ensures account.Some? ==> ok == TrustStore.Verify(old(Trusted().entries), name).Ok?
                                && Trusted() == TrustStore.Apply(old(Trusted()), TrustStore.VerifyCall(name))
    {
      hide TrustStore.Apply;
      if account.None? {
        return false;
      }
      var r := trust.MarkVerified(name);
      ok := r.Ok?;
    }
  }
}
