/** Runs in which uploads, shares and downloads overlap: each is cut at its requests, each request is
    a thread of the server, and the steps of all clients and threads interleave. Account calls stay
    whole. */
module Overlap {
  import opened Bits
  import opened Wrappers
  import opened Utf8
  import opened Database
  import opened Formats
  import opened Server
  import opened Envelopes
  import opened Client
  import opened EndToEnd
  import opened Exchanges
  import opened Messages
  import opened Runs
  import Ecdh
  import P256
  import Session
  import Sha256
  import TrustStore

  /** What a client holds between two requests of an upload, a share or a download, and how the
      call ended. `Wrapping` is the last step of both an upload and a share, `Posted` their success. */
  datatype Task =
    | Uploading(a: Account, filename: Str, content: seq<Byte>, upload: UploadInputs)
    | Sharing(a: Account, docIdHex: Str, recipient: Str, reshare: ReshareInputs)
    | Addressed(a: Account, docIdHex: Str, recipient: Str, dhPub: seq<Byte>, reshare: ReshareInputs)
    | Wrapping(a: Account, docIdHex: Str, docId: seq<Byte>, version: int, docHash: seq<Byte>, recipient: Str,
               dhPub: seq<Byte>, fk: seq<Byte>, share: ShareInputs, request: RequestInputs)
    | Downloading(a: Account, docIdHex: Str, download: DownloadInputs)
    | Received(a: Account, docIdHex: Str, parcel: Parcel, download: DownloadInputs)
    | Unsealed(a: Account, docIdHex: Str, parcel: Parcel, payload: Payload, download: DownloadInputs)
    | Posted(docIdHex: Str)
    | Delivering(docIdHex: Str, delivered: Delivered)
    | Ended

  /** The tasks of the clients, and for a task whose request is out, the thread that serves it. */
  datatype Scene = Scene(world: World, truth: Truth, tasks: map<nat, Task>, threads: map<nat, Pc>)

  // ---- What a client sends -----------------------------------------------------------------

  predicate AsksContact(task: Task) {
    task.Sharing? || task.Received? || task.Unsealed?
  }

  predicate Fetches(task: Task) {
    task.Addressed? || task.Downloading?
  }

  /** The call is not over. */
  predicate Open(task: Task) {
    task.Uploading? || task.Wrapping? || Fetches(task) || AsksContact(task)
  }

  /** Whose keys are needed: the recipient's of a share, the sender's or the owner's of a download. */
  function Contact(task: Task): Str
    requires AsksContact(task)
  {
    match task
    case Sharing(_, _, recipient, _) => recipient
    case Received(_, _, p, _) => p.share.sender
    case Unsealed(_, _, p, _, _) => p.document.header.owner
  }

  function Consent(task: Task): bool
    requires AsksContact(task)
  {
    match task
    case Sharing(_, _, _, i) => i.consent
    case Received(_, _, _, i) => i.senderConsent
    case Unsealed(_, _, _, _, i) => i.ownerConsent
  }

  function FetchInputs(task: Task): RequestInputs
    requires Fetches(task)
  {
    if task.Addressed? then task.reshare.fetch else task.download.fetch
  }

  function UploadRequest(task: Task): Option<Request>
    requires task.Uploading?
  {
    hide MakeDocument, DocumentBlob, SignString, Session.PayloadUpload;
    var a, i := task.a, task.upload;
    var d :- MakeDocument(a, task.filename, task.content, i.document);
    var blob :- DocumentBlob(d);
    var sig :- SignString(a.sigPriv, Session.PayloadUpload(a.username, i.request.nonce), i.request.k);
    Some(Request.Upload(a.username, i.request.nonce, sig, blob))
  }

  function ShareRequest(task: Task): Option<Request>
    requires task.Wrapping?
  {
    hide MakeShare, SignString, Session.PayloadShare;
    var a, q := task.a, task.request;
    var blob :- MakeShare(a, task.docId, task.version, task.docHash, task.recipient, task.dhPub, task.fk, task.share);
    var sig :- SignString(a.sigPriv, Session.PayloadShare(a.username, task.docIdHex, task.recipient, q.nonce), q.k);
    Some(ShareDoc(a.username, task.recipient, task.docIdHex, q.nonce, sig, blob))
  }

  function FetchRequest(task: Task): Option<Request>
    requires Fetches(task)
  {
    hide SignString, Session.PayloadDownload;
    var a, q := task.a, FetchInputs(task);
    var sig :- SignString(a.sigPriv, Session.PayloadDownload(a.username, task.docIdHex, q.nonce), q.k);
    Some(GetDoc(a.username, task.docIdHex, q.nonce, sig))
  }

  /** The next request; None where a call raises before anything is sent. */
  function NextRequest(task: Task): Option<Request>
    requires Open(task)
  {
    hide UploadRequest, ShareRequest, FetchRequest;
    if task.Uploading? then UploadRequest(task)
    else if task.Wrapping? then ShareRequest(task)
    else if Fetches(task) then FetchRequest(task)
    else Some(GetUserPubkey(Contact(task)))
  }

  // ---- What it makes of the reply ---------------------------------------------------------------

  /** The first checks on a fetched copy, and for a share, the file key. */
  function Opened(task: Task, copy: Copy): Task
    requires Fetches(task)
  {
    hide OpenParcel, Recover, FromHex, Sha256.Digest;
    if task.Downloading? then
      var p := OpenParcel(task.a, copy);
      if p.None? then Ended else Received(task.a, task.docIdHex, p.value, task.download)
    else
      var r, docId := Recover(task.a, copy), FromHex(task.docIdHex);
      if r.None? || docId.None? then Ended
      else Wrapping(task.a, task.docIdHex, docId.value, r.value.document.header.version,
                    Sha256.Digest(r.value.document.ciphertext), task.recipient, task.dhPub, r.value.fk,
                    task.reshare.share, task.reshare.shareRequest)
  }

  /** With the contact's keys, or without them. */
  function WithKeys(task: Task, keys: Option<Bundle>): Task
    requires AsksContact(task)
  {
    hide OpenPayload, ContentSigned;
    if keys.None? then Ended
    else
      match task
      case Sharing(a, docIdHex, recipient, i) => Addressed(a, docIdHex, recipient, keys.value.dhPub, i)
      case Received(a, docIdHex, p, i) =>
        var payload := OpenPayload(a, p, keys.value);
        if payload.None? then Ended else Unsealed(a, docIdHex, p, payload.value, i)
      case Unsealed(_, docIdHex, p, payload, i) =>
        if ContentSigned(keys.value.sigPub, payload) && i.writable
        then Delivering(docIdHex, Delivered(payload.content, p.document.header.owner)) else Ended
  }

  /** The document of an upload was stored: the share to oneself comes next. */
  function SelfShare(task: Task): Task
    requires task.Uploading?
  {
    hide MakeDocument, Sha256.Digest, ToHex;
    var a, i := task.a, task.upload;
    match MakeDocument(a, task.filename, task.content, i.document)
    case None => Ended
    case Some(d) =>
      Wrapping(a, ToHex(i.document.docId), i.document.docId, 1, Sha256.Digest(d.ciphertext), a.username, a.dhPub,
               i.document.fk, i.share, i.shareRequest)
  }

  function Answered(task: Task, reply: Reply): Task
    requires Open(task) && !AsksContact(task)
  {
    hide SelfShare, Opened;
    if task.Uploading? then if reply.Uploaded? then SelfShare(task) else Ended
    else if task.Wrapping? then if reply == Done then Posted(task.docIdHex) else Ended
    else if reply.DocReply? && reply.share.Some? then Opened(task, Copy(reply.document, reply.share.value))
    else Ended
  }

  /** The client goes on with the reply it received. */
  function Continue(trust: TrustStore.Entries, task: Task, reply: Reply): (TrustStore.Entries, Task)
    requires Open(task)
  {
    hide Answered, WithKeys, TrustStore.Ask;
    if !AsksContact(task) then (trust, Answered(task, reply))
    else
      match reply
      case KeysReply(sigPub, dhPub) =>
        var (trust', ok) := TrustStore.Ask(trust, Contact(task), sigPub, dhPub, Consent(task));
        (trust', WithKeys(task, if ok then Some(Bundle(sigPub, dhPub)) else None))
      case _ => (trust, Ended)
  }

  /** Nobody is asked for one's own keys. */
  predicate KnowsKeys(task: Task) {
    AsksContact(task) && Contact(task) == task.a.username
  }

  /** One request of a client that nothing interrupts. */
  function Exchange(s: State, trust: TrustStore.Entries, task: Task, env: Env): (State, TrustStore.Entries, Task)
    requires Open(task)
  {
    hide RoundTrip, NextRequest, Continue, WithKeys;
    if KnowsKeys(task) then (s, trust, WithKeys(task, Some(Bundle(task.a.sigPub, task.a.dhPub))))
    else
      match NextRequest(task)
      case None => (s, trust, Ended)
      case Some(r) =>
        var (s', reply) := RoundTrip(s, r, env);
        var (trust', next) := Continue(trust, task, reply);
        (s', trust', next)
  }

  // ---- The calls of the client, uninterrupted ----------------------------------------------

  lemma UploadIsItsRequests(s: State, trust: TrustStore.Entries, a: Account, filename: Str, content: seq<Byte>,
                            i: UploadInputs, env: Env)
    ensures var (s1, _, task) := Exchange(s, trust, Uploading(a, filename, content, i), env);
      UploadFile(s, a, filename, content, i, env) ==
        if !task.Wrapping? then (s1, None)
        else
          var (s2, _, end) := Exchange(s1, trust, task, env);
          (s2, if end.Posted? then Some(end.docIdHex) else None)
  {
    hide RoundTrip, MakeDocument, DocumentBlob, SignString, MakeShare, Session.PayloadUpload, Session.PayloadShare,
         Sha256.Digest, ToHex;
    var d := MakeDocument(a, filename, content, i.document);
    var sig := SignString(a.sigPriv, Session.PayloadUpload(a.username, i.request.nonce), i.request.k);
    if d.Some? && DocumentBlob(d.value).Some? && sig.Some? {
      var r := Request.Upload(a.username, i.request.nonce, sig.value, DocumentBlob(d.value).value);
      if RoundTrip(s, r, env).1.Uploaded? {
        StoredIsNew(s, a, filename, content, i.document, d.value, r, env);
      }
    }
  }

  lemma ContactIsRequest(s: State, trust: TrustStore.Entries, task: Task, env: Env)
    requires AsksContact(task)
    ensures var (trust', keys) := ContactKeys(s, task.a, trust, Contact(task), Consent(task), env);
      Exchange(s, trust, task, env) == (s, trust', WithKeys(task, keys))
  {
    hide RoundTrip, WithKeys, TrustStore.Ask, Contact, Consent, UploadRequest, ShareRequest, FetchRequest;
    LookUpTrip(s, GetUserPubkey(Contact(task)), env);
    NoKeys(task);
  }

  lemma NoKeys(task: Task)
    requires AsksContact(task)
    ensures WithKeys(task, None) == Ended
  {
  }

  lemma FetchIsRequest(s: State, trust: TrustStore.Entries, task: Task, env: Env)
    requires Fetches(task)
    ensures var (s', copy) := FetchDoc(s, task.a, task.docIdHex, FetchInputs(task), env);
      Exchange(s, trust, task, env) == (s', trust, if copy.None? then Ended else Opened(task, copy.value))
  {
    hide RoundTrip, Opened, SignString, Session.PayloadDownload;
  }

  lemma WrapIsRequest(s: State, trust: TrustStore.Entries, task: Task, env: Env)
    requires task.Wrapping?
    ensures var (s', ok) := SendShare(s, task.a, task.docIdHex, task.docId, task.version, task.docHash, task.recipient,
                                      task.dhPub, task.fk, task.share, task.request, env);
      Exchange(s, trust, task, env) == (s', trust, if ok then Posted(task.docIdHex) else Ended)
  {
    hide RoundTrip, MakeShare, SignString, Session.PayloadShare;
  }

  lemma ShareIsItsRequests(s: State, trust: TrustStore.Entries, a: Account, docIdHex: Str, recipient: Str,
                           i: ReshareInputs, env: Env)
    ensures var (_, trust', task) := Exchange(s, trust, Sharing(a, docIdHex, recipient, i), env);
      if !task.Addressed? then ShareWith(s, trust, a, docIdHex, recipient, i, env) == (s, trust', false)
      else
        var (s1, _, task1) := Exchange(s, trust', task, env);
        if !task1.Wrapping? then ShareWith(s, trust, a, docIdHex, recipient, i, env) == (s1, trust', false)
        else
          var (s2, _, end) := Exchange(s1, trust', task1, env);
          ShareWith(s, trust, a, docIdHex, recipient, i, env) == (s2, trust', end.Posted?)
  {
    hide Exchange, ContactKeys, FetchDoc, Recover, SendShare, FromHex, Sha256.Digest;
    ContactIsRequest(s, trust, Sharing(a, docIdHex, recipient, i), env);
    var (_, trust', task) := Exchange(s, trust, Sharing(a, docIdHex, recipient, i), env);
    if task.Addressed? {
      FetchIsRequest(s, trust', task, env);
      var (s1, _, task1) := Exchange(s, trust', task, env);
      if task1.Wrapping? {
        WrapIsRequest(s1, trust', task1, env);
      }
    }
  }

  lemma DownloadIsItsRequests(s: State, trust: TrustStore.Entries, a: Account, docIdHex: Str, i: DownloadInputs,
                              env: Env)
    ensures var (s1, _, task) := Exchange(s, trust, Downloading(a, docIdHex, i), env);
      if !task.Received? then DownloadFile(s, trust, a, docIdHex, i, env) == (s1, trust, None)
      else
        var (_, trust1, task1) := Exchange(s1, trust, task, env);
        if !task1.Unsealed? then DownloadFile(s, trust, a, docIdHex, i, env) == (s1, trust1, None)
        else
          var (_, trust2, task2) := Exchange(s1, trust1, task1, env);
          DownloadFile(s, trust, a, docIdHex, i, env)
            == (s1, trust2, if task2.Delivering? then Some(task2.delivered) else None)
  {
    hide Exchange, ContactKeys, FetchDoc, OpenParcel, OpenPayload, ContentSigned;
    FetchIsRequest(s, trust, Downloading(a, docIdHex, i), env);
    var (s1, _, task) := Exchange(s, trust, Downloading(a, docIdHex, i), env);
    if task.Received? {
      ContactIsRequest(s1, trust, task, env);
      var (_, trust1, task1) := Exchange(s1, trust, task, env);
      if task1.Unsealed? {
        ContactIsRequest(s1, trust1, task1, env);
      }
    }
  }

  // ---- Steps ----------------------------------------------------------------------------------

  /** The client sends its next request, and a thread begins to serve it. */
  function Send(n: Scene, id: nat): Scene
    requires id in n.tasks
  {
    hide NextRequest, RequestFits, WithKeys;
    var task := n.tasks[id];
    if !Open(task) then n
    else if KnowsKeys(task)
    then n.(tasks := n.tasks[id := WithKeys(task, Some(Bundle(task.a.sigPub, task.a.dhPub)))])
    else
      var r := NextRequest(task);
      if r.None? || !RequestFits(r.value) then n.(tasks := n.tasks[id := Ended])
      else n.(threads := n.threads[id := Start(r.value)])
  }

  /** The thread makes one step, at most one call into the database or the session state. */
  function Work(n: Scene, id: nat, env: Env): Scene
    requires id in n.tasks && id in n.threads && Sensible(n.threads[id])
  {
    hide *;
    var task := n.tasks[id];
    var (s, pc) := Step(n.world.server, n.threads[id], env);
    n.(world := n.world.(server := s), threads := n.threads[id := pc],
       truth := if !task.Uploading? then n.truth
                else Recorded(n.truth, n.world.server.db, s.db, task.a, task.content, task.upload.document))
  }

  /** What the client hears of an answer. */
  function Heard(r: Request, answer: Reply): Reply {
    if ReplyFits(r, answer) then answer else Failed(FrameTooLong)
  }

  /** The thread has ended, and the client receives the reply. */
  function Receive(n: Scene, id: nat): Scene
    requires id in n.tasks && id in n.threads && n.threads[id].Finished? && Open(n.tasks[id])
  {
    hide Heard, Continue;
    var w, task, pc := n.world, n.tasks[id], n.threads[id];
    var (trust, next) := Continue(TrustOf(w, task.a.username), task, Heard(pc.request, pc.reply));
    n.(world := if AsksContact(task) then w.(trust := w.trust[task.a.username := trust]) else w,
       tasks := n.tasks[id := next], threads := n.threads - {id})
  }

  function Advance(n: Scene, id: nat, env: Env): Scene
    requires id in n.tasks
  {
    hide *;
    if id !in n.threads then Send(n, id)
    else if !Sensible(n.threads[id]) || !Open(n.tasks[id]) then n
    else if n.threads[id].Finished? then Receive(n, id)
    else Work(n, id, env)
  }

  // ---- Runs ---------------------------------------------------------------------------------

  datatype Event =
    | Whole(call: Call, env: Env)
    | Begin(id: nat, task: Task)
    | Proceed(id: nat, env: Env)

  /** A task begins with the account of a logged-in user and inputs drawn as the client draws them. */
  predicate MayBegin(w: World, task: Task) {
    hide *;
    && (task.Uploading? || task.Sharing? || task.Downloading?)
    && task.a.username in w.sessions && w.sessions[task.a.username] == task.a
    && (task.Uploading? ==> UploadInputsOk(task.upload)) && (task.Sharing? ==> ShareInputsOk(task.reshare.share))
  }

  function Next(n: Scene, kdf: Kdf, e: Event): Scene {
    hide *;
    match e
    case Whole(c, env) =>
      var w := Runs.Apply(n.world, kdf, c, env).0;
      n.(world := w, truth := Learn(n.truth, n.world, w, c))
    case Begin(id, task) =>
      if id in n.tasks || id in n.threads || !MayBegin(n.world, task) then n else n.(tasks := n.tasks[id := task])
    case Proceed(id, env) => if id in n.tasks then Advance(n, id, env) else n
  }

  function After(kdf: Kdf, es: seq<Event>): Scene {
    hide *;
    if es == [] then Scene(START.world, START.truth, map[], map[])
    else Next(After(kdf, es[..|es| - 1]), kdf, es[|es| - 1])
  }

  /** The whole calls of the run are honest where they happen. */
  predicate HonestRun(kdf: Kdf, es: seq<Event>) {
    hide *;
    if es == [] then true
    else
      var n, e := After(kdf, es[..|es| - 1]), es[|es| - 1];
      HonestRun(kdf, es[..|es| - 1]) && (e.Whole? ==> Honest(n.world, n.truth, kdf, e.call, e.env))
  }

  // ---- Nobody interrupts ------------------------------------------------------------------------

  function AdvanceMany(n: Scene, id: nat, env: Env, k: nat): (m: Scene)
    requires id in n.tasks
    ensures id in m.tasks
    decreases k
  {
    hide RequestFits, ReplyFits, NextRequest, Continue, WithKeys, Step, Recorded, Sensible;
    if k == 0 then n else AdvanceMany(Advance(n, id, env), id, env, k - 1)
  }

  /** After k events of this task alone, the server and the client stand like this. */
  predicate Settles(n: Scene, id: nat, env: Env, k: nat, s: State, trust: TrustStore.Entries, next: Task)
    requires id in n.tasks && Open(n.tasks[id])
  {
    hide AdvanceMany, TrustOf;
    var m := AdvanceMany(n, id, env, k);
    m.world.server == s && TrustOf(m.world, n.tasks[id].a.username) == trust && m.tasks == n.tasks[id := next]
    && id !in m.threads
  }

  /** After some events of this task alone, its request is answered. */
  ghost predicate Settled(n: Scene, id: nat, env: Env, s: State, reply: Reply)
    requires id in n.tasks && Open(n.tasks[id])
  {
    hide Continue, Settles, TrustOf;
    var (trust, next) := Continue(TrustOf(n.world, n.tasks[id].a.username), n.tasks[id], reply);
    exists k: nat :: Settles(n, id, env, k, s, trust, next)
  }

  lemma {:induction false} ThreadSettles(n: Scene, id: nat, env: Env)
    requires id in n.tasks && id in n.threads && Sensible(n.threads[id]) && Open(n.tasks[id])
    ensures var (s, answer) := Drive(n.world.server, n.threads[id], env);
      Settled(n, id, env, s, Heard(n.threads[id].request, answer))
    decreases Remaining(n.threads[id])
  {
    hide ReplyFits, NextRequest, Continue, WithKeys, Step, Recorded, Sensible, Drive, Remaining, Send, Heard;
    var pc := n.threads[id];
    var m := Advance(n, id, env);
    Unroll(n.world.server, pc, env);
    var (s, answer) := Drive(n.world.server, pc, env);
    var (trust, next) := Continue(TrustOf(n.world, n.tasks[id].a.username), n.tasks[id], Heard(pc.request, answer));
    if pc.Finished? {
      TrustAnswered(n, id);
      assert AdvanceMany(m, id, env, 0) == m;
      assert AdvanceMany(n, id, env, 1) == m;
      assert Settles(n, id, env, 1, s, trust, next);
    } else {
      StepProgress(n.world.server, pc, env);
      ThreadSettles(m, id, env);
      var k: nat :| Settles(m, id, env, k, s, trust, next);
      assert AdvanceMany(n, id, env, k + 1) == AdvanceMany(m, id, env, k);
      assert Settles(n, id, env, k + 1, s, trust, next);
    }
  }

  lemma TrustAnswered(n: Scene, id: nat)
    requires id in n.tasks && id in n.threads && n.threads[id].Finished? && Open(n.tasks[id])
    ensures TrustOf(Receive(n, id).world, n.tasks[id].a.username)
         == Continue(TrustOf(n.world, n.tasks[id].a.username), n.tasks[id],
                     Heard(n.threads[id].request, n.threads[id].reply)).0
  {
    hide Heard, Answered, WithKeys, TrustStore.Ask;
  }

  /** One event to send, the steps of the thread and one event to receive make one exchange. */
  lemma Undisturbed(n: Scene, id: nat, env: Env)
    requires id in n.tasks && id !in n.threads && Open(n.tasks[id])
    ensures var task := n.tasks[id];
            var (s, trust, next) := Exchange(n.world.server, TrustOf(n.world, task.a.username), task, env);
      exists k: nat :: Settles(n, id, env, k, s, trust, next)
  {
    hide RequestFits, ReplyFits, NextRequest, Continue, WithKeys, Step, Recorded, Drive, Receive, Work;
    var task, m := n.tasks[id], Advance(n, id, env);
    var (s, trust, next) := Exchange(n.world.server, TrustOf(n.world, task.a.username), task, env);
    if KnowsKeys(task) || NextRequest(task).None? || !RequestFits(NextRequest(task).value) {
      if NextRequest(task).Some? && !RequestFits(NextRequest(task).value) {
        NothingSent(task, n.world.server, TrustOf(n.world, task.a.username), env);
      }
      assert AdvanceMany(m, id, env, 0) == m;
      assert AdvanceMany(n, id, env, 1) == m;
      assert Settles(n, id, env, 1, s, trust, next);
    } else {
      ThreadSettles(m, id, env);
      var k: nat :| Settles(m, id, env, k, s, trust, next);
      assert AdvanceMany(n, id, env, k + 1) == AdvanceMany(m, id, env, k);
      assert Settles(n, id, env, k + 1, s, trust, next);
    }
  }

  lemma NothingSent(task: Task, s: State, trust: TrustStore.Entries, env: Env)
    requires Open(task) && NextRequest(task).Some? && !RequestFits(NextRequest(task).value)
    ensures RoundTrip(s, NextRequest(task).value, env) == (s, Failed(FrameTooLong))
    ensures Continue(trust, task, Failed(FrameTooLong)) == (trust, Ended)
  {
    hide RequestFits, NextRequest;
  }

  // ---- The invariant -----------------------------------------------------------------------

  /** What a client holds between two requests stays true whatever others do meanwhile. */
  ghost predicate TaskGood(db: Tables, t: Truth, task: Task) {
    hide *;
    match task
    case Uploading(a, _, _, i) => SessionGood(db, t, a) && UploadInputsOk(i)
    case Sharing(a, _, _, i) => SessionGood(db, t, a) && ShareInputsOk(i.share)
    case Addressed(a, _, recipient, dhPub, i) =>
      SessionGood(db, t, a) && ShareInputsOk(i.share) && recipient in db.users && dhPub == db.users[recipient].dhPub
    case Wrapping(a, _, docId, _, docHash, recipient, dhPub, fk, share, _) =>
      Wraps(db, t, a, docId, docHash, recipient, dhPub, fk) && ShareInputsOk(share)
    case Downloading(a, _, _) => SessionGood(db, t, a)
    case Received(a, docIdHex, p, _) =>
      SessionGood(db, t, a) && FromHex(docIdHex).Some? && ParcelOf(db, t, a, FromHex(docIdHex).value, p)
    case Unsealed(a, docIdHex, p, payload, _) =>
      SessionGood(db, t, a) && FromHex(docIdHex).Some? && ParcelOf(db, t, a, FromHex(docIdHex).value, p)
      && FromHex(docIdHex).value in t.files && payload.content == t.files[FromHex(docIdHex).value].content
    case Delivering(docIdHex, delivered) =>
      FromHex(docIdHex).Some? && FromHex(docIdHex).value in t.files
      && delivered == Original(t, FromHex(docIdHex).value)
    case Posted(_) => true
    case Ended => true
  }

  lemma WrapsExtends(db: Tables, t: Truth, db': Tables, t': Truth, a: Account, docId: seq<Byte>, docHash: seq<Byte>,
                     recipient: Str, dhPub: seq<Byte>, fk: seq<Byte>)
    requires Extends(db, t, db', t') && TablesGood(db, t) && Wraps(db, t, a, docId, docHash, recipient, dhPub, fk)
    ensures Wraps(db', t', a, docId, docHash, recipient, dhPub, fk)
  {
    hide TablesGood, SessionGood, UnpackDocument, Sha256.Digest, Ecdh.PublicKey, Encode;
    UserKnown(db, t, recipient);
    SessionGoodExtends(db, t, db', t', a);
    assert SameKeys(db, t, db', t', recipient);
  }

  lemma ParcelOfExtends(db: Tables, t: Truth, db': Tables, t': Truth, a: Account, docId: seq<Byte>, p: Parcel)
    requires Extends(db, t, db', t') && TablesGood(db, t) && ParcelOf(db, t, a, docId, p)
    ensures ParcelOf(db', t', a, docId, p)
  {
    hide TablesGood, UnwrapFk, OpenDocument, ContentSigned, ShareSigned, Ecdh.PublicKey, Encode;
    UserKnown(db, t, p.share.sender);
    UserKnown(db, t, t.files[docId].owner);
    assert SameKeys(db, t, db', t', p.share.sender);
    assert SameKeys(db, t, db', t', t.files[docId].owner);
  }

  lemma TaskGoodExtends(db: Tables, t: Truth, db': Tables, t': Truth, task: Task)
    requires Extends(db, t, db', t') && TablesGood(db, t) && TaskGood(db, t, task)
    ensures TaskGood(db', t', task)
  {
    hide Extends, TablesGood, SessionGood, Wraps, ParcelOf, FromHex, UploadInputsOk, ShareInputsOk, UserGood;
    match task
    case Wrapping(a, _, docId, _, docHash, recipient, dhPub, fk, _, _) =>
      WrapsExtends(db, t, db', t', a, docId, docHash, recipient, dhPub, fk);
    case Addressed(a, _, recipient, _, _) =>
      SessionGoodExtends(db, t, db', t', a);
      KeysStay(db, t, db', t', recipient);
    case Received(a, docIdHex, p, _) =>
      SessionGoodExtends(db, t, db', t', a);
      ParcelOfExtends(db, t, db', t', a, FromHex(docIdHex).value, p);
    case Unsealed(a, docIdHex, p, _, _) =>
      SessionGoodExtends(db, t, db', t', a);
      ParcelOfExtends(db, t, db', t', a, FromHex(docIdHex).value, p);
      FileStays(db, t, db', t', FromHex(docIdHex).value);
    case Delivering(docIdHex, _) => FileStays(db, t, db', t', FromHex(docIdHex).value);
    case Posted(_) =>
    case Ended =>
    case _ => SessionGoodExtends(db, t, db', t', task.a);
  }

  lemma KeysStay(db: Tables, t: Truth, db': Tables, t': Truth, u: Str)
    requires Extends(db, t, db', t') && TablesGood(db, t) && u in db.users
    ensures u in db'.users && db'.users[u].dhPub == db.users[u].dhPub
  {
    hide TablesGood, UserGood;
    UserKnown(db, t, u);
    assert SameKeys(db, t, db', t', u);
  }

  // ---- Threads keep it -----------------------------------------------------------------------

  /** A thread that fetches has read the stored document, and with it brings a share that was good
      when it read it; shares may be replaced meanwhile. */
  ghost predicate FetchGood(db: Tables, t: Truth, a: Account, docIdHex: Str, pc: Pc) {
    hide *;
    && (pc.Fetched? ==>
          FromHex(docIdHex).Some? && FromHex(docIdHex).value in db.documents
          && pc.document == db.documents[FromHex(docIdHex).value])
    && (pc.Finished? && pc.reply.DocReply? && pc.reply.share.Some? ==>
          CopySound(db, t, a, docIdHex, Copy(pc.reply.document, pc.reply.share.value)))
  }

  /** A thread that looks keys up brings those that the server holds. */
  predicate LookUpGood(db: Tables, name: Str, pc: Pc) {
    pc.Finished? && pc.reply.KeysReply? ==>
      name in db.users && pc.reply == KeysReply(db.users[name].sigPub, db.users[name].dhPub)
  }

  /** A thread serves the next request of its task; what it has seen and what its answer promises
      stays true whatever others do meanwhile. */
  ghost predicate ThreadGood(db: Tables, t: Truth, task: Task, pc: Pc) {
    hide Sensible, NextRequest, SelfShare, TaskGood, FetchGood, LookUpGood;
    && Open(task) && Sensible(pc) && NextRequest(task) == Some(pc.request)
    && if task.Uploading? then
         pc.Finished? && pc.reply.Uploaded? ==>
           TaskGood(db, t, SelfShare(task)) && task.upload.document.docId in t.files
           && t.files[task.upload.document.docId] == File(task.a.username, task.upload.document.fk, task.content)
       else if Fetches(task) then FetchGood(db, t, task.a, task.docIdHex, pc)
       else if AsksContact(task) then LookUpGood(db, Contact(task), pc)
       else true
  }

  lemma CopySoundExtends(db: Tables, t: Truth, db': Tables, t': Truth, a: Account, docIdHex: Str, c: Copy)
    requires Extends(db, t, db', t') && TablesGood(db, t) && CopySound(db, t, a, docIdHex, c)
    ensures CopySound(db', t', a, docIdHex, c)
  {
    hide Extends, TablesGood, DocumentGood, ShareGood, FromHex;
    var docId := FromHex(docIdHex).value;
    var k, row := ShareKey(docId, a.username), ShareRow(c.share, 0);
    DocumentOwner(db, t, docId, db.documents[docId]);
    UserKnown(db, t, db.documents[docId].owner);
    DocumentGoodExtends(db, t, db', t', docId, db.documents[docId]);
    ShareSender(db, t, k, row);
    UserKnown(db, t, UnpackShare(row.blob).value.sender);
    ShareGoodExtends(db, t, db', t', k, row);
    SameDocument(db, t, db', t', docId);
  }

  lemma LookUpGoodExtends(db: Tables, t: Truth, db': Tables, t': Truth, name: Str, pc: Pc)
    requires Extends(db, t, db', t') && TablesGood(db, t) && LookUpGood(db, name, pc)
    ensures LookUpGood(db', name, pc)
  {
    hide TablesGood, UserGood;
    UserKnown(db, t, name);
    if name in db.users {
      assert SameKeys(db, t, db', t', name);
    }
  }

  lemma FetchGoodExtends(db: Tables, t: Truth, db': Tables, t': Truth, a: Account, docIdHex: Str, pc: Pc)
    requires Extends(db, t, db', t') && TablesGood(db, t) && FetchGood(db, t, a, docIdHex, pc)
    ensures FetchGood(db', t', a, docIdHex, pc)
  {
    hide Extends, TablesGood, CopySound, FromHex;
    if pc.Fetched? {
      SameDocument(db, t, db', t', FromHex(docIdHex).value);
    }
    if pc.Finished? && pc.reply.DocReply? && pc.reply.share.Some? {
      CopySoundExtends(db, t, db', t', a, docIdHex, Copy(pc.reply.document, pc.reply.share.value));
    }
  }

  lemma ThreadGoodExtends(db: Tables, t: Truth, db': Tables, t': Truth, task: Task, pc: Pc)
    requires Extends(db, t, db', t') && TablesGood(db, t) && ThreadGood(db, t, task, pc)
    ensures ThreadGood(db', t', task, pc)
  {
    hide Extends, TablesGood, TaskGood, FetchGood, LookUpGood, SelfShare, NextRequest, Sensible, Contact;
    if task.Uploading? {
      if pc.Finished? && pc.reply.Uploaded? {
        TaskGoodExtends(db, t, db', t', SelfShare(task));
        FileStays(db, t, db', t', task.upload.document.docId);
      }
    } else if Fetches(task) {
      FetchGoodExtends(db, t, db', t', task.a, task.docIdHex, pc);
    } else if AsksContact(task) {
      LookUpGoodExtends(db, t, db', t', Contact(task), pc);
    }
  }

  // What one step of a thread does to the tables.

  lemma UploadStepDb(s: State, pc: Pc, env: Env)
    requires Sensible(pc) && pc.request.Upload? && !pc.Finished?
    ensures var (s', pc') := Step(s, pc, env);
      if pc'.Finished? && pc'.reply.Uploaded? then
        && UploadRow(pc.request).Ok? && UploadRow(pc.request).value.docId !in s.db.documents
        && s'.db == s.db.(documents :=
             s.db.documents[UploadRow(pc.request).value.docId := UploadRow(pc.request).value.row])
      else s'.db == s.db
  {
    hide CheckCaller, UploadRow, Encode;
  }

  lemma ShareStepDb(s: State, pc: Pc, env: Env)
    requires Sensible(pc) && pc.request.ShareDoc? && !pc.Finished?
    ensures var s' := Step(s, pc, env).0;
      s'.db == s.db
      || (NewShareRow(pc.request).Ok?
          && s'.db == s.db.(shares :=
               s.db.shares[NewShareRow(pc.request).value.key := NewShareRow(pc.request).value.row]))
  {
    hide CheckCaller, NewShareRow, Encode;
  }

  lemma FetchStepDb(s: State, pc: Pc, env: Env)
    requires Sensible(pc) && pc.request.GetDoc? && !pc.Finished?
    ensures var (s', pc') := Step(s, pc, env); var docId := FromHex(pc.request.docIdHex);
      && s'.db == s.db
      && (pc'.Fetched? ==>
            docId.Some? && docId.value in s.db.documents && pc'.document == s.db.documents[docId.value])
      && (pc'.Finished? && pc'.reply.DocReply? && pc'.reply.share.Some? ==>
            pc.Fetched? && pc'.reply.document == pc.document.blob
            && docId.Some? && ShareKey(docId.value, pc.request.reader) in s.db.shares
            && pc'.reply.share.value == s.db.shares[ShareKey(docId.value, pc.request.reader)].blob)
  {
    hide CheckCaller, FromHex, Encode;
  }

  lemma LookUpStepDb(s: State, pc: Pc, env: Env)
    requires Sensible(pc) && pc.request.GetUserPubkey? && !pc.Finished?
    ensures var (s', pc') := Step(s, pc, env);
      s'.db == s.db && LookUpGood(s.db, pc.request.username, pc')
  {
    hide Encode;
  }

  // ---- One step keeps it ---------------------------------------------------------------------

  ghost predicate SceneSound(n: Scene, kdf: Kdf) {
    hide *;
    && Sound(n.world, n.truth, kdf)
    && (forall id <- n.tasks :: TaskGood(n.world.server.db, n.truth, n.tasks[id]))
    && (forall id <- n.threads :: id in n.tasks && ThreadGood(n.world.server.db, n.truth, n.tasks[id], n.threads[id]))
  }

  /** Only documents, shares and nonces change. */
  lemma ServerStepSound(w: World, t: Truth, s: State, t': Truth, kdf: Kdf)
    requires Sound(w, t, kdf) && TablesGood(s.db, t') && Extends(w.server.db, t, s.db, t')
    requires s.db.users == w.server.db.users && t'.users == t.users
    ensures Sound(w.(server := s), t', kdf)
  {
    hide Sound, TablesGood, SessionGood, TrustGood, KeyFileGood, Extends, RoundTrip;
    FilesKept(w, t, w.(server := s), t', kdf, []);
    SoundKept(w, t, w.(server := s), t', kdf);
  }

  lemma TrustStepSound(w: World, t: Truth, kdf: Kdf, name: Str, m: TrustStore.Entries)
    requires Sound(w, t, kdf) && TrustGood(w.server.db, m)
    ensures Sound(w.(trust := w.trust[name := m]), t, kdf)
  {
    hide Sound, TablesGood, SessionGood, TrustGood, KeyFileGood, Extends, RoundTrip;
    var w' := w.(trust := w.trust[name := m]);
    SoundParts(w, t, kdf, name);
    ExtendsReflexive(w.server.db, t);
    FilesKept(w, t, w', t, kdf, name);
    SoundKept(w, t, w', t, kdf);
  }

  /** What a thread leaves behind after a step. */
  ghost predicate WorkGood(w: World, t: Truth, kdf: Kdf, s: State, t': Truth, task: Task, pc: Pc) {
    hide *;
    Sound(w.(server := s), t', kdf) && Extends(w.server.db, t, s.db, t') && ThreadGood(s.db, t', task, pc)
  }

  lemma UploadRequestIs(task: Task, r: Request)
    requires task.Uploading? && NextRequest(task) == Some(r)
    ensures var d := MakeDocument(task.a, task.filename, task.content, task.upload.document);
      r.Upload? && r.owner == task.a.username && d.Some? && DocumentBlob(d.value) == Some(r.document)
  {
    hide MakeDocument, DocumentBlob, SignString, Session.PayloadUpload;
  }

  lemma SelfShareGood(db: Tables, t: Truth, task: Task)
    requires task.Uploading? && UploadInputsOk(task.upload)
    requires MakeDocument(task.a, task.filename, task.content, task.upload.document).Some?
    requires var i, d := task.upload, MakeDocument(task.a, task.filename, task.content, task.upload.document).value;
      Wraps(db, t, task.a, i.document.docId, Sha256.Digest(d.ciphertext), task.a.username, task.a.dhPub, i.document.fk)
    ensures TaskGood(db, t, SelfShare(task))
  {
    hide MakeDocument, Sha256.Digest, ToHex, Wraps, DocumentInputsOk, ShareInputsOk;
  }

  lemma UploadWork(w: World, t: Truth, kdf: Kdf, task: Task, pc: Pc, env: Env)
    requires P256.StandardFacts() && Sound(w, t, kdf) && task.Uploading? && TaskGood(w.server.db, t, task)
    requires ThreadGood(w.server.db, t, task, pc) && !pc.Finished?
    ensures Sensible(pc)
    ensures var (s, pc') := Step(w.server, pc, env);
      WorkGood(w, t, kdf, s, Recorded(t, w.server.db, s.db, task.a, task.content, task.upload.document), task, pc')
  {
    hide P256.StandardFacts, Sound, MakeDocument, DocumentBlob, TablesGood, Extends, UploadInputsOk, DocumentInputsOk,
         Wraps, Sha256.Digest, SessionGood, Step, Sensible, UploadRow, NextRequest, SelfShare;
    var s, r, i := w.server, pc.request, task.upload.document;
    var (s', pc') := Step(s, pc, env);
    SoundParts(w, t, kdf, task.a.username);
    ExtendsReflexive(s.db, t);
    UploadRequestIs(task, r);
    UploadStepDb(s, pc, env);
    if pc'.Finished? && pc'.reply.Uploaded? {
      var d := MakeDocument(task.a, task.filename, task.content, i).value;
      InputsSplit(task.upload);
      MadeUploadRow(task.a, task.filename, task.content, i, d, r);
      StoredDocument(s.db, t, task.a, task.filename, task.content, i, d, r);
      SelfShareGood(s'.db, Recorded(t, s.db, s'.db, task.a, task.content, i), task);
    }
    ServerStepSound(w, t, s', Recorded(t, s.db, s'.db, task.a, task.content, i), kdf);
  }

  lemma ShareRequestIs(task: Task, r: Request)
    requires task.Wrapping? && NextRequest(task) == Some(r)
    ensures r.ShareDoc? && r.sender == task.a.username && r.recipient == task.recipient
    ensures MakeShare(task.a, task.docId, task.version, task.docHash, task.recipient, task.dhPub, task.fk, task.share)
         == Some(r.blob)
  {
    hide MakeShare, SignString, Session.PayloadShare;
  }

  lemma ShareWork(w: World, t: Truth, kdf: Kdf, task: Task, pc: Pc, env: Env)
    requires P256.StandardFacts() && Sound(w, t, kdf) && task.Wrapping? && TaskGood(w.server.db, t, task)
    requires ThreadGood(w.server.db, t, task, pc) && !pc.Finished?
    ensures Sensible(pc)
    ensures var (s, pc') := Step(w.server, pc, env); WorkGood(w, t, kdf, s, t, task, pc')
  {
    hide P256.StandardFacts, Sound, MakeShare, TablesGood, Extends, ShareInputsOk, Wraps, Step, Sensible, NewShareRow,
         NextRequest, ShareGood, UnpackShare;
    var s, r := w.server, pc.request;
    var s' := Step(s, pc, env).0;
    SoundParts(w, t, kdf, task.a.username);
    ExtendsReflexive(s.db, t);
    ShareRequestIs(task, r);
    ShareStepDb(s, pc, env);
    if s'.db != s.db {
      NewShareFacts(r);
      MadeShareGood(s.db, t, task.a, task.docId, task.version, task.docHash, task.recipient, task.dhPub, task.fk,
                    task.share, r.blob);
      ShareStored(s.db, t, s'.db, NewShareRow(r).value.key, NewShareRow(r).value.row, task.share.now);
      SharesOnly(s.db, t, s'.db);
    }
    ServerStepSound(w, t, s', t, kdf);
  }

  lemma SharesOnly(db: Tables, t: Truth, db': Tables)
    requires db' == db.(shares := db'.shares)
    ensures Extends(db, t, db', t)
  {
  }

  lemma FetchRequestIs(task: Task, r: Request)
    requires Fetches(task) && NextRequest(task) == Some(r)
    ensures r.GetDoc? && r.reader == task.a.username && r.docIdHex == task.docIdHex
  {
    hide SignString, Session.PayloadDownload;
  }

  lemma FetchWork(w: World, t: Truth, kdf: Kdf, task: Task, pc: Pc, env: Env)
    requires Sound(w, t, kdf) && Fetches(task) && ThreadGood(w.server.db, t, task, pc) && !pc.Finished?
    ensures Sensible(pc)
    ensures var (s, pc') := Step(w.server, pc, env); WorkGood(w, t, kdf, s, t, task, pc')
  {
    hide Sound, TablesGood, Extends, Step, Sensible, NextRequest, CopySound, FromHex;
    var s := w.server;
    var (s', pc') := Step(s, pc, env);
    SoundParts(w, t, kdf, task.a.username);
    ExtendsReflexive(s.db, t);
    FetchRequestIs(task, pc.request);
    FetchStepDb(s, pc, env);
    if pc'.Finished? && pc'.reply.DocReply? && pc'.reply.share.Some? {
      CopyGood(s.db, t, task.a, task.docIdHex, Copy(pc'.reply.document, pc'.reply.share.value));
    }
    ServerStepSound(w, t, s', t, kdf);
  }

  lemma ContactWork(w: World, t: Truth, kdf: Kdf, task: Task, pc: Pc, env: Env)
    requires Sound(w, t, kdf) && AsksContact(task) && ThreadGood(w.server.db, t, task, pc) && !pc.Finished?
    ensures Sensible(pc)
    ensures var (s, pc') := Step(w.server, pc, env); WorkGood(w, t, kdf, s, t, task, pc')
  {
    hide Sound, TablesGood, Extends, Step, Sensible, Contact;
    var s := w.server;
    SoundParts(w, t, kdf, task.a.username);
    ExtendsReflexive(s.db, t);
    LookUpStepDb(s, pc, env);
    ServerStepSound(w, t, Step(s, pc, env).0, t, kdf);
  }

  lemma WorkKeeps(n: Scene, kdf: Kdf, id: nat, env: Env)
    requires P256.StandardFacts() && SceneSound(n, kdf) && id in n.tasks && id in n.threads && !n.threads[id].Finished?
    ensures Sensible(n.threads[id])
    ensures var m := Work(n, id, env);
      WorkGood(n.world, n.truth, kdf, m.world.server, m.truth, n.tasks[id], m.threads[id])
  {
    hide P256.StandardFacts, Sound, TaskGood, Step, Recorded, WorkGood, NextRequest, LookUpGood, FetchGood, Sensible;
    var w, t, task, pc := n.world, n.truth, n.tasks[id], n.threads[id];
    if task.Uploading? {
      UploadWork(w, t, kdf, task, pc, env);
    } else if task.Wrapping? {
      ShareWork(w, t, kdf, task, pc, env);
    } else if Fetches(task) {
      FetchWork(w, t, kdf, task, pc, env);
    } else {
      ContactWork(w, t, kdf, task, pc, env);
    }
  }

  // The client goes on.

  lemma OpenedGood(db: Tables, t: Truth, task: Task, c: Copy)
    requires TablesGood(db, t) && Fetches(task) && TaskGood(db, t, task) && CopySound(db, t, task.a, task.docIdHex, c)
    ensures TaskGood(db, t, Opened(task, c))
  {
    hide TablesGood, OpenParcel, Recover, FromHex, ParcelOf, CopySound, SessionGood, Sha256.Digest, ShareInputsOk,
         Wraps;
    if task.Addressed? {
      RecoverGood(db, t, task.a, task.docIdHex, c, task.recipient, task.dhPub);
    } else {
      ParcelGood(db, t, task.a, task.docIdHex, c);
    }
  }

  lemma WithKeysGood(db: Tables, t: Truth, task: Task)
    requires AsksContact(task) && TaskGood(db, t, task) && Contact(task) in db.users
    ensures TaskGood(db, t, WithKeys(task, Some(Held(db, Contact(task)))))
  {
    hide OpenPayload, ContentSigned, FromHex, ParcelOf, SessionGood, ShareInputsOk;
    if !task.Sharing? {
      var docId := FromHex(task.docIdHex).value;
      ParcelNames(db, t, task.a, docId, task.parcel);
      ParcelOpens(db, t, task.a, docId, task.parcel);
    }
  }

  /** The client goes on with what it hears, and holds what is right. */
  lemma ContinueGood(w: World, t: Truth, kdf: Kdf, task: Task, pc: Pc)
    requires Sound(w, t, kdf) && TaskGood(w.server.db, t, task) && ThreadGood(w.server.db, t, task, pc) && pc.Finished?
    ensures var (trust, next) := Continue(TrustOf(w, task.a.username), task, Heard(pc.request, pc.reply));
      TaskGood(w.server.db, t, next) && (AsksContact(task) ==> TrustGood(w.server.db, trust))
  {
    hide Sound, TablesGood, TaskGood, SelfShare, Opened, WithKeys, CopySound, FromHex, Contact, Consent,
         TrustStore.Ask, TrustGood, ReplyFits, NextRequest, Sensible;
    SoundParts(w, t, kdf, task.a.username);
    var reply := Heard(pc.request, pc.reply);
    EndedGood(w.server.db, t, task);
    if Fetches(task) {
      if reply.DocReply? && reply.share.Some? {
        OpenedGood(w.server.db, t, task, Copy(reply.document, reply.share.value));
      }
    } else if AsksContact(task) {
      NoKeys(task);
      if reply.KeysReply? {
        AskGood(w.server.db, TrustOf(w, task.a.username), Contact(task), Consent(task));
        WithKeysGood(w.server.db, t, task);
      }
    }
  }

  lemma EndedGood(db: Tables, t: Truth, task: Task)
    ensures TaskGood(db, t, Ended) && (task.Wrapping? ==> TaskGood(db, t, Posted(task.docIdHex)))
  {
  }

  /** A task alone changes: the client's next move needs no answer. */
  lemma SendGood(n: Scene, kdf: Kdf, id: nat)
    requires SceneSound(n, kdf) && id in n.tasks && id !in n.threads
    ensures var m := Send(n, id); var db, t := n.world.server.db, n.truth;
      && m.world == n.world && m.truth == t && (m.tasks == n.tasks || m.threads == n.threads)
      && id in m.tasks && m.tasks == n.tasks[id := m.tasks[id]] && TaskGood(db, t, m.tasks[id])
      && (m.threads == n.threads
          || (id in m.threads && m.threads == n.threads[id := m.threads[id]]
              && ThreadGood(db, t, m.tasks[id], m.threads[id])))
  {
    hide Sound, TaskGood, NextRequest, RequestFits, WithKeys, ThreadGood, TablesGood, SessionGood;
    var db, t, task := n.world.server.db, n.truth, n.tasks[id];
    EndedGood(db, t, task);
    SoundParts(n.world, t, kdf, []);
    assert n.tasks[id := task] == n.tasks;
    if Open(task) && KnowsKeys(task) {
      OwnKeysHeld(db, t, task);
      WithKeysGood(db, t, task);
    } else if Open(task) && NextRequest(task).Some? {
      StartGood(db, t, task, NextRequest(task).value);
    }
  }

  lemma OwnKeysHeld(db: Tables, t: Truth, task: Task)
    requires AsksContact(task) && TaskGood(db, t, task)
    ensures task.a.username in db.users && Held(db, task.a.username) == Bundle(task.a.sigPub, task.a.dhPub)
  {
    hide FromHex, ParcelOf, ShareInputsOk;
  }

  lemma StartGood(db: Tables, t: Truth, task: Task, r: Request)
    requires Open(task) && NextRequest(task) == Some(r)
    ensures ThreadGood(db, t, task, Start(r))
  {
    hide NextRequest, TaskGood, SelfShare, FromHex;
  }

  lemma AdvanceSound(n: Scene, kdf: Kdf, id: nat, env: Env)
    requires P256.StandardFacts() && SceneSound(n, kdf) && id in n.tasks
    ensures var m := Advance(n, id, env);
      SceneSound(m, kdf) && Extends(n.world.server.db, n.truth, m.world.server.db, m.truth)
  {
    hide P256.StandardFacts, Sound, Extends, TaskGood, ThreadGood, Send, Receive, Work, Sensible, TablesGood;
    var db, t := n.world.server.db, n.truth;
    ExtendsReflexive(db, t);
    if id !in n.threads {
      SendGood(n, kdf, id);
    } else if n.threads[id].Finished? {
      ThreadOpen(db, t, n.tasks[id], n.threads[id]);
      ReceiveSound(n, kdf, id);
    } else {
      ThreadOpen(db, t, n.tasks[id], n.threads[id]);
      WorkSound(n, kdf, id, env);
    }
  }

  lemma ThreadOpen(db: Tables, t: Truth, task: Task, pc: Pc)
    requires ThreadGood(db, t, task, pc)
    ensures Open(task) && Sensible(pc)
  {
  }

  lemma ReceiveSound(n: Scene, kdf: Kdf, id: nat)
    requires SceneSound(n, kdf) && id in n.tasks && id in n.threads && n.threads[id].Finished? && Open(n.tasks[id])
    ensures SceneSound(Receive(n, id), kdf)
    ensures Receive(n, id).world.server == n.world.server && Receive(n, id).truth == n.truth
  {
    hide Sound, TaskGood, ThreadGood, Continue, Heard, TrustGood, TablesGood;
    var w, task, pc := n.world, n.tasks[id], n.threads[id];
    ContinueGood(w, n.truth, kdf, task, pc);
    if AsksContact(task) {
      TrustStepSound(w, n.truth, kdf, task.a.username,
                     Continue(TrustOf(w, task.a.username), task, Heard(pc.request, pc.reply)).0);
    }
  }

  lemma WorkSound(n: Scene, kdf: Kdf, id: nat, env: Env)
    requires P256.StandardFacts() && SceneSound(n, kdf) && id in n.tasks && id in n.threads
    requires !n.threads[id].Finished? && Sensible(n.threads[id])
    ensures var m := Work(n, id, env);
      SceneSound(m, kdf) && Extends(n.world.server.db, n.truth, m.world.server.db, m.truth)
  {
    hide P256.StandardFacts, Sound, Extends, TaskGood, ThreadGood, Step, Sensible, Recorded, TablesGood;
    var db, t, m := n.world.server.db, n.truth, Work(n, id, env);
    WorkKeeps(n, kdf, id, env);
    SoundParts(n.world, t, kdf, []);
    OthersStay(n, m, {id});
  }

  /** What everybody else holds stays true when the tables extend. */
  lemma OthersStay(n: Scene, m: Scene, changed: set<nat>)
    requires TablesGood(n.world.server.db, n.truth)
    requires Extends(n.world.server.db, n.truth, m.world.server.db, m.truth)
    requires forall j <- n.tasks :: TaskGood(n.world.server.db, n.truth, n.tasks[j])
    requires forall j <- n.threads :: j in n.tasks && ThreadGood(n.world.server.db, n.truth, n.tasks[j], n.threads[j])
    requires m.tasks == n.tasks
    requires (forall j <- m.threads :: j in changed || (j in n.threads && m.threads[j] == n.threads[j]))
    ensures forall j <- m.tasks :: TaskGood(m.world.server.db, m.truth, m.tasks[j])
    ensures forall j <- m.threads ::
              j in changed || (j in m.tasks && ThreadGood(m.world.server.db, m.truth, m.tasks[j], m.threads[j]))
  {
    hide TablesGood, Extends, TaskGood, ThreadGood;
    forall j | j in m.tasks ensures TaskGood(m.world.server.db, m.truth, m.tasks[j]) {
      TaskGoodExtends(n.world.server.db, n.truth, m.world.server.db, m.truth, n.tasks[j]);
    }
    forall j | j in m.threads && j !in changed
      ensures j in m.tasks && ThreadGood(m.world.server.db, m.truth, m.tasks[j], m.threads[j])
    {
      ThreadGoodExtends(n.world.server.db, n.truth, m.world.server.db, m.truth, n.tasks[j], n.threads[j]);
    }
  }

  lemma BegunGood(w: World, t: Truth, kdf: Kdf, task: Task)
    requires Sound(w, t, kdf) && MayBegin(w, task)
    ensures TaskGood(w.server.db, t, task)
  {
    hide Sound, TablesGood, SessionGood, UploadInputsOk, ShareInputsOk;
    SoundParts(w, t, kdf, task.a.username);
  }

  lemma WholeSound(n: Scene, kdf: Kdf, c: Call, env: Env)
    requires P256.StandardFacts() && SceneSound(n, kdf) && Honest(n.world, n.truth, kdf, c, env)
    ensures var m := Next(n, kdf, Whole(c, env));
      SceneSound(m, kdf) && Extends(n.world.server.db, n.truth, m.world.server.db, m.truth)
  {
    hide P256.StandardFacts, Sound, Extends, TaskGood, ThreadGood, Runs.Apply, Learn, Honest, TablesGood, Advance;
    var w, t := n.world, n.truth;
    var m := Next(n, kdf, Whole(c, env));
    SoundParts(w, t, kdf, []);
    CallSound(w, t, kdf, c, env);
    OthersStay(n, m, {});
  }

  lemma NextSound(n: Scene, kdf: Kdf, e: Event)
    requires P256.StandardFacts() && SceneSound(n, kdf)
    requires e.Whole? ==> Honest(n.world, n.truth, kdf, e.call, e.env)
    ensures var m := Next(n, kdf, e);
      SceneSound(m, kdf) && Extends(n.world.server.db, n.truth, m.world.server.db, m.truth)
  {
    hide P256.StandardFacts, Sound, Extends, TaskGood, ThreadGood, Advance, Runs.Apply, Learn, Honest, MayBegin,
         TablesGood;
    ExtendsReflexive(n.world.server.db, n.truth);
    match e
    case Whole(c, env) => WholeSound(n, kdf, c, env);
    case Begin(id, task) =>
      if MayBegin(n.world, task) {
        BegunGood(n.world, n.truth, kdf, task);
      }
    case Proceed(id, env) =>
      if id in n.tasks {
        AdvanceSound(n, kdf, id, env);
      }
  }

  // ---- The theorems ---------------------------------------------------------------------------

  /** However uploads, shares and downloads overlap, all rows, files, sessions and trust stores stay
      right, and so does what every client holds between its requests. */
  lemma {:induction false} OverlappedRunSound(kdf: Kdf, es: seq<Event>)
    requires P256.StandardFacts() && HonestRun(kdf, es)
    ensures SceneSound(After(kdf, es), kdf)
  {
    hide P256.StandardFacts, Sound, Next, Honest, TaskGood, ThreadGood;
    if es == [] {
      StartSound(kdf);
    } else {
      OverlappedRunSound(kdf, es[..|es| - 1]);
      NextSound(After(kdf, es[..|es| - 1]), kdf, es[|es| - 1]);
    }
  }

  /** What was chosen at an upload is never revised. */
  lemma {:induction false} OverlappedHistory(kdf: Kdf, es: seq<Event>, m: nat)
    requires P256.StandardFacts() && HonestRun(kdf, es) && m <= |es|
    ensures var a, b := After(kdf, es[..m]), After(kdf, es);
      Extends(a.world.server.db, a.truth, b.world.server.db, b.truth)
    decreases |es|
  {
    hide P256.StandardFacts, Sound, Next, Honest, Extends, TaskGood, ThreadGood;
    var a, b := After(kdf, es[..m]), After(kdf, es);
    if m == |es| {
      assert es[..m] == es;
      ExtendsReflexive(a.world.server.db, a.truth);
    } else {
      var es' := es[..|es| - 1];
      var c := After(kdf, es');
      assert es'[..m] == es[..m];
      OverlappedHistory(kdf, es', m);
      OverlappedRunSound(kdf, es');
      NextSound(c, kdf, es[|es| - 1]);
      ExtendsTransitive(a.world.server.db, a.truth, c.world.server.db, c.truth, b.world.server.db, b.truth);
    }
  }

  // ---- What was uploaded ------------------------------------------------------------------------

  /** What an upload chose: the identifier, and owner, file key and bytes. */
  datatype Choice = Choice(docId: seq<Byte>, file: File)

  /** The upload whose document the event may store. */
  function UploadIn(n: Scene, e: Event): Option<Choice> {
    hide *;
    match e
    case Whole(c, _) =>
      if c.UploadCall? && c.name in n.world.sessions
      then Some(Choice(c.upload.document.docId,
                       File(n.world.sessions[c.name].username, c.upload.document.fk, c.content)))
      else None
    case Begin(_, _) => None
    case Proceed(id, _) =>
      if id in n.tasks && n.tasks[id].Uploading?
      then Some(Choice(n.tasks[id].upload.document.docId,
                       File(n.tasks[id].a.username, n.tasks[id].upload.document.fk, n.tasks[id].content)))
      else None
  }

  /** Event m stores the document of an upload. */
  ghost predicate Stores(kdf: Kdf, es: seq<Event>, m: nat, c: Choice) {
    hide *;
    && m < |es| && UploadIn(After(kdf, es[..m]), es[m]) == Some(c)
    && c.docId !in After(kdf, es[..m]).world.server.db.documents
    && c.docId in After(kdf, es[..m + 1]).world.server.db.documents
  }

  /** One event adds to the truth exactly what an upload stores. */
  lemma NextTruth(n: Scene, kdf: Kdf, e: Event)
    ensures var m := Next(n, kdf, e);
      m.truth.files ==
        match UploadIn(n, e)
        case None => n.truth.files
        case Some(c) =>
          if c.docId in m.world.server.db.documents && c.docId !in n.world.server.db.documents
          then n.truth.files[c.docId := c.file] else n.truth.files
  {
    hide Step, Sensible, NextRequest, RequestFits, WithKeys, Continue, Heard, MayBegin, UploadFile, SignUp, LogIn,
         SwitchPassword, ShareWith, DownloadFile, TrustStore.Verify;
  }

  lemma AfterEvent(kdf: Kdf, es: seq<Event>, m: nat)
    requires m < |es|
    ensures After(kdf, es[..m + 1]) == Next(After(kdf, es[..m]), kdf, es[m])
  {
    hide Next;
    assert es[..m + 1][..m] == es[..m];
  }

  /** The truth keeps what an upload chose. */
  lemma StoredIsTrue(kdf: Kdf, es: seq<Event>, m: nat, c: Choice)
    requires P256.StandardFacts() && HonestRun(kdf, es) && Stores(kdf, es, m, c)
    ensures c.docId in After(kdf, es).truth.files && After(kdf, es).truth.files[c.docId] == c.file
  {
    hide P256.StandardFacts, After, HonestRun, Next, UploadIn, Extends;
    var next, last := After(kdf, es[..m + 1]), After(kdf, es);
    AfterEvent(kdf, es, m);
    NextTruth(After(kdf, es[..m]), kdf, es[m]);
    OverlappedHistory(kdf, es, m + 1);
    FileStays(next.world.server.db, next.truth, last.world.server.db, last.truth, c.docId);
  }

  /** And holds nothing else: every file in it was stored by an upload of the run. */
  lemma {:induction false} TruthIsStored(kdf: Kdf, es: seq<Event>, docId: seq<Byte>)
    requires docId in After(kdf, es).truth.files
    ensures exists m: nat :: Stores(kdf, es, m, Choice(docId, After(kdf, es).truth.files[docId]))
  {
    hide Next, UploadIn;
    if es != [] {
      var k := |es| - 1;
      var y, c := After(kdf, es[..k]), Choice(docId, After(kdf, es).truth.files[docId]);
      assert es[..k + 1] == es;
      NextTruth(y, kdf, es[k]);
      if docId in y.truth.files && y.truth.files[docId] == c.file {
        TruthIsStored(kdf, es[..k], docId);
        var m: nat :| Stores(kdf, es[..k], m, c);
        StoresGrows(kdf, es, k, m, c);
      } else {
        assert Stores(kdf, es, k, c);
      }
    }
  }

  lemma StoresGrows(kdf: Kdf, es: seq<Event>, k: nat, m: nat, c: Choice)
    requires k <= |es| && Stores(kdf, es[..k], m, c)
    ensures Stores(kdf, es, m, c)
  {
    hide After, UploadIn;
    assert es[..k][..m] == es[..m] && es[..k][..m + 1] == es[..m + 1];
  }

  /** When a client hears that its document was accepted, some earlier event of the run has stored it;
      this is the choice that the upload made. */
  lemma ConfirmedIsStored(kdf: Kdf, es: seq<Event>, id: nat)
    requires P256.StandardFacts() && HonestRun(kdf, es)
    requires var n := After(kdf, es);
      id in n.tasks && n.tasks[id].Uploading?
      && id in n.threads && n.threads[id].Finished? && n.threads[id].reply.Uploaded?
    ensures var task := After(kdf, es).tasks[id]; var i := task.upload.document;
      exists m: nat :: Stores(kdf, es, m, Choice(i.docId, File(task.a.username, i.fk, task.content)))
  {
    hide P256.StandardFacts, After, HonestRun, Sound, Stores, TaskGood, NextRequest, SelfShare, Sensible;
    OverlappedRunSound(kdf, es);
    var n := After(kdf, es);
    assert ThreadGood(n.world.server.db, n.truth, n.tasks[id], n.threads[id]);
    TruthIsStored(kdf, es, n.tasks[id].upload.document.docId);
  }

  /** A whole upload that completes stores its document at once. */
  lemma CompletedIsStored(kdf: Kdf, es: seq<Event>, m: nat)
    requires m < |es| && es[m].Whole? && es[m].call.UploadCall?
    requires Runs.Apply(After(kdf, es[..m]).world, kdf, es[m].call, es[m].env).1
    ensures UploadIn(After(kdf, es[..m]), es[m]).Some?
    ensures Stores(kdf, es, m, UploadIn(After(kdf, es[..m]), es[m]).value)
  {
    hide After, UploadFile, SignUp, LogIn, SwitchPassword, ShareWith, DownloadFile, TrustStore.Verify, Advance,
         MayBegin;
    AfterEvent(kdf, es, m);
    var n, c := After(kdf, es[..m]), es[m].call;
    UploadIsNew(n.world.server, n.world.sessions[c.name], c.filename, c.content, c.upload, es[m].env);
  }

  // ---- What readers get -------------------------------------------------------------------------

  /** A download that ends with bytes ends with the bytes and the owner in the truth, whatever other
      requests came between its own. */
  lemma DeliveredIsOriginal(kdf: Kdf, es: seq<Event>, id: nat)
    requires P256.StandardFacts() && HonestRun(kdf, es)
    requires id in After(kdf, es).tasks && After(kdf, es).tasks[id].Delivering?
    ensures var n := After(kdf, es); var task := n.tasks[id];
      FromHex(task.docIdHex).Some? && FromHex(task.docIdHex).value in n.truth.files
      && task.delivered == Original(n.truth, FromHex(task.docIdHex).value)
  {
    hide P256.StandardFacts, After, HonestRun, Sound, FromHex;
    OverlappedRunSound(kdf, es);
    assert TaskGood(After(kdf, es).world.server.db, After(kdf, es).truth, After(kdf, es).tasks[id]);
  }

  /** So it ends with what the upload that stored the document had chosen; there always is one. */
  lemma DeliveredIsUploaded(kdf: Kdf, es: seq<Event>, id: nat)
    requires P256.StandardFacts() && HonestRun(kdf, es)
    requires id in After(kdf, es).tasks && After(kdf, es).tasks[id].Delivering?
    ensures var task := After(kdf, es).tasks[id];
      && (exists m: nat, c: Choice :: Stores(kdf, es, m, c) && FromHex(task.docIdHex) == Some(c.docId))
      && (forall m: nat, c: Choice | Stores(kdf, es, m, c) && FromHex(task.docIdHex) == Some(c.docId) ::
            task.delivered == Delivered(c.file.content, c.file.owner))
  {
    hide P256.StandardFacts, After, HonestRun, FromHex, Stores;
    DeliveredIsOriginal(kdf, es, id);
    var docId := FromHex(After(kdf, es).tasks[id].docIdHex).value;
    TruthIsStored(kdf, es, docId);
    var m: nat :| Stores(kdf, es, m, Choice(docId, After(kdf, es).truth.files[docId]));
    assert Some(Choice(docId, After(kdf, es).truth.files[docId]).docId) == FromHex(After(kdf, es).tasks[id].docIdHex);
    forall m: nat, c: Choice | Stores(kdf, es, m, c) && c.docId == docId
      ensures c.file == After(kdf, es).truth.files[docId]
    {
      StoredIsTrue(kdf, es, m, c);
    }
  }

  /** Under every overlapped run, too, each stored share gives its recipient the file key of its
      document in the truth. */
  lemma EveryOverlappedShareOpens(kdf: Kdf, es: seq<Event>, k: ShareKey)
    requires P256.StandardFacts() && HonestRun(kdf, es) && k in After(kdf, es).world.server.db.shares
    ensures var n := After(kdf, es); var share := UnpackShare(n.world.server.db.shares[k].blob);
      share.Some? && k.recipient in n.truth.users && k.docId in n.truth.files
      && UnwrapFk(n.truth.users[k.recipient].dhPriv, share.value) == Some(n.truth.files[k.docId].fk)
  {
    hide P256.StandardFacts, After, HonestRun, UnpackShare, UnwrapFk, UserGood, DocumentGood, UnpackDocument,
         ShareSigned, ClientsGood, TaskGood, Sha256.Digest;
    OverlappedRunSound(kdf, es);
    var n := After(kdf, es);
    assert ShareGood(n.world.server.db, n.truth, k, n.world.server.db.shares[k]);
  }

  /** That is the file key drawn by the upload that stored the document. */
  lemma SharesCarryStoredKey(kdf: Kdf, es: seq<Event>, m: nat, c: Choice, k: ShareKey)
    requires P256.StandardFacts() && HonestRun(kdf, es) && k in After(kdf, es).world.server.db.shares
    requires Stores(kdf, es, m, c) && k.docId == c.docId
    ensures var n := After(kdf, es); var share := UnpackShare(n.world.server.db.shares[k].blob);
      share.Some? && k.recipient in n.truth.users
      && UnwrapFk(n.truth.users[k.recipient].dhPriv, share.value) == Some(c.file.fk)
  {
    hide P256.StandardFacts, After, HonestRun, UnpackShare, UnwrapFk, Stores;
    StoredIsTrue(kdf, es, m, c);
    EveryOverlappedShareOpens(kdf, es, k);
  }
}
