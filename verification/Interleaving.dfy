/** The server under every schedule: threads serve requests at the same time, and the steps of
    their handlers interleave in any order. */
module Interleaving {
  import opened Bits
  import opened Wrappers
  import opened Utf8
  import opened Database
  import opened Formats
  import opened Server
  import Ecdsa
  import P256
  import Session

  /** The shared state and, for every request that has arrived, where its thread stands. */
  datatype System = System(shared: State, threads: map<nat, Pc>)

  datatype Event = Arrive(id: nat, request: Request) | Advance(id: nat, env: Env)

  /** Reusing the name of a thread, or advancing one that does not exist, does nothing. */
  function Next(y: System, e: Event): System
    requires AllSensible(y)
  {
    match e
    case Arrive(id, r) => if id in y.threads then y else y.(threads := y.threads[id := Start(r)])
    case Advance(id, env) =>
      if id !in y.threads then y
      else
        var (s, pc) := Step(y.shared, y.threads[id], env);
        System(s, y.threads[id := pc])
  }

  ghost predicate AllSensible(y: System) {
    forall id <- y.threads :: Sensible(y.threads[id])
  }

  /** A server started on the given tables, after a schedule of events. */
  ghost function After(start: Tables, es: seq<Event>): (y: System)
    ensures AllSensible(y)
  {
    if es == [] then System(State(start, Session.Contents({}, map[])), map[])
    else Next(After(start, es[..|es| - 1]), es[|es| - 1])
  }

  // ---- The invariants ----------------------------------------------------------------

  /** The columns of a document row repeat its blob's header, and its owner is registered. */
  predicate DocumentOk(t: Tables, docId: seq<Byte>, row: Document) {
    && UnpackDocument(row.blob).Some?
    && UnpackDocument(row.blob).value.header == DocumentHeader(docId, row.owner, row.version, row.createdMs)
    && row.version == 1 && row.owner in t.users
  }

  /** The key and the time of a share row repeat its blob, and what it refers to exists. */
  predicate ShareOk(t: Tables, k: ShareKey, row: ShareRow) {
    && UnpackShare(row.blob).Some?
    && UnpackShare(row.blob).value.docId == k.docId
    && UnpackShare(row.blob).value.recipient == k.recipient
    && UnpackShare(row.blob).value.issuedMs == row.issuedMs
    && k.docId in t.documents && k.recipient in t.users && UnpackShare(row.blob).value.sender in t.users
  }

  ghost predicate TablesOk(t: Tables) {
    && (forall docId <- t.documents :: DocumentOk(t, docId, t.documents[docId]))
    && (forall k <- t.shares :: ShareOk(t, k, t.shares[k]))
  }

  /** The thread is behind the nonce check. */
  predicate Passed(pc: Pc) {
    match pc
    case Start(_) => false
    case Signed(_) => false
    case Asked(_, _) => false
    case Finished(_, _, passed) => passed
    case _ => true
  }

  predicate PastSignature(pc: Pc) {
    pc.Signed? || Passed(pc)
  }

  /** What a thread has seen still holds: nothing it relies on is ever taken away. */
  predicate PcOk(s: State, pc: Pc) {
    hide Session.SignedBy, UnpackShare, FromHex, Encode, Canonical;
    var r := pc.request;
    && Sensible(pc)
    && (PastSignature(pc) ==> Authenticated(r) && Caller(r) in s.db.users)
    && (PastSignature(pc) && !r.ChangePassword? ==>
          Session.SignedBy(s.db.users[Caller(r)].sigPub, Canonical(r), r.signature))
    && (Passed(pc) ==> r.nonce in s.session.usedNonces)
    && (pc.RecipientFound? || pc.DocumentFound? ==> r.recipient in s.db.users)
    && (pc.DocumentFound? ==> NewShareRow(r).value.key.docId in s.db.documents)
  }

  /** What no step ever undoes: accounts keep their identity keys, documents stay as they are,
      shares are only added or replaced, and nonces stay used. */
  ghost predicate Grows(s: State, s': State) {
    && (forall u <- s.db.users :: KeepsKeys(s.db, s'.db, u))
    && (forall d <- s.db.documents :: d in s'.db.documents && s'.db.documents[d] == s.db.documents[d])
    && (forall k <- s.db.shares :: k in s'.db.shares)
    && s.session.usedNonces <= s'.session.usedNonces
  }

  predicate KeepsKeys(t: Tables, t': Tables, u: Str)
    requires u in t.users
  {
    u in t'.users && t'.users[u].sigPub == t.users[u].sigPub && t'.users[u].dhPub == t.users[u].dhPub
  }

  // ---- One step keeps them -----------------------------------------------------------------

  lemma EarlyStepGrows(s: State, pc: Pc, env: Env)
    requires Sensible(pc) && (pc.Start? || pc.Signed? || pc.Asked? || pc.Finished?)
    ensures Grows(s, Step(s, pc, env).0)
  {
    hide Session.SignedBy, UploadRow, NewShareRow, FromHex, LoginVerifies, LoginSalt, Encode, Canonical, CheckCaller;
  }

  lemma LateStepGrows(s: State, pc: Pc, env: Env)
    requires Sensible(pc) && Passed(pc)
    ensures Grows(s, Step(s, pc, env).0)
  {
    hide Session.SignedBy, UploadRow, NewShareRow, FromHex, Encode, Canonical;
  }

  lemma StepGrows(s: State, pc: Pc, env: Env)
    requires Sensible(pc)
    ensures Grows(s, Step(s, pc, env).0)
  {
    hide Step, Grows, Sensible;
    if Passed(pc) {
      LateStepGrows(s, pc, env);
    } else {
      EarlyStepGrows(s, pc, env);
    }
  }

  lemma GrowsTransitive(a: State, b: State, c: State)
    requires Grows(a, b) && Grows(b, c)
    ensures Grows(a, c)
  {
    forall u | u in a.db.users ensures KeepsKeys(a.db, c.db, u) {
      assert KeepsKeys(a.db, b.db, u);
      assert KeepsKeys(b.db, c.db, u);
    }
  }

  lemma PcOkGrows(s: State, s': State, pc: Pc)
    requires PcOk(s, pc) && Grows(s, s')
    ensures PcOk(s', pc)
  {
    hide Session.SignedBy, NewShareRow, Canonical;
    if PastSignature(pc) {
      assert KeepsKeys(s.db, s'.db, Caller(pc.request));
    }
    if pc.RecipientFound? || pc.DocumentFound? {
      assert KeepsKeys(s.db, s'.db, pc.request.recipient);
    }
  }

  /** The rows of t would be right beside the other tables of t'. */
  ghost predicate RowsOk(t': Tables, t: Tables) {
    && (forall docId <- t.documents :: DocumentOk(t', docId, t.documents[docId]))
    && (forall k <- t.shares :: ShareOk(t', k, t.shares[k]))
  }

  lemma RowsOkGrow(s: State, s': State)
    requires TablesOk(s.db) && Grows(s, s')
    ensures RowsOk(s'.db, s.db)
  {
    hide UnpackDocument, UnpackShare;
    forall docId | docId in s.db.documents ensures DocumentOk(s'.db, docId, s.db.documents[docId]) {
      assert DocumentOk(s.db, docId, s.db.documents[docId]);
      assert KeepsKeys(s.db, s'.db, s.db.documents[docId].owner);
    }
    forall k | k in s.db.shares ensures ShareOk(s'.db, k, s.db.shares[k]) {
      assert ShareOk(s.db, k, s.db.shares[k]);
      assert KeepsKeys(s.db, s'.db, k.recipient);
      assert KeepsKeys(s.db, s'.db, UnpackShare(s.db.shares[k].blob).value.sender);
    }
  }

  /** Only these two steps write documents and shares. */
  lemma NewRowsOk(s: State, r: Request)
    requires PcOk(s, Admitted(r)) && r.Upload? && UploadRow(r).Ok? && UploadRow(r).value.row.version == 1
    ensures DocumentOk(s.db, UploadRow(r).value.docId, UploadRow(r).value.row)
  {
    hide UnpackDocument, Session.SignedBy;
  }

  lemma NewShareOk(s: State, r: Request)
    requires PcOk(s, DocumentFound(r))
    ensures ShareOk(s.db, NewShareRow(r).value.key, NewShareRow(r).value.row)
  {
    hide UnpackShare, Session.SignedBy, FromHex;
  }

  /** t' has the document rows of t, or one more that is right. */
  predicate DocumentsWritten(t: Tables, t': Tables, n: NewDocument) {
    t'.documents == t.documents
    || (t'.documents == t.documents[n.docId := n.row] && DocumentOk(t', n.docId, n.row))
  }

  predicate SharesWritten(t: Tables, t': Tables, n: NewShare) {
    t'.shares == t.shares || (t'.shares == t.shares[n.key := n.row] && ShareOk(t', n.key, n.row))
  }

  lemma WritesKeepTables(t: Tables, t': Tables, d: NewDocument, n: NewShare)
    requires RowsOk(t', t) && DocumentsWritten(t, t', d) && SharesWritten(t, t', n)
    ensures TablesOk(t')
  {
    hide DocumentOk, ShareOk;
  }

  /** What a step writes into the two tables. */
  lemma StepWrites(s: State, pc: Pc, env: Env)
    requires Sensible(pc)
    ensures var t, t' := s.db, Step(s, pc, env).0.db;
      && (t'.documents == t.documents
          || (pc.Admitted? && pc.request.Upload? && UploadRow(pc.request).Ok?
              && UploadRow(pc.request).value.row.version == 1
              && t'.documents == t.documents[UploadRow(pc.request).value.docId := UploadRow(pc.request).value.row]))
      && (t'.shares == t.shares
          || (pc.DocumentFound?
              && t'.shares == t.shares[NewShareRow(pc.request).value.key := NewShareRow(pc.request).value.row]))
  {
    hide Session.SignedBy, UploadRow, NewShareRow, FromHex, LoginVerifies, LoginSalt, Encode, Canonical;
  }

  lemma StepKeepsTables(s: State, pc: Pc, env: Env)
    requires TablesOk(s.db) && PcOk(s, pc)
    ensures TablesOk(Step(s, pc, env).0.db)
  {
    assert Sensible(pc);
    hide Step, Session.SignedBy, UploadRow, NewShareRow, PcOk, DocumentOk, ShareOk, Grows, TablesOk, RowsOk;
    var r, s' := pc.request, Step(s, pc, env).0;
    StepGrows(s, pc, env);
    StepWrites(s, pc, env);
    PcOkGrows(s, s', pc);
    RowsOkGrow(s, s');
    var d := NewDocument([], Document([], 1, 0, []));
    if s'.db.documents != s.db.documents {
      NewRowsOk(s', r);
      d := UploadRow(r).value;
    }
    var n := NewShare(ShareKey([], []), ShareRow([], 0));
    if s'.db.shares != s.db.shares {
      NewShareOk(s', r);
      n := NewShareRow(r).value;
    }
    WritesKeepTables(s.db, s'.db, d, n);
  }

  lemma StartKeepsPc(s: State, pc: Pc, env: Env)
    requires PcOk(s, pc) && pc.Start?
    ensures PcOk(Step(s, pc, env).0, Step(s, pc, env).1)
  {
    hide Session.SignedBy, UploadRow, NewShareRow, FromHex, LoginVerifies, LoginSalt, Encode, Canonical;
  }

  lemma LaterKeepsPc(s: State, pc: Pc, env: Env)
    requires PcOk(s, pc) && (pc.Signed? || pc.Admitted? || pc.Asked? || pc.Finished?)
    ensures PcOk(Step(s, pc, env).0, Step(s, pc, env).1)
  {
    hide Session.SignedBy, UploadRow, NewShareRow, FromHex, LoginVerifies, LoginSalt, Encode, Canonical;
  }

  lemma LastKeepsPc(s: State, pc: Pc, env: Env)
    requires PcOk(s, pc) && (pc.RecipientFound? || pc.DocumentFound? || pc.Fetched?)
    ensures PcOk(Step(s, pc, env).0, Step(s, pc, env).1)
  {
    hide Session.SignedBy, NewShareRow, FromHex, Encode, Canonical;
  }

  lemma StepKeepsPc(s: State, pc: Pc, env: Env)
    requires PcOk(s, pc)
    ensures PcOk(Step(s, pc, env).0, Step(s, pc, env).1)
  {
    hide PcOk, Step;
    if pc.Start? {
      StartKeepsPc(s, pc, env);
    } else if pc.RecipientFound? || pc.DocumentFound? || pc.Fetched? {
      LastKeepsPc(s, pc, env);
    } else {
      LaterKeepsPc(s, pc, env);
    }
  }

  /** A thread gets behind the nonce check only with a nonce nobody used before. */
  lemma PassingIsFresh(s: State, pc: Pc, env: Env)
    requires Sensible(pc)
    ensures Passed(pc) ==> Passed(Step(s, pc, env).1)
    ensures !Passed(pc) && Passed(Step(s, pc, env).1) ==>
              Authenticated(pc.request) && pc.request.nonce !in s.session.usedNonces
              && pc.request.nonce in Step(s, pc, env).0.session.usedNonces
  {
    hide Session.SignedBy, UploadRow, NewShareRow, FromHex, LoginVerifies, LoginSalt, Encode, Canonical;
  }

  // ---- Every schedule keeps them -----------------------------------------------------------

  ghost predicate ThreadsOk(y: System) {
    forall id <- y.threads :: PcOk(y.shared, y.threads[id])
  }

  /** Two threads behind the nonce check hold different nonces. */
  predicate Apart(p: Pc, q: Pc) {
    Passed(p) && Passed(q) ==> NonceOf(p.request) != NonceOf(q.request)
  }

  function NonceOf(r: Request): Str {
    if Authenticated(r) then r.nonce else []
  }

  ghost predicate NoncesApart(y: System) {
    forall i <- y.threads, j <- y.threads :: i != j ==> Apart(y.threads[i], y.threads[j])
  }

  lemma NextKeepsThreads(y: System, e: Event)
    requires AllSensible(y) && ThreadsOk(y)
    ensures ThreadsOk(Next(y, e)) && Grows(y.shared, Next(y, e).shared)
  {
    hide PcOk, Step, Grows;
    var y' := Next(y, e);
    if e.Advance? && e.id in y.threads {
      StepGrows(y.shared, y.threads[e.id], e.env);
      StepKeepsPc(y.shared, y.threads[e.id], e.env);
    } else {
      GrowsReflexive(y.shared);
      ArrivalOk(y.shared, e);
    }
    forall id | id in y'.threads ensures PcOk(y'.shared, y'.threads[id]) {
      if id in y.threads && y'.threads[id] == y.threads[id] {
        PcOkGrows(y.shared, y'.shared, y.threads[id]);
      }
    }
  }

  lemma ArrivalOk(s: State, e: Event)
    ensures e.Arrive? ==> PcOk(s, Start(e.request))
  {
  }

  lemma GrowsReflexive(s: State)
    ensures Grows(s, s)
  {
  }

  lemma MovedApart(s: State, pc: Pc, q: Pc, env: Env)
    requires Sensible(pc) && PcOk(s, q) && Apart(pc, q)
    ensures Apart(Step(s, pc, env).1, q)
  {
    PassingIsFresh(s, pc, env);
    StepRequest(s, pc, env);
    hide Step, Session.SignedBy, NewShareRow, Canonical;
  }

  lemma NextKeepsApart(y: System, e: Event)
    requires AllSensible(y) && ThreadsOk(y) && NoncesApart(y)
    ensures NoncesApart(Next(y, e))
  {
    hide Step, PcOk, Passed, NonceOf;
    var y' := Next(y, e);
    forall i, j | i in y'.threads && j in y'.threads && i != j ensures Apart(y'.threads[i], y'.threads[j]) {
      if e.Advance? && e.id in y.threads {
        assert Apart(y.threads[i], y.threads[j]) && Apart(y.threads[j], y.threads[i]);
        if i == e.id {
          MovedApart(y.shared, y.threads[i], y.threads[j], e.env);
        } else if j == e.id {
          MovedApart(y.shared, y.threads[j], y.threads[i], e.env);
        }
      } else if e.Arrive? && e.id !in y.threads {
        StartedApart(e.request, y'.threads[i], y'.threads[j]);
        assert i in y.threads && j in y.threads ==> Apart(y.threads[i], y.threads[j]);
      }
    }
  }

  lemma StartedApart(r: Request, p: Pc, q: Pc)
    ensures p == Start(r) || q == Start(r) ==> Apart(p, q)
  {
  }

  lemma StepRequest(s: State, pc: Pc, env: Env)
    requires Sensible(pc)
    ensures Step(s, pc, env).1.request == pc.request
  {
    hide *;
  }

  /** Under every schedule, from tables that are right: the tables stay right, every thread's
      knowledge stays true, and each nonce lets at most one request through. */
  lemma {:induction false} EveryScheduleSafe(start: Tables, es: seq<Event>)
    requires TablesOk(start)
    ensures var y := After(start, es); TablesOk(y.shared.db) && ThreadsOk(y) && NoncesApart(y)
  {
    hide TablesOk, ThreadsOk, NoncesApart, Next;
    if es == [] {
      assert ThreadsOk(After(start, es)) && NoncesApart(After(start, es)) by { NoThreads(start); }
    } else {
      var y, e := After(start, es[..|es| - 1]), es[|es| - 1];
      EveryScheduleSafe(start, es[..|es| - 1]);
      NextKeepsThreads(y, e);
      NextKeepsApart(y, e);
      NextKeepsTables(y, e);
    }
  }

  lemma NoThreads(start: Tables)
    ensures var y := System(State(start, Session.Contents({}, map[])), map[]); ThreadsOk(y) && NoncesApart(y)
  {
  }

  lemma NextKeepsTables(y: System, e: Event)
    requires AllSensible(y) && ThreadsOk(y) && TablesOk(y.shared.db)
    ensures TablesOk(Next(y, e).shared.db)
  {
    hide TablesOk, PcOk, Step;
    if e.Advance? && e.id in y.threads {
      StepKeepsTables(y.shared, y.threads[e.id], e.env);
    }
  }

  /** Along every schedule nothing is taken away: in particular no account's identity keys ever
      change and no document is ever altered. */
  lemma {:induction false} HistoryGrows(start: Tables, es: seq<Event>, m: nat)
    requires TablesOk(start) && m <= |es|
    ensures Grows(After(start, es[..m]).shared, After(start, es).shared)
    decreases |es|
  {
    hide Grows, Next, TablesOk, ThreadsOk, NoncesApart;
    if m == |es| {
      assert es[..m] == es;
      GrowsReflexive(After(start, es).shared);
    } else {
      var es' := es[..|es| - 1];
      assert es'[..m] == es[..m];
      HistoryGrows(start, es', m);
      EveryScheduleSafe(start, es');
      NextKeepsThreads(After(start, es'), es[|es| - 1]);
      GrowsTransitive(After(start, es[..m]).shared, After(start, es').shared, After(start, es).shared);
    }
  }

  // ---- Requests that are turned away -------------------------------------------------------

  /** A step that leaves a signed request outside the nonce check changes nothing, and such a
      request ends, if it ends, in an error. */
  lemma OutsideStep(s: State, pc: Pc, env: Env)
    requires Sensible(pc) && Authenticated(pc.request)
    requires pc.Finished? && !pc.passed ==> pc.reply.Failed?
    ensures var (s', pc') := Step(s, pc, env);
      !Passed(pc') ==> s' == s && (pc'.Finished? ==> pc'.reply.Failed?)
  {
    hide Session.SignedBy, UploadRow, NewShareRow, FromHex, LoginVerifies, LoginSalt, Encode, Canonical;
  }

  ghost predicate FailsOutside(pc: Pc) {
    Authenticated(pc.request) && pc.Finished? && !pc.passed ==> pc.reply.Failed?
  }

  lemma {:induction false} TurnedAwayFails(start: Tables, es: seq<Event>, id: nat)
    requires id in After(start, es).threads
    ensures FailsOutside(After(start, es).threads[id])
  {
    hide Step, Sensible, Authenticated, Passed;
    if es != [] {
      var y, e := After(start, es[..|es| - 1]), es[|es| - 1];
      if id in y.threads {
        TurnedAwayFails(start, es[..|es| - 1], id);
        if e.Advance? && e.id == id {
          StepRequest(y.shared, y.threads[id], e.env);
          FailsOutsideStep(y.shared, y.threads[id], e.env);
        }
      }
    }
  }

  lemma FailsOutsideStep(s: State, pc: Pc, env: Env)
    requires Sensible(pc) && FailsOutside(pc)
    ensures FailsOutside(Step(s, pc, env).1)
  {
    StepRequest(s, pc, env);
    if Authenticated(pc.request) {
      OutsideStep(s, pc, env);
    }
    hide Step, Authenticated;
  }

  lemma {:induction false} ThreadHistory(start: Tables, es: seq<Event>, m: nat, id: nat)
    requires m <= |es| && id in After(start, es[..m]).threads
    ensures id in After(start, es).threads
    ensures After(start, es).threads[id].request == After(start, es[..m]).threads[id].request
    ensures Passed(After(start, es[..m]).threads[id]) ==> Passed(After(start, es).threads[id])
    ensures After(start, es[..m]).threads[id].Finished? ==>
              After(start, es).threads[id] == After(start, es[..m]).threads[id]
    decreases |es|
  {
    hide Step, Sensible, Passed;
    if m == |es| {
      assert es[..m] == es;
    } else {
      var es' := es[..|es| - 1];
      var y, e := After(start, es'), es[|es| - 1];
      assert es'[..m] == es[..m];
      ThreadHistory(start, es', m, id);
      if e.Advance? && e.id == id {
        StepRequest(y.shared, y.threads[id], e.env);
        PassingIsFresh(y.shared, y.threads[id], e.env);
        FinishedStays(y.shared, y.threads[id], e.env);
      }
    }
  }

  lemma FinishedStays(s: State, pc: Pc, env: Env)
    requires Sensible(pc)
    ensures pc.Finished? ==> Step(s, pc, env) == (s, pc)
  {
  }

  /** While a signed request has not got behind the nonce check, none of its steps changed
      anything: neither the tables nor the nonces. */
  lemma TurnedAwayChangesNothing(start: Tables, es: seq<Event>, k: nat, id: nat)
    requires k < |es| && es[k].Advance? && es[k].id == id && id in After(start, es[..k]).threads
    requires id in After(start, es).threads && Authenticated(After(start, es).threads[id].request)
    requires !Passed(After(start, es).threads[id])
    ensures After(start, es[..k + 1]).shared == After(start, es[..k]).shared
  {
    hide Step, Sensible, Passed, Authenticated;
    var y := After(start, es[..k]);
    assert es[..k + 1][..k] == es[..k];
    ThreadHistory(start, es, k, id);
    ThreadHistory(start, es, k + 1, id);
    TurnedAwayFails(start, es[..k], id);
    OutsideStep(y.shared, y.threads[id], es[k].env);
  }

  /** The key a request is checked against: the login key for change_password, else the identity key. */
  function KeyFor(r: Request, u: User): seq<Byte> {
    if r.ChangePassword? then u.authPub else u.sigPub
  }

  /** The request verifies under the key its caller has in the state. */
  predicate VerifiesIn(s: State, r: Request) {
    hide Session.SignedBy, Canonical, Encode;
    Authenticated(r) && Caller(r) in s.db.users
    && Session.SignedBy(KeyFor(r, s.db.users[Caller(r)]), Canonical(r), r.signature)
  }

  /** Past the signature check only through a key that verifies. */
  lemma PassesBySignature(s: State, pc: Pc, env: Env)
    requires Sensible(pc) && PastSignature(Step(s, pc, env).1)
    ensures PastSignature(pc) || VerifiesIn(s, pc.request)
  {
    hide Session.SignedBy, UploadRow, NewShareRow, FromHex, LoginVerifies, LoginSalt, Encode, Canonical;
  }

  /** A request past the signature check verified under a key its caller held at some moment. */
  lemma {:induction false} SignatureWasChecked(start: Tables, es: seq<Event>, id: nat)
    requires id in After(start, es).threads && PastSignature(After(start, es).threads[id])
    ensures exists m :: 0 <= m < |es| && VerifiesIn(After(start, es[..m]).shared, After(start, es).threads[id].request)
  {
    hide Step, Sensible, VerifiesIn;
    if es != [] {
      var k := |es| - 1;
      var y, e := After(start, es[..k]), es[k];
      var r := After(start, es).threads[id].request;
      if id in y.threads {
        if e.Advance? && e.id == id {
          StepRequest(y.shared, y.threads[id], e.env);
          PassesBySignature(y.shared, y.threads[id], e.env);
        }
        if PastSignature(y.threads[id]) {
          SignatureWasChecked(start, es[..k], id);
          var m :| 0 <= m < k && VerifiesIn(After(start, es[..k][..m]).shared, r);
          assert es[..k][..m] == es[..m];
        }
      }
    }
  }

  /** The request verifies under no key its caller ever held. */
  ghost predicate Forged(start: Tables, es: seq<Event>, r: Request) {
    forall m | 0 <= m <= |es| :: !VerifiesIn(After(start, es[..m]).shared, r)
  }

  /** Identity keys never change, so for the other requests the key held at the end decides. */
  lemma ForgedIdentity(start: Tables, es: seq<Event>, r: Request)
    requires TablesOk(start) && !r.ChangePassword? && !VerifiesIn(After(start, es).shared, r)
    ensures Forged(start, es, r)
  {
    hide After, Session.SignedBy, Canonical, TablesOk;
    forall m | 0 <= m <= |es| ensures !VerifiesIn(After(start, es[..m]).shared, r) {
      HistoryGrows(start, es, m);
      assert VerifiesIn(After(start, es[..m]).shared, r) ==>
        KeepsKeys(After(start, es[..m]).shared.db, After(start, es).shared.db, Caller(r));
    }
  }

  /** A request that verifies under no key its caller held gets an error and consumes nothing,
      whatever happens around it; for change_password the key may change meanwhile. */
  lemma ForgeryConsumesNothing(start: Tables, es: seq<Event>, id: nat)
    requires id in After(start, es).threads && Authenticated(After(start, es).threads[id].request)
    requires Forged(start, es, After(start, es).threads[id].request)
    ensures var y := After(start, es);
      !Passed(y.threads[id]) && (y.threads[id].Finished? ==> y.threads[id].reply.Failed?)
    ensures forall k | 0 <= k < |es| && es[k].Advance? && es[k].id == id && id in After(start, es[..k]).threads ::
              After(start, es[..k + 1]).shared == After(start, es[..k]).shared
  {
    hide After, Session.SignedBy, VerifiesIn;
    if PastSignature(After(start, es).threads[id]) {
      SignatureWasChecked(start, es, id);
      assert false;
    }
    TurnedAwayFails(start, es, id);
    forall k | 0 <= k < |es| && es[k].Advance? && es[k].id == id && id in After(start, es[..k]).threads
      ensures After(start, es[..k + 1]).shared == After(start, es[..k]).shared
    {
      TurnedAwayChangesNothing(start, es, k, id);
    }
  }

  /** The 64 bytes of the request are a signature of its text under the key its caller has in the state, by
      the equation that ECDSA verifies. */
  ghost predicate GenuineIn(s: State, r: Request) {
    hide Ecdsa.Genuine, Canonical, Encode;
    && Authenticated(r) && Caller(r) in s.db.users && Encode(Canonical(r)).Some?
    && Ecdsa.Genuine(KeyFor(r, s.db.users[Caller(r)]), Encode(Canonical(r)).value, r.signature)
  }

  lemma VerifiesIffGenuine(s: State, r: Request)
    requires P256.StandardFacts()
    ensures VerifiesIn(s, r) <==> GenuineIn(s, r)
  {
    hide P256.StandardFacts, Session.SignedBy, Ecdsa.Genuine, Canonical, Encode;
    if Authenticated(r) && Caller(r) in s.db.users {
      Session.SignedByIff(KeyFor(r, s.db.users[Caller(r)]), Canonical(r), r.signature);
    }
  }

  /** A request whose signature solves the equation under no key its caller ever held, among them every one
      whose signature is not of 64 bytes or has a half outside [1, N-1], gets an error and consumes nothing. */
  lemma FalseSignatureConsumesNothing(start: Tables, es: seq<Event>, id: nat)
    requires P256.StandardFacts()
    requires id in After(start, es).threads && Authenticated(After(start, es).threads[id].request)
    requires forall m | 0 <= m <= |es| :: !GenuineIn(After(start, es[..m]).shared, After(start, es).threads[id].request)
    ensures var y := After(start, es);
      !Passed(y.threads[id]) && (y.threads[id].Finished? ==> y.threads[id].reply.Failed?)
    ensures forall k | 0 <= k < |es| && es[k].Advance? && es[k].id == id && id in After(start, es[..k]).threads ::
              After(start, es[..k + 1]).shared == After(start, es[..k]).shared
  {
    hide After, P256.StandardFacts, VerifiesIn, GenuineIn;
    var r := After(start, es).threads[id].request;
    forall m | 0 <= m <= |es| ensures !VerifiesIn(After(start, es[..m]).shared, r) {
      VerifiesIffGenuine(After(start, es[..m]).shared, r);
    }
    ForgeryConsumesNothing(start, es, id);
  }

  // ---- Who gets a document -------------------------------------------------------------------

  /** A document that get_doc has read, or delivered, is the stored one, and whoever was given it is its owner
      or holds a share. */
  predicate ReaderSees(s: State, pc: Pc) {
    hide FromHex;
    var docId := if pc.request.GetDoc? then FromHex(pc.request.docIdHex) else None;
    && (pc.Fetched? ==>
          docId.Some? && docId.value in s.db.documents && pc.document == s.db.documents[docId.value])
    && (pc.request.GetDoc? && pc.Finished? && pc.reply.DocReply? ==>
          && docId.Some? && docId.value in s.db.documents && pc.reply.document == s.db.documents[docId.value].blob
          && (s.db.documents[docId.value].owner == pc.request.reader
              || ShareKey(docId.value, pc.request.reader) in s.db.shares))
  }

  lemma ReaderSeesGrows(s: State, s': State, pc: Pc)
    requires ReaderSees(s, pc) && Grows(s, s')
    ensures ReaderSees(s', pc)
  {
    hide FromHex, KeepsKeys;
  }

  lemma ReaderSeesStep(s: State, pc: Pc, env: Env)
    requires Sensible(pc) && ReaderSees(s, pc)
    ensures ReaderSees(Step(s, pc, env).0, Step(s, pc, env).1)
  {
    hide Session.SignedBy, UploadRow, NewShareRow, FromHex, LoginVerifies, LoginSalt, Encode, Canonical, CheckCaller;
  }

  lemma {:induction false} ReadersSee(start: Tables, es: seq<Event>, id: nat)
    requires TablesOk(start) && id in After(start, es).threads
    ensures ReaderSees(After(start, es).shared, After(start, es).threads[id])
  {
    hide Step, Sensible, ReaderSees, TablesOk, Grows;
    if es != [] {
      var y, e := After(start, es[..|es| - 1]), es[|es| - 1];
      HistoryGrows(start, es, |es| - 1);
      if id in y.threads {
        ReadersSee(start, es[..|es| - 1], id);
        if e.Advance? && e.id == id {
          ReaderSeesStep(y.shared, y.threads[id], e.env);
        } else {
          ReaderSeesGrows(y.shared, After(start, es).shared, y.threads[id]);
        }
      } else {
        NothingSeen(After(start, es).shared, After(start, es).threads[id]);
      }
    }
  }

  lemma NothingSeen(s: State, pc: Pc)
    requires pc.Start?
    ensures ReaderSees(s, pc)
  {
  }

  /** Under every interleaving, a GET_DOC request that is answered with a document was signed by its caller,
      who owns the document or holds a share of it, and the answer is the document as it is stored. */
  lemma OnlyReadersGetDocuments(start: Tables, es: seq<Event>, id: nat)
    requires TablesOk(start) && id in After(start, es).threads
    requires var pc := After(start, es).threads[id];
      pc.Finished? && pc.request.GetDoc? && pc.reply.DocReply?
    ensures var y := After(start, es); var pc := y.threads[id]; var docId := FromHex(pc.request.docIdHex);
      && docId.Some? && docId.value in y.shared.db.documents
      && pc.reply.document == y.shared.db.documents[docId.value].blob
      && (y.shared.db.documents[docId.value].owner == pc.request.reader
          || ShareKey(docId.value, pc.request.reader) in y.shared.db.shares)
      && VerifiesIn(y.shared, pc.request)
  {
    hide After, TablesOk, FromHex, Session.SignedBy, Canonical, Encode;
    ReadersSee(start, es, id);
    var y := After(start, es);
    EveryScheduleSafe(start, es);
    if !Passed(y.threads[id]) {
      TurnedAwayFails(start, es, id);
    }
    assert PcOk(y.shared, y.threads[id]);
  }

  /** Thread `first` is behind the nonce check, and `again` has just arrived with the same nonce. */
  ghost predicate Repeats(y: System, first: nat, again: nat) {
    && first in y.threads && Passed(y.threads[first])
    && again in y.threads && y.threads[again].Start? && Authenticated(y.threads[again].request)
    && NonceOf(y.threads[again].request) == NonceOf(y.threads[first].request)
  }

  lemma RepeatNeverPasses(start: Tables, es: seq<Event>, m: nat, first: nat, again: nat)
    requires TablesOk(start) && m <= |es| && Repeats(After(start, es[..m]), first, again)
    ensures again in After(start, es).threads
    ensures Authenticated(After(start, es).threads[again].request) && !Passed(After(start, es).threads[again])
  {
    ThreadHistory(start, es, m, first);
    ThreadHistory(start, es, m, again);
    EveryScheduleSafe(start, es);
    hide After, Passed, NonceOf, PcOk, TablesOk;
    assert Apart(After(start, es).threads[first], After(start, es).threads[again]);
  }

  /** Once a request has been let through, any request that comes later with the same nonce
      fails and changes nothing, at every point of every continuation. */
  lemma ReplayFails(start: Tables, es: seq<Event>, m: nat, first: nat, again: nat)
    requires TablesOk(start) && m <= |es| && Repeats(After(start, es[..m]), first, again)
    ensures again in After(start, es).threads
    ensures var pc := After(start, es).threads[again];
      !Passed(pc) && (pc.Finished? ==> pc.reply.Failed?)
    ensures forall k | m <= k < |es| && es[k].Advance? && es[k].id == again ::
              After(start, es[..k + 1]).shared == After(start, es[..k]).shared
  {
    RepeatNeverPasses(start, es, m, first, again);
    NotPassedFails(start, es, again);
    hide After, Authenticated, Passed, TablesOk;
    forall k | m <= k < |es| && es[k].Advance? && es[k].id == again
      ensures After(start, es[..k + 1]).shared == After(start, es[..k]).shared
    {
      assert es[..k][..m] == es[..m];
      ThreadHistory(start, es[..k], m, again);
      TurnedAwayChangesNothing(start, es, k, again);
    }
  }

  lemma NotPassedFails(start: Tables, es: seq<Event>, id: nat)
    requires id in After(start, es).threads
    requires Authenticated(After(start, es).threads[id].request) && !Passed(After(start, es).threads[id])
    ensures After(start, es).threads[id].Finished? ==> After(start, es).threads[id].reply.Failed?
  {
    TurnedAwayFails(start, es, id);
    hide After;
  }

  // ---- Where the rows come from --------------------------------------------------------------

  /** The thread uploaded the row, on a request signed by its owner. */
  predicate Uploader(y: System, id: nat, docId: seq<Byte>, row: Document) {
    && id in y.threads && y.threads[id].Finished? && y.threads[id].passed
    && y.threads[id].request.Upload? && UploadRow(y.threads[id].request) == Ok(NewDocument(docId, row))
    && y.threads[id].reply == Uploaded(docId)
  }

  /** The thread stored the share, on a request signed by its sender. */
  predicate Sharer(y: System, id: nat, k: ShareKey, row: ShareRow) {
    && id in y.threads && y.threads[id].Finished? && y.threads[id].passed
    && y.threads[id].request.ShareDoc? && NewShareRow(y.threads[id].request) == Ok(NewShare(k, row))
    && y.threads[id].reply == Done
  }

  ghost predicate DocumentsHaveUploaders(start: Tables, y: System) {
    forall d <- y.shared.db.documents ::
      d in start.documents || exists id :: Uploader(y, id, d, y.shared.db.documents[d])
  }

  ghost predicate SharesHaveSharers(start: Tables, y: System) {
    forall k <- y.shared.db.shares ::
      (k in start.shares && y.shared.db.shares[k] == start.shares[k])
      || exists id :: Sharer(y, id, k, y.shared.db.shares[k])
  }

  lemma StepAuthor(s: State, pc: Pc, env: Env)
    requires Sensible(pc)
    ensures var (s', pc') := Step(s, pc, env);
      && (s'.db.documents != s.db.documents ==>
            pc.Admitted? && pc.request.Upload? && UploadRow(pc.request).Ok?
            && pc' == Finished(pc.request, Uploaded(UploadRow(pc.request).value.docId), true))
      && (s'.db.shares != s.db.shares ==> pc.DocumentFound? && pc' == Finished(pc.request, Done, true))
  {
    hide Session.SignedBy, UploadRow, NewShareRow, FromHex, LoginVerifies, LoginSalt, Encode, Canonical;
  }

  /** Threads that have finished are still there after the next event. */
  lemma AuthorsStay(y: System, e: Event, id: nat)
    requires AllSensible(y)
    ensures id in y.threads && y.threads[id].Finished? ==>
              id in Next(y, e).threads && Next(y, e).threads[id] == y.threads[id]
  {
    if e.Advance? && e.id in y.threads {
      FinishedStays(y.shared, y.threads[e.id], e.env);
    }
    hide Step, Sensible;
  }

  lemma NextKeepsUploaders(start: Tables, y: System, e: Event)
    requires AllSensible(y) && DocumentsHaveUploaders(start, y)
    ensures DocumentsHaveUploaders(start, Next(y, e))
  {
    hide Step, Sensible, UploadRow;
    var y' := Next(y, e);
    if e.Advance? && e.id in y.threads {
      StepAuthor(y.shared, y.threads[e.id], e.env);
      StepWrites(y.shared, y.threads[e.id], e.env);
    }
    forall d | d in y'.shared.db.documents && d !in start.documents
      ensures exists id :: Uploader(y', id, d, y'.shared.db.documents[d])
    {
      var row := y'.shared.db.documents[d];
      if d in y.shared.db.documents && y.shared.db.documents[d] == row {
        var id :| Uploader(y, id, d, row);
        AuthorsStay(y, e, id);
        assert Uploader(y', id, d, row);
      } else {
        assert Uploader(y', e.id, d, row);
      }
    }
  }

  lemma NextKeepsSharers(start: Tables, y: System, e: Event)
    requires AllSensible(y) && SharesHaveSharers(start, y)
    ensures SharesHaveSharers(start, Next(y, e))
  {
    hide Step, Sensible, NewShareRow;
    var y' := Next(y, e);
    if e.Advance? && e.id in y.threads {
      StepAuthor(y.shared, y.threads[e.id], e.env);
      StepWrites(y.shared, y.threads[e.id], e.env);
      assert Sensible(y.threads[e.id]);
    }
    forall k | k in y'.shared.db.shares
      ensures (k in start.shares && y'.shared.db.shares[k] == start.shares[k])
              || exists id :: Sharer(y', id, k, y'.shared.db.shares[k])
    {
      var row := y'.shared.db.shares[k];
      if k in y.shared.db.shares && y.shared.db.shares[k] == row {
        if id :| Sharer(y, id, k, row) {
          AuthorsStay(y, e, id);
          assert Sharer(y', id, k, row);
        }
      } else {
        DocumentFoundShare(y.threads[e.id]);
        assert Sharer(y', e.id, k, row);
      }
    }
  }

  lemma DocumentFoundShare(pc: Pc)
    requires Sensible(pc)
    ensures pc.DocumentFound? ==> pc.request.ShareDoc? && NewShareRow(pc.request).Ok?
  {
    hide NewShareRow, FromHex;
  }

  lemma {:induction false} RowsHaveAuthors(start: Tables, es: seq<Event>)
    ensures DocumentsHaveUploaders(start, After(start, es)) && SharesHaveSharers(start, After(start, es))
  {
    hide Next, Uploader, Sharer;
    if es != [] {
      var es' := es[..|es| - 1];
      RowsHaveAuthors(start, es');
      NextKeepsUploaders(start, After(start, es'), es[|es| - 1]);
      NextKeepsSharers(start, After(start, es'), es[|es| - 1]);
    }
  }

  /** The thread uploaded the row, with a request that verifies under the identity key of the
      owner the row names. */
  predicate SignedUpload(y: System, id: nat, docId: seq<Byte>, row: Document) {
    && Uploader(y, id, docId, row) && row.blob == y.threads[id].request.document
    && row.owner == y.threads[id].request.owner && row.owner in y.shared.db.users
    && Session.SignedBy(y.shared.db.users[row.owner].sigPub,
                        Session.PayloadUpload(row.owner, y.threads[id].request.nonce), y.threads[id].request.signature)
  }

  lemma UploaderSigned(y: System, id: nat, docId: seq<Byte>, row: Document)
    requires Uploader(y, id, docId, row) && PcOk(y.shared, y.threads[id])
    ensures SignedUpload(y, id, docId, row)
  {
    hide Session.SignedBy, UnpackDocument, NewShareRow;
  }

  /** Every document the server stored came with a request signed by its owner, whatever the schedule. */
  lemma DocumentsAreSigned(start: Tables, es: seq<Event>, docId: seq<Byte>)
    requires TablesOk(start) && docId in After(start, es).shared.db.documents && docId !in start.documents
    ensures exists id :: SignedUpload(After(start, es), id, docId, After(start, es).shared.db.documents[docId])
  {
    EveryScheduleSafe(start, es);
    RowsHaveAuthors(start, es);
    hide After, Uploader, SignedUpload, PcOk, TablesOk, NoncesApart;
    var y := After(start, es);
    var row := y.shared.db.documents[docId];
    var id :| Uploader(y, id, docId, row);
    UploaderExists(y, id, docId, row);
    UploaderSigned(y, id, docId, row);
  }

  lemma UploaderExists(y: System, id: nat, docId: seq<Byte>, row: Document)
    ensures Uploader(y, id, docId, row) ==> id in y.threads
  {
  }

  /** The thread stored the row, with a request that verifies under the identity key of the
      sender the blob names. */
  predicate SignedShare(y: System, id: nat, k: ShareKey, row: ShareRow) {
    && Sharer(y, id, k, row) && row.blob == y.threads[id].request.blob && UnpackShare(row.blob).Some?
    && var sender := y.threads[id].request.sender;
       sender == UnpackShare(row.blob).value.sender && sender in y.shared.db.users
       && Session.SignedBy(y.shared.db.users[sender].sigPub, Canonical(y.threads[id].request),
                           y.threads[id].request.signature)
  }

  lemma SharerSigned(y: System, id: nat, k: ShareKey, row: ShareRow)
    requires Sharer(y, id, k, row) && PcOk(y.shared, y.threads[id])
    ensures SignedShare(y, id, k, row)
  {
    hide Session.SignedBy, UnpackShare, FromHex;
  }

  /** Every share the server stored came with a request signed by its sender. */
  lemma SharesAreSigned(start: Tables, es: seq<Event>, k: ShareKey)
    requires TablesOk(start) && k in After(start, es).shared.db.shares
    requires !(k in start.shares && start.shares[k] == After(start, es).shared.db.shares[k])
    ensures exists id :: SignedShare(After(start, es), id, k, After(start, es).shared.db.shares[k])
  {
    EveryScheduleSafe(start, es);
    RowsHaveAuthors(start, es);
    hide After, Sharer, SignedShare, PcOk, TablesOk, NoncesApart;
    var y := After(start, es);
    var row := y.shared.db.shares[k];
    var id :| Sharer(y, id, k, row);
    SharerExists(y, id, k, row);
    SharerSigned(y, id, k, row);
  }

  lemma SharerExists(y: System, id: nat, k: ShareKey, row: ShareRow)
    ensures Sharer(y, id, k, row) ==> id in y.threads
  {
  }

  // ---- A race ------------------------------------------------------------------------------------

  predicate PasswordRequest(s: State, r: Request) {
    && r.ChangePassword? && WellFormed(r) && Storable(r.username) && r.username in s.db.users
    && r.newArgon2.Some? && ArgonFits(r.newArgon2.value)
    && r.nonce != [] && r.nonce !in s.session.usedNonces
    && Session.SignedBy(s.db.users[r.username].authPub, Canonical(r), r.signature)
  }

  /** Two requests whose steps alternate. */
  function Alternate(s: State, p: Pc, q: Pc, env: Env, n: nat): (State, Pc, Pc)
    requires Sensible(p) && Sensible(q)
    decreases n
  {
    if n == 0 then (s, p, q)
    else
      var (s1, p1) := Step(s, p, env);
      var (s2, q1) := Step(s1, q, env);
      Alternate(s2, p1, q1, env, n - 1)
  }

  /** The three steps of a `change_password` request. */
  lemma PasswordSteps(s: State, r: Request, env: Env)
    requires r.ChangePassword? && WellFormed(r) && Storable(r.username) && r.username in s.db.users
    requires r.newArgon2.Some? && ArgonFits(r.newArgon2.value) && r.nonce != []
    ensures Sensible(Signed(r)) && Sensible(Admitted(r)) && Sensible(Start(r)) && Sensible(Finished(r, Done, true))
    ensures Sensible(Stop(r, OldPasswordIncorrect, false))
    ensures Step(s, Start(r), env) ==
      (s, if Session.SignedBy(s.db.users[r.username].authPub, Canonical(r), r.signature) then Signed(r)
          else Stop(r, OldPasswordIncorrect, false))
    ensures r.nonce !in s.session.usedNonces ==>
      Step(s, Signed(r), env)
      == (s.(session := s.session.(usedNonces := s.session.usedNonces + {r.nonce})), Admitted(r))
    ensures Step(s, Admitted(r), env) ==
      (s.(db := s.db.(users := s.db.users[r.username := s.db.users[r.username].(
          salt := r.newSalt, argon2 := r.newArgon2.value, authPub := r.newAuthPub)])), Finished(r, Done, true))
  {
    hide Session.SignedBy, Canonical, Encode;
  }

  lemma AlternateStep(s: State, p: Pc, q: Pc, env: Env, n: nat)
    requires Sensible(p) && Sensible(q)
    ensures n == 0 ==> Alternate(s, p, q, env, n) == (s, p, q)
    ensures n > 0 ==> var (s1, p1) := Step(s, p, env);
                      var (s2, q1) := Step(s1, q, env);
                      Alternate(s, p, q, env, n) == Alternate(s2, p1, q1, env, n - 1)
  {
    hide Step, Sensible;
  }

  /** Both end in success, with the key of the second in place. */
  predicate BothInPlace(s: State, r: Request, q: Request, env: Env, rounds: nat) {
    hide Alternate;
    var (s', p, p') := Alternate(s, Start(r), Start(q), env, rounds);
    p == Finished(r, Done, true) && p' == Finished(q, Done, true)
    && q.ChangePassword? && q.username in s'.db.users && s'.db.users[q.username].authPub == q.newAuthPub
  }

  /** The signature of `change_password` is checked against a record read before the update, so
      two requests signed with the same old key are both accepted when their steps alternate. */
  lemma PasswordRace(s: State, r: Request, q: Request, env: Env, rounds: nat)
    requires PasswordRequest(s, r) && PasswordRequest(s, q) && r.username == q.username && r.nonce != q.nonce
    requires rounds == 3
    ensures BothInPlace(s, r, q, env, rounds)
  {
    hide Session.SignedBy, Canonical, Encode, Step, Alternate, Sensible;
    PasswordSteps(s, r, env);
    PasswordSteps(s, q, env);
    AlternateStep(s, Start(r), Start(q), env, rounds);
    var s1 := Step(s, Signed(r), env).0;
    PasswordSteps(s1, q, env);
    AlternateStep(s, Signed(r), Signed(q), env, rounds - 1);
    var s2 := Step(s1, Signed(q), env).0;
    PasswordSteps(s2, r, env);
    var s3 := Step(s2, Admitted(r), env).0;
    PasswordSteps(s3, q, env);
    AlternateStep(s2, Admitted(r), Admitted(q), env, rounds - 2);
    AlternateStep(Step(s3, Admitted(q), env).0, Finished(r, Done, true), Finished(q, Done, true), env, rounds - 3);
  }

  /** One after the other, the second request is accepted exactly when its signature verifies
      under the key the first one set. */
  lemma PasswordSequence(s: State, r: Request, q: Request, env: Env)
    requires PasswordRequest(s, r) && PasswordRequest(s, q) && r.username == q.username && r.nonce != q.nonce
    ensures Handle(s, r, env).1 == Done
    ensures Handle(Handle(s, r, env).0, q, env).1 == Done
       <==> Session.SignedBy(r.newAuthPub, Canonical(q), q.signature)
  {
    hide Session.SignedBy, Canonical, Encode, Handle;
    HandlePassword(s, r, env);
    HandlePassword(Handle(s, r, env).0, q, env);
  }

  /** `change_password` alone. */
  lemma HandlePassword(s: State, r: Request, env: Env)
    requires r.ChangePassword? && WellFormed(r) && Storable(r.username) && r.username in s.db.users
    requires r.newArgon2.Some? && ArgonFits(r.newArgon2.value)
    requires r.nonce != [] && r.nonce !in s.session.usedNonces
    ensures var u := s.db.users[r.username];
      if Session.SignedBy(u.authPub, Canonical(r), r.signature) then
        Handle(s, r, env) == (State(s.db.(users := s.db.users[r.username :=
            u.(salt := r.newSalt, argon2 := r.newArgon2.value, authPub := r.newAuthPub)]),
          Session.UseNonce(s.session, r.nonce).0), Done)
      else Handle(s, r, env) == (s, Failed(OldPasswordIncorrect))
  {
    hide Session.SignedBy, Canonical, Encode, Drive, Step, Sensible;
    PasswordSteps(s, r, env);
    Unroll(s, Start(r), env);
    if Session.SignedBy(s.db.users[r.username].authPub, Canonical(r), r.signature) {
      Unroll(s, Signed(r), env);
      var s2 := Step(s, Signed(r), env).0;
      PasswordSteps(s2, r, env);
      Unroll(s2, Admitted(r), env);
      Unroll(Step(s2, Admitted(r), env).0, Finished(r, Done, true), env);
    } else {
      Unroll(s, Stop(r, OldPasswordIncorrect, false), env);
    }
  }
}
