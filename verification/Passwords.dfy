/** `change_password` under every schedule: when it is accepted, what it changes, and what happens
    when two of them overlap. */
module Passwords {
  import opened Bits
  import opened Wrappers
  import opened Utf8
  import opened Database
  import opened Server
  import opened Interleaving
  import Session

  // ---- The three decisions -------------------------------------------------------------

  /** The look-up lets the request on. */
  predicate Verified(s: State, r: Request) {
    hide Session.SignedBy, Canonical, Encode;
    && r.ChangePassword? && WellFormed(r) && Storable(r.username) && r.username in s.db.users
    && Session.SignedBy(s.db.users[r.username].authPub, Canonical(r), r.signature)
  }

  /** The nonce check lets it on. */
  predicate Unused(s: State, r: Request) {
    r.ChangePassword? && r.nonce != [] && r.nonce !in s.session.usedNonces
  }

  /** The update accepts its parameters. */
  predicate Parameters(r: Request) {
    r.ChangePassword? && r.newArgon2.Some? && ArgonFits(r.newArgon2.value)
  }

  function Updated(u: User, r: Request): User
    requires Parameters(r)
  {
    u.(salt := r.newSalt, argon2 := r.newArgon2.value, authPub := r.newAuthPub)
  }

  lemma LookUpDecides(s: State, r: Request, env: Env)
    requires r.ChangePassword?
    ensures var (s', pc) := Step(s, Start(r), env);
      s' == s && (if Verified(s, r) then pc == Signed(r) else pc.Finished? && pc.reply.Failed? && !pc.passed)
  {
    hide Session.SignedBy, Canonical, Encode;
  }

  lemma NonceDecides(s: State, r: Request, env: Env)
    requires r.ChangePassword?
    ensures Sensible(Signed(r))
    ensures var (s', pc) := Step(s, Signed(r), env);
      s'.db == s.db && (if Unused(s, r) then pc == Admitted(r) else pc.Finished? && pc.reply.Failed? && !pc.passed)
  {
    hide Session.SignedBy, Canonical, Encode;
  }

  lemma UpdateDecides(s: State, r: Request, env: Env)
    requires r.ChangePassword? && Storable(r.username) && r.username in s.db.users
    ensures Sensible(Admitted(r))
    ensures var (s', pc) := Step(s, Admitted(r), env);
      if Parameters(r) then
        pc == Finished(r, Done, true)
        && s'.db == s.db.(users := s.db.users[r.username := Updated(s.db.users[r.username], r)])
      else s' == s && pc.Finished? && pc.reply.Failed? && pc.passed
  {
    hide Session.SignedBy, Canonical, Encode;
  }

  // ---- Events of a schedule -----------------------------------------------------------------

  /** The shared state before event k. */
  ghost function Before(start: Tables, es: seq<Event>, k: nat): State
    requires k <= |es|
  {
    After(start, es[..k]).shared
  }

  /** Event k advances the thread from the given place. */
  ghost predicate At(start: Tables, es: seq<Event>, k: nat, id: nat, pc: Pc) {
    && k < |es| && es[k].Advance? && es[k].id == id
    && id in After(start, es[..k]).threads && After(start, es[..k]).threads[id] == pc
  }

  /** Where the thread stands after an event that advances it. */
  lemma AtNext(start: Tables, es: seq<Event>, k: nat, id: nat, pc: Pc)
    requires At(start, es, k, id, pc)
    ensures Sensible(pc) && id in After(start, es[..k + 1]).threads
    ensures After(start, es[..k + 1]).threads[id] == Step(Before(start, es, k), pc, es[k].env).1
    ensures After(start, es[..k + 1]).shared == Step(Before(start, es, k), pc, es[k].env).0
  {
    hide Step, Sensible;
    assert es[..k + 1][..k] == es[..k];
  }

  lemma AtPrefix(start: Tables, es: seq<Event>, n: nat, k: nat, id: nat, pc: Pc)
    requires n <= |es| && At(start, es[..n], k, id, pc)
    ensures At(start, es, k, id, pc) && Before(start, es[..n], k) == Before(start, es, k)
  {
    hide After;
    assert es[..n][..k] == es[..k];
  }

  // ---- A thread passes every place once ---------------------------------------------------------

  lemma {:induction false} RankFalls(start: Tables, es: seq<Event>, m: nat, id: nat)
    requires m <= |es| && id in After(start, es[..m]).threads
    ensures id in After(start, es).threads
    ensures Remaining(After(start, es).threads[id]) <= Remaining(After(start, es[..m]).threads[id])
    decreases |es|
  {
    hide Step, Sensible, Remaining;
    if m == |es| {
      assert es[..m] == es;
    } else {
      var es' := es[..|es| - 1];
      var y, e := After(start, es'), es[|es| - 1];
      assert es'[..m] == es[..m];
      RankFalls(start, es', m, id);
      if e.Advance? && e.id == id {
        RankStep(y.shared, y.threads[id], e.env);
      }
    }
  }

  lemma RankStep(s: State, pc: Pc, env: Env)
    requires Sensible(pc)
    ensures Remaining(Step(s, pc, env).1) <= Remaining(pc)
    ensures !pc.Finished? ==> Remaining(Step(s, pc, env).1) < Remaining(pc)
  {
    if pc.Finished? {
      FinishedStays(s, pc, env);
    } else {
      StepProgress(s, pc, env);
    }
    hide Step, Sensible;
  }

  lemma AtOnce(start: Tables, es: seq<Event>, k: nat, k': nat, id: nat, pc: Pc, pc': Pc)
    requires At(start, es, k, id, pc) && At(start, es, k', id, pc') && !pc.Finished?
    ensures k < k' ==> Remaining(pc') < Remaining(pc)
  {
    hide Step, Sensible, Remaining;
    AtNext(start, es, k, id, pc);
    RankStep(Before(start, es, k), pc, es[k].env);
    if k < k' {
      assert es[..k'][..k + 1] == es[..k + 1];
      RankFalls(start, es[..k'], k + 1, id);
    }
  }

  // ---- When a request is accepted --------------------------------------------------------------

  /** Event l is the look-up of the thread, and the proof verified under the key then stored. */
  ghost predicate LookedUp(start: Tables, es: seq<Event>, l: nat, id: nat, r: Request) {
    At(start, es, l, id, Start(r)) && Verified(Before(start, es, l), r)
  }

  /** Event n is the nonce check of the thread, and the nonce was new. */
  ghost predicate NonceTaken(start: Tables, es: seq<Event>, n: nat, id: nat, r: Request) {
    At(start, es, n, id, Signed(r)) && Unused(Before(start, es, n), r)
  }

  /** Event u is the update of the thread, and its parameters fitted. */
  ghost predicate UpdatedAt(start: Tables, es: seq<Event>, u: nat, id: nat, r: Request) {
    At(start, es, u, id, Admitted(r)) && Parameters(r)
  }

  ghost predicate Accepted(start: Tables, es: seq<Event>, id: nat, r: Request) {
    exists l: nat, n: nat, u: nat | l < n < u ::
      LookedUp(start, es, l, id, r) && NonceTaken(start, es, n, id, r) && UpdatedAt(start, es, u, id, r)
  }

  /** Event k decides against the request. */
  ghost predicate TurnedAt(start: Tables, es: seq<Event>, k: nat, id: nat, r: Request) {
    || (At(start, es, k, id, Start(r)) && !Verified(Before(start, es, k), r))
    || (At(start, es, k, id, Signed(r)) && !Unused(Before(start, es, k), r))
    || (At(start, es, k, id, Admitted(r)) && !Parameters(r))
  }

  /** How the thread came to where it stands. */
  ghost predicate Story(start: Tables, es: seq<Event>, id: nat, pc: Pc) {
    var r := pc.request;
    match pc
    case Signed(_) => exists l: nat :: LookedUp(start, es, l, id, r)
    case Admitted(_) =>
      exists l: nat, n: nat | l < n :: LookedUp(start, es, l, id, r) && NonceTaken(start, es, n, id, r)
    case Finished(_, reply, _) =>
      (reply == Done && Accepted(start, es, id, r)) || (reply.Failed? && exists k: nat :: TurnedAt(start, es, k, id, r))
    case _ => true
  }

  lemma EventsGrow(start: Tables, es: seq<Event>, m: nat, k: nat, id: nat, r: Request)
    requires m <= |es|
    ensures LookedUp(start, es[..m], k, id, r) ==> LookedUp(start, es, k, id, r)
    ensures NonceTaken(start, es[..m], k, id, r) ==> NonceTaken(start, es, k, id, r)
    ensures UpdatedAt(start, es[..m], k, id, r) ==> UpdatedAt(start, es, k, id, r)
    ensures TurnedAt(start, es[..m], k, id, r) ==> TurnedAt(start, es, k, id, r)
  {
    hide At, Before, Verified, Unused, Parameters;
    forall pc: Pc | At(start, es[..m], k, id, pc)
      ensures At(start, es, k, id, pc)
    {
      AtPrefix(start, es, m, k, id, pc);
    }
    if k < m {
      BeforePrefix(start, es, m, k);
    }
    AtInside(start, es[..m], k, id, Start(r));
    AtInside(start, es[..m], k, id, Signed(r));
    AtInside(start, es[..m], k, id, Admitted(r));
  }

  lemma AtInside(start: Tables, es: seq<Event>, k: nat, id: nat, pc: Pc)
    ensures At(start, es, k, id, pc) ==> k < |es|
  {
    hide After;
  }

  lemma BeforePrefix(start: Tables, es: seq<Event>, m: nat, k: nat)
    requires k <= m <= |es|
    ensures Before(start, es[..m], k) == Before(start, es, k)
  {
    assert es[..m][..k] == es[..k];
  }

  lemma StoryGrows(start: Tables, es: seq<Event>, m: nat, id: nat, pc: Pc)
    requires m <= |es| && Story(start, es[..m], id, pc)
    ensures Story(start, es, id, pc)
  {
    hide LookedUp, NonceTaken, UpdatedAt, TurnedAt;
    var r := pc.request;
    forall k: nat
      ensures LookedUp(start, es[..m], k, id, r) ==> LookedUp(start, es, k, id, r)
      ensures NonceTaken(start, es[..m], k, id, r) ==> NonceTaken(start, es, k, id, r)
      ensures UpdatedAt(start, es[..m], k, id, r) ==> UpdatedAt(start, es, k, id, r)
      ensures TurnedAt(start, es[..m], k, id, r) ==> TurnedAt(start, es, k, id, r)
    {
      EventsGrow(start, es, m, k, id, r);
    }
  }

  /** One event of the thread itself continues its story. */
  lemma StoryStep(start: Tables, es: seq<Event>, id: nat)
    requires es != [] && es[|es| - 1].Advance? && es[|es| - 1].id == id && TablesOk(start)
    requires var y := After(start, es[..|es| - 1]);
      id in y.threads && y.threads[id].request.ChangePassword? && Story(start, es, id, y.threads[id])
    ensures id in After(start, es).threads && Story(start, es, id, After(start, es).threads[id])
  {
    var k := |es| - 1;
    var y, env := After(start, es[..k]), es[k].env;
    var pc, r := y.threads[id], y.threads[id].request;
    assert es[..k + 1] == es;
    assert At(start, es, k, id, pc) && Before(start, es, k) == y.shared;
    AtNext(start, es, k, id, pc);
    EveryScheduleSafe(start, es[..k]);
    assert PcOk(y.shared, pc);
    StoryNow(start, es, k, id, pc);
  }

  lemma StoryNow(start: Tables, es: seq<Event>, k: nat, id: nat, pc: Pc)
    requires At(start, es, k, id, pc) && Sensible(pc) && PcOk(Before(start, es, k), pc) && pc.request.ChangePassword?
    requires Story(start, es, id, pc)
    ensures Story(start, es, id, Step(Before(start, es, k), pc, es[k].env).1)
  {
    hide Step, Story, PcOk, After, Before;
    NeverHere(pc);
    if pc.Start? {
      StoryFromStart(start, es, k, id, pc.request);
    } else if pc.Signed? {
      StoryFromSigned(start, es, k, id, pc.request);
    } else if pc.Admitted? {
      AdmittedKnown(Before(start, es, k), pc.request);
      StoryFromAdmitted(start, es, k, id, pc.request);
    } else {
      FinishedStays(Before(start, es, k), pc, es[k].env);
    }
  }

  lemma StoryFromStart(start: Tables, es: seq<Event>, k: nat, id: nat, r: Request)
    requires At(start, es, k, id, Start(r)) && r.ChangePassword?
    ensures Story(start, es, id, Step(Before(start, es, k), Start(r), es[k].env).1)
  {
    hide Before, After, Verified, Step;
    LookUpDecides(Before(start, es, k), r, es[k].env);
    assert LookedUp(start, es, k, id, r) || TurnedAt(start, es, k, id, r);
  }

  lemma StoryFromSigned(start: Tables, es: seq<Event>, k: nat, id: nat, r: Request)
    requires At(start, es, k, id, Signed(r)) && r.ChangePassword? && Story(start, es, id, Signed(r))
    ensures Sensible(Signed(r)) && Story(start, es, id, Step(Before(start, es, k), Signed(r), es[k].env).1)
  {
    hide Before, After, Verified, Unused, Step;
    NonceDecides(Before(start, es, k), r, es[k].env);
    var l: nat :| LookedUp(start, es, l, id, r);
    Earlier(start, es, l, k, id, Start(r), Signed(r));
    assert NonceTaken(start, es, k, id, r) || TurnedAt(start, es, k, id, r);
  }

  lemma StoryFromAdmitted(start: Tables, es: seq<Event>, k: nat, id: nat, r: Request)
    requires At(start, es, k, id, Admitted(r)) && r.ChangePassword? && Story(start, es, id, Admitted(r))
    requires r.username in Before(start, es, k).db.users
    ensures Sensible(Admitted(r)) && Story(start, es, id, Step(Before(start, es, k), Admitted(r), es[k].env).1)
  {
    hide Before, After, Verified, Unused, Parameters, Step;
    var l: nat, n: nat :| l < n && LookedUp(start, es, l, id, r) && NonceTaken(start, es, n, id, r);
    VerifiedStorable(Before(start, es, l), r);
    UpdateDecides(Before(start, es, k), r, es[k].env);
    Earlier(start, es, n, k, id, Signed(r), Admitted(r));
    assert UpdatedAt(start, es, k, id, r) || TurnedAt(start, es, k, id, r);
  }

  lemma AdmittedKnown(s: State, r: Request)
    requires PcOk(s, Admitted(r)) && r.ChangePassword?
    ensures r.username in s.db.users
  {
  }

  lemma NeverHere(pc: Pc)
    requires Sensible(pc) && pc.request.ChangePassword?
    ensures pc.Start? || pc.Signed? || pc.Admitted? || pc.Finished?
  {
  }

  lemma VerifiedStorable(s: State, r: Request)
    ensures Verified(s, r) ==> r.ChangePassword? && Storable(r.username)
  {
    hide Session.SignedBy, Canonical, Encode;
  }

  /** Two events of one thread at different places come in the order of the places. */
  lemma Earlier(start: Tables, es: seq<Event>, k: nat, k': nat, id: nat, pc: Pc, pc': Pc)
    requires At(start, es, k, id, pc) && At(start, es, k', id, pc') && Remaining(pc') < Remaining(pc)
    requires !pc'.Finished?
    ensures k < k'
  {
    hide Remaining;
    if k' < k {
      AtOnce(start, es, k', k, id, pc', pc);
    }
  }

  /** Every thread has a story. */
  lemma {:induction false} StoryHolds(start: Tables, es: seq<Event>, id: nat)
    requires TablesOk(start) && id in After(start, es).threads && After(start, es).threads[id].request.ChangePassword?
    ensures Story(start, es, id, After(start, es).threads[id])
  {
    hide Story, Step, Sensible, TablesOk;
    if es != [] {
      var k := |es| - 1;
      var y := After(start, es[..k]);
      if id in y.threads {
        ThreadHistory(start, es, k, id);
        StoryHolds(start, es[..k], id);
        StoryGrows(start, es, k, id, y.threads[id]);
        if es[k].Advance? && es[k].id == id {
          StoryStep(start, es, id);
        }
      } else {
        StoryBegins(start, es, id);
      }
    }
  }

  lemma StoryBegins(start: Tables, es: seq<Event>, id: nat)
    requires es != [] && id in After(start, es).threads && id !in After(start, es[..|es| - 1]).threads
    ensures Story(start, es, id, After(start, es).threads[id])
  {
    hide Step, Sensible;
  }

  /** A change_password request that has ended was accepted if and only if its proof verified under
      the login key in the table at its look-up, its nonce was new at its nonce check, and its
      parameters fitted: under every schedule, and whatever happened in between. */
  lemma PasswordOutcome(start: Tables, es: seq<Event>, id: nat)
    requires TablesOk(start) && id in After(start, es).threads
    requires After(start, es).threads[id].Finished? && After(start, es).threads[id].request.ChangePassword?
    ensures After(start, es).threads[id].reply == Done
       <==> Accepted(start, es, id, After(start, es).threads[id].request)
    ensures After(start, es).threads[id].reply == Done || After(start, es).threads[id].reply.Failed?
  {
    hide At, Before, TablesOk, Step;
    var r := After(start, es).threads[id].request;
    StoryHolds(start, es, id);
    if Accepted(start, es, id, r) {
      var l: nat, n: nat, u: nat :| l < n < u && LookedUp(start, es, l, id, r) && NonceTaken(start, es, n, id, r)
        && UpdatedAt(start, es, u, id, r);
      UpdateEnds(start, es, l, u, id, r);
    }
  }

  /** A fitting update ends the thread in success. */
  lemma UpdateEnds(start: Tables, es: seq<Event>, l: nat, u: nat, id: nat, r: Request)
    requires TablesOk(start) && LookedUp(start, es, l, id, r) && UpdatedAt(start, es, u, id, r)
    ensures id in After(start, es).threads && After(start, es).threads[id] == Finished(r, Done, true)
    ensures r.username in Before(start, es, u).db.users
    ensures After(start, es[..u + 1]).shared.db == Before(start, es, u).db.(users :=
              Before(start, es, u).db.users[r.username := Updated(Before(start, es, u).db.users[r.username], r)])
  {
    hide Verified, Step, TablesOk, Sensible;
    EveryScheduleSafe(start, es[..u]);
    assert PcOk(Before(start, es, u), Admitted(r));
    VerifiedStorable(Before(start, es, l), r);
    AdmittedKnown(Before(start, es, u), r);
    AtNext(start, es, u, id, Admitted(r));
    UpdateDecides(Before(start, es, u), r, es[u].env);
    ThreadHistory(start, es, u + 1, id);
  }

  // ---- What changes a login key ------------------------------------------------------------------

  lemma StepKeepsUser(s: State, pc: Pc, env: Env, name: Str)
    requires Sensible(pc) && name in s.db.users && !(pc.Admitted? && pc.request.ChangePassword?)
    ensures name in Step(s, pc, env).0.db.users && Step(s, pc, env).0.db.users[name] == s.db.users[name]
  {
    hide Session.SignedBy, UploadRow, NewShareRow, FromHex, LoginVerifies, LoginSalt, Encode, Canonical;
  }

  /** The event is an accepted change of this account's password, and leaves exactly its values. */
  ghost predicate ChangedBy(start: Tables, es: seq<Event>, k: nat, id: nat, r: Request, name: Str)
    requires k < |es|
  {
    hide After;
    && UpdatedAt(start, es, k, id, r) && r.username == name
    && name in Before(start, es, k).db.users && name in Before(start, es, k + 1).db.users
    && Before(start, es, k + 1).db.users[name] == Updated(Before(start, es, k).db.users[name], r)
  }

  /** One event leaves an account alone, or is an accepted change of its password. */
  lemma EventOnAccount(start: Tables, es: seq<Event>, k: nat, name: Str)
    requires TablesOk(start) && k < |es| && name in Before(start, es, k).db.users
    ensures name in Before(start, es, k + 1).db.users
    ensures Before(start, es, k + 1).db.users[name] == Before(start, es, k).db.users[name]
            || exists id: nat, r: Request :: ChangedBy(start, es, k, id, r, name)
  {
    hide Step, Sensible, TablesOk, ThreadsOk, NoncesApart, Verified, Updated;
    assert es[..k + 1][..k] == es[..k];
    var y, e := After(start, es[..k]), es[k];
    if e.Advance? && e.id in y.threads {
      var pc := y.threads[e.id];
      if pc.Admitted? && pc.request.ChangePassword? {
        UpdateOnAccount(start, es, k, e.id, pc.request, name);
      } else {
        StepKeepsUser(y.shared, pc, e.env, name);
      }
    }
  }

  lemma UpdateOnAccount(start: Tables, es: seq<Event>, k: nat, id: nat, r: Request, name: Str)
    requires TablesOk(start) && At(start, es, k, id, Admitted(r)) && r.ChangePassword?
    requires name in Before(start, es, k).db.users
    ensures name in Before(start, es, k + 1).db.users
    ensures Before(start, es, k + 1).db.users[name] == Before(start, es, k).db.users[name]
            || ChangedBy(start, es, k, id, r, name)
  {
    hide Step, Sensible, TablesOk, Verified, After, Parameters, Updated;
    AdmittedStands(start, es, k, id, r);
    UpdateDecides(Before(start, es, k), r, es[k].env);
    AtNext(start, es, k, id, Admitted(r));
  }

  /** A thread about to update was looked up, so its name encodes and has an account. */
  lemma AdmittedStands(start: Tables, es: seq<Event>, k: nat, id: nat, r: Request)
    requires TablesOk(start) && At(start, es, k, id, Admitted(r)) && r.ChangePassword?
    ensures Storable(r.username) && r.username in Before(start, es, k).db.users
  {
    hide Step, Sensible, TablesOk, Verified, Unused, Encode, NonceTaken;
    EveryScheduleSafe(start, es[..k]);
    assert PcOk(Before(start, es, k), Admitted(r));
    AdmittedKnown(Before(start, es, k), r);
    StoryHolds(start, es[..k], id);
    var l: nat, n: nat :| l < n && LookedUp(start, es[..k], l, id, r) && NonceTaken(start, es[..k], n, id, r);
    VerifiedStorable(Before(start, es[..k], l), r);
  }

  /** No accepted change of the account's password between the two moments. */
  ghost predicate Untouched(start: Tables, es: seq<Event>, m: nat, n: nat, name: Str) {
    forall k: nat, id: nat, r: Request | m <= k < n && UpdatedAt(start, es, k, id, r) :: r.username != name
  }

  lemma {:induction false} AccountStays(start: Tables, es: seq<Event>, m: nat, n: nat, name: Str)
    requires TablesOk(start) && m <= n <= |es| && name in Before(start, es, m).db.users
    requires Untouched(start, es, m, n, name)
    ensures name in Before(start, es, n).db.users
    ensures Before(start, es, n).db.users[name] == Before(start, es, m).db.users[name]
    decreases n
  {
    hide TablesOk, Before, UpdatedAt, Updated;
    if m < n {
      AccountStays(start, es, m, n - 1, name);
      EventOnAccount(start, es, n - 1, name);
    }
  }

  /** The login key, salt and parameters of an account are those of an earlier moment, or those of
      an accepted change_password request since. */
  lemma {:induction false} CredentialsStem(start: Tables, es: seq<Event>, m: nat, n: nat, name: Str)
    requires TablesOk(start) && m <= n <= |es| && name in Before(start, es, m).db.users
    ensures name in Before(start, es, n).db.users
    ensures var u, u' := Before(start, es, m).db.users[name], Before(start, es, n).db.users[name];
      u' == u || exists k: nat, id: nat, r: Request :: Sets(start, es, m, k, n, id, r, u')
    decreases n
  {
    hide TablesOk, Before, UpdatedAt, Updated, Accepted;
    if m < n {
      CredentialsStem(start, es, m, n - 1, name);
      EventOnAccount(start, es, n - 1, name);
      var u, v, w := Before(start, es, m).db.users[name], Before(start, es, n - 1).db.users[name],
                     Before(start, es, n).db.users[name];
      if w == v && v != u {
        var k: nat, id: nat, r: Request :| Sets(start, es, m, k, n - 1, id, r, v);
        assert Sets(start, es, m, k, n, id, r, w);
      } else if w != v {
        var id: nat, r: Request :| ChangedBy(start, es, n - 1, id, r, name);
        ChangeIsAccepted(start, es, n - 1, id, r, name);
        assert Sets(start, es, m, n - 1, n, id, r, w);
      }
    }
  }

  /** Event k is the update of an accepted request whose values the account has. */
  ghost predicate Sets(start: Tables, es: seq<Event>, m: nat, k: nat, n: nat, id: nat, r: Request, u: User) {
    && m <= k < n <= |es| && UpdatedAt(start, es, k, id, r) && Accepted(start, es, id, r) && Parameters(r)
    && u.salt == r.newSalt && u.argon2 == r.newArgon2.value && u.authPub == r.newAuthPub
  }

  lemma ChangeIsAccepted(start: Tables, es: seq<Event>, k: nat, id: nat, r: Request, name: Str)
    requires TablesOk(start) && k < |es| && ChangedBy(start, es, k, id, r, name)
    ensures Accepted(start, es, id, r) && Parameters(r)
    ensures var u := Before(start, es, k + 1).db.users[name];
      u.salt == r.newSalt && u.argon2 == r.newArgon2.value && u.authPub == r.newAuthPub
  {
    hide After, TablesOk, Before, Verified, Unused;
    UpdatedThread(start, es, k, id, r);
    StoryHolds(start, es[..k], id);
    StoryGrows(start, es, k, id, Admitted(r));
    var l: nat, n: nat :| l < n && LookedUp(start, es, l, id, r) && NonceTaken(start, es, n, id, r);
    Earlier(start, es, n, k, id, Signed(r), Admitted(r));
  }

  lemma UpdatedThread(start: Tables, es: seq<Event>, k: nat, id: nat, r: Request)
    requires UpdatedAt(start, es, k, id, r)
    ensures k < |es| && id in After(start, es[..k]).threads && After(start, es[..k]).threads[id] == Admitted(r)
    ensures r.ChangePassword?
  {
  }

  // ---- Two requests for one account ---------------------------------------------------------------

  lemma {:induction false} UsedByThread(start: Tables, es: seq<Event>, nonce: Str)
    requires nonce in After(start, es).shared.session.usedNonces
    ensures exists id: nat :: TookNonce(After(start, es), id, nonce)
  {
    hide Step, Sensible, Passed, Authenticated, NonceOf;
    if es != [] {
      var k := |es| - 1;
      var y, e := After(start, es[..k]), es[k];
      if nonce in y.shared.session.usedNonces {
        UsedByThread(start, es[..k], nonce);
        var id: nat :| TookNonce(y, id, nonce);
        ThreadHistory(start, es, k, id);
        assert TookNonce(After(start, es), id, nonce);
      } else {
        NonceStep(y.shared, y.threads[e.id], e.env, nonce);
        assert TookNonce(After(start, es), e.id, nonce);
      }
    }
  }

  /** The thread is behind the nonce check with this nonce. */
  predicate TookNonce(y: System, id: nat, nonce: Str) {
    id in y.threads && Passed(y.threads[id]) && NonceOf(y.threads[id].request) == nonce
  }

  lemma NonceStep(s: State, pc: Pc, env: Env, nonce: Str)
    requires Sensible(pc) && nonce !in s.session.usedNonces && nonce in Step(s, pc, env).0.session.usedNonces
    ensures Passed(Step(s, pc, env).1) && NonceOf(pc.request) == nonce && Step(s, pc, env).1.request == pc.request
  {
    hide Session.SignedBy, UploadRow, NewShareRow, FromHex, LoginVerifies, LoginSalt, Encode, Canonical;
  }

  /** Threads i and j serve requests for one account that both verify under its login key at moment m,
      when each of them has not begun or has not even arrived; their parameters fit, their nonces
      differ and nobody else takes them, nobody else changes the account's password from then on, and
      both have ended. */
  ghost predicate Contest(start: Tables, es: seq<Event>, m: nat, i: nat, j: nat, r: Request, q: Request) {
    && TablesOk(start) && m <= |es| && i != j
    && Comes(start, es, m, i, r) && Comes(start, es, m, j, q)
    && Verified(Before(start, es, m), r) && Verified(Before(start, es, m), q) && r.username == q.username
    && Parameters(r) && Parameters(q) && r.nonce != [] && q.nonce != [] && r.nonce != q.nonce
    && (forall id: nat, nonce: Str | TookNonce(After(start, es), id, nonce) && id != i && id != j ::
          nonce != r.nonce && nonce != q.nonce)
    && (forall k: nat, id: nat, p: Request | m <= k && UpdatedAt(start, es, k, id, p) && id != i && id != j ::
          p.username != r.username)
    && Ended(start, es, i) && Ended(start, es, j)
  }

  /** The thread serves this request, and has made no step for it by moment m. */
  ghost predicate Comes(start: Tables, es: seq<Event>, m: nat, id: nat, r: Request)
    requires m <= |es|
  {
    && id in After(start, es).threads && After(start, es).threads[id].request == r
    && (id in After(start, es[..m]).threads ==> After(start, es[..m]).threads[id] == Start(r))
  }

  ghost predicate Ended(start: Tables, es: seq<Event>, id: nat) {
    id in After(start, es).threads && After(start, es).threads[id].Finished?
  }

  /** Every step of the thread comes after that moment. */
  lemma AfterArrival(start: Tables, es: seq<Event>, m: nat, i: nat, r: Request, k: nat, pc: Pc)
    requires m <= |es| && Comes(start, es, m, i, r) && At(start, es, k, i, pc)
    ensures m <= k && pc.request == r
  {
    hide Step, Sensible;
    ThreadHistory(start, es, k, i);
    if k < m {
      assert es[..m][..k] == es[..k];
      ThreadHistory(start, es[..m], k, i);
      AtNext(start, es, k, i, pc);
      RankStep(Before(start, es, k), pc, es[k].env);
      assert es[..m][..k + 1] == es[..k + 1];
      RankFalls(start, es[..m], k + 1, i);
      assert false;
    }
  }

  /** The nonce of a contestant is new when it is asked for. */
  lemma ContestNonce(start: Tables, es: seq<Event>, m: nat, i: nat, j: nat, r: Request, q: Request, n: nat)
    requires Contest(start, es, m, i, j, r, q) && At(start, es, n, i, Signed(r))
    ensures Unused(Before(start, es, n), r)
  {
    hide Step, Sensible, TablesOk, Verified, Parameters, UpdatedAt, Passed;
    var y := After(start, es[..n]);
    VerifiedNonces(Before(start, es, m), r);
    VerifiedNonces(Before(start, es, m), q);
    if r.nonce in y.shared.session.usedNonces {
      UsedByThread(start, es[..n], r.nonce);
      var id: nat :| TookNonce(y, id, r.nonce);
      ThreadHistory(start, es, n, id);
      assert TookNonce(After(start, es), id, r.nonce);
      SignedNotPassed(r);
      assert false;
    }
  }

  lemma SignedNotPassed(r: Request)
    ensures !Passed(Signed(r))
  {
  }

  lemma VerifiedNonces(s: State, r: Request)
    requires Verified(s, r)
    ensures r.ChangePassword? && NonceOf(r) == r.nonce
  {
    hide Session.SignedBy, Canonical, Encode;
  }

  /** A contestant ends in success exactly when its proof verified at its look-up. */
  lemma ContestOutcome(start: Tables, es: seq<Event>, m: nat, i: nat, j: nat, r: Request, q: Request, l: nat)
    requires Contest(start, es, m, i, j, r, q) && At(start, es, l, i, Start(r))
    ensures After(start, es).threads[i].reply == Done <==> Verified(Before(start, es, l), r)
  {
    hide Step, Sensible, TablesOk, Verified, Parameters, Passed, TookNonce, Before, Unused;
    VerifiedNonces(Before(start, es, m), r);
    StoryHolds(start, es, i);
    if After(start, es).threads[i].reply == Done {
      var l': nat, n: nat, u: nat :| l' < n < u && LookedUp(start, es, l', i, r) && NonceTaken(start, es, n, i, r)
        && UpdatedAt(start, es, u, i, r);
      SameEvent(start, es, l, l', i, Start(r));
    } else {
      var k: nat :| TurnedAt(start, es, k, i, r);
      if At(start, es, k, i, Start(r)) && !Verified(Before(start, es, k), r) {
        SameEvent(start, es, l, k, i, Start(r));
      } else if At(start, es, k, i, Signed(r)) {
        ContestNonce(start, es, m, i, j, r, q, k);
      }
    }
  }

  lemma SameEvent(start: Tables, es: seq<Event>, k: nat, k': nat, id: nat, pc: Pc)
    requires At(start, es, k, id, pc) && At(start, es, k', id, pc) && !pc.Finished?
    ensures k == k'
  {
    AtOnce(start, es, k, k', id, pc, pc);
    AtOnce(start, es, k', k, id, pc, pc);
  }

  /** The login key at a contestant's look-up: the other's new key if the other has updated by then,
      else the key both were signed with. */
  lemma ContestKey(start: Tables, es: seq<Event>, m: nat, i: nat, j: nat, r: Request, q: Request, l: nat)
    requires Contest(start, es, m, i, j, r, q) && At(start, es, l, i, Start(r))
    ensures m <= l <= |es| && r.ChangePassword? && q.ChangePassword?
    ensures r.username in Before(start, es, m).db.users && r.username in Before(start, es, l).db.users
    ensures (forall u: nat :: UpdatedAt(start, es, u, j, q) ==> l <= u) ==>
              Before(start, es, l).db.users[r.username] == Before(start, es, m).db.users[r.username]
    ensures (exists u: nat :: UpdatedAt(start, es, u, j, q) && u < l) ==>
              Before(start, es, l).db.users[r.username].authPub == q.newAuthPub
  {
    hide Step, Sensible, TablesOk, Parameters, Passed, TookNonce, Session.SignedBy, Canonical, Encode, After;
    AfterArrival(start, es, m, i, r, l, Start(r));
    forall k: nat, id: nat, p: Request | m <= k < l && UpdatedAt(start, es, k, id, p)
      ensures p.ChangePassword? && (p.username == r.username ==> id == j && p == q)
    {
      UpdatedThread(start, es, k, id, p);
      if id == i {
        AfterArrival(start, es, m, i, r, k, Admitted(p));
        Earlier(start, es, l, k, i, Start(r), Admitted(p));
      } else if id == j {
        AfterArrival(start, es, m, j, q, k, Admitted(p));
      }
    }
    if forall u: nat :: UpdatedAt(start, es, u, j, q) ==> l <= u {
      AccountStays(start, es, m, l, r.username);
    } else {
      var u: nat :| UpdatedAt(start, es, u, j, q) && u < l;
      AfterArrival(start, es, m, j, q, u, Admitted(q));
      forall k: nat, id: nat, p: Request | u + 1 <= k < l && UpdatedAt(start, es, k, id, p)
        ensures p.ChangePassword? && p.username != r.username
      {
        UpdatedThread(start, es, k, id, p);
        if p.username == r.username {
          SameEvent(start, es, u, k, j, Admitted(q));
        }
      }
      ContestUpdate(start, es, m, j, q, u);
      AccountStays(start, es, u + 1, l, r.username);
      CredentialsStem(start, es, m, l, r.username);
    }
  }

  lemma ContestUpdate(start: Tables, es: seq<Event>, m: nat, j: nat, q: Request, u: nat)
    requires TablesOk(start) && UpdatedAt(start, es, u, j, q)
    ensures q.username in Before(start, es, u + 1).db.users
    ensures Before(start, es, u + 1).db.users[q.username].authPub == q.newAuthPub
  {
    hide TablesOk, Verified, Unused;
    UpdatedThread(start, es, u, j, q);
    StoryHolds(start, es[..u], j);
    StoryGrows(start, es, u, j, Admitted(q));
    var l: nat, n: nat :| l < n && LookedUp(start, es, l, j, q) && NonceTaken(start, es, n, j, q);
    UpdateEnds(start, es, l, u, j, q);
  }

  /** Two requests that verify under the same login key, whenever each of them arrives: one is accepted
      exactly when the other has not updated before its look-up, or its proof verifies under the
      other's new key. */
  lemma TwoRequests(start: Tables, es: seq<Event>, m: nat, i: nat, j: nat, r: Request, q: Request, l: nat)
    requires Contest(start, es, m, i, j, r, q) && At(start, es, l, i, Start(r))
    ensures After(start, es).threads[i].reply == Done
       <==> (forall u: nat :: UpdatedAt(start, es, u, j, q) ==> l <= u)
            || Session.SignedBy(q.newAuthPub, Canonical(r), r.signature)
  {
    hide After, TablesOk, Session.SignedBy, Canonical, Encode, UpdatedAt, TookNonce, At;
    ContestOutcome(start, es, m, i, j, r, q, l);
    ContestKey(start, es, m, i, j, r, q, l);
  }

  /** The look-up does not come after an update of the other request, or the proof verifies under the
      key that update set. */
  ghost predicate Holds(start: Tables, es: seq<Event>, l: nat, r: Request, j: nat, q: Request)
    requires r.ChangePassword? && q.ChangePassword?
  {
    hide UpdatedAt, Session.SignedBy, Canonical;
    (forall u: nat :: UpdatedAt(start, es, u, j, q) ==> l <= u)
    || Session.SignedBy(q.newAuthPub, Canonical(r), r.signature)
  }

  /** Both are accepted exactly when neither is looked up after the other's update, or the one that
      is verifies under the key the other has set by then; at least one of them always is. */
  lemma BothAccepted(start: Tables, es: seq<Event>, m: nat, i: nat, j: nat, r: Request, q: Request, l: nat, l': nat)
    requires Contest(start, es, m, i, j, r, q) && At(start, es, l, i, Start(r)) && At(start, es, l', j, Start(q))
    ensures r.ChangePassword? && q.ChangePassword?
    ensures After(start, es).threads[i].reply == Done && After(start, es).threads[j].reply == Done
       <==> Holds(start, es, l, r, j, q) && Holds(start, es, l', q, i, r)
    ensures After(start, es).threads[i].reply == Done || After(start, es).threads[j].reply == Done
  {
    hide After, TablesOk, Session.SignedBy, Canonical, Encode, UpdatedAt, TookNonce, At, Verified, Parameters;
    ContestKey(start, es, m, i, j, r, q, l);
    TwoRequests(start, es, m, i, j, r, q, l);
    TwoRequests(start, es, m, j, i, q, r, l');
    if u: nat, v: nat :| UpdatedAt(start, es, u, j, q) && u < l && UpdatedAt(start, es, v, i, r) && v < l' {
      UpdateFollows(start, es, i, r, l, v);
      UpdateFollows(start, es, j, q, l', u);
      assert false;
    }
  }

  /** A thread updates after its look-up. */
  lemma UpdateFollows(start: Tables, es: seq<Event>, i: nat, r: Request, l: nat, u: nat)
    requires At(start, es, l, i, Start(r)) && UpdatedAt(start, es, u, i, r)
    ensures l < u
  {
    hide After, Parameters;
    Earlier(start, es, l, u, i, Start(r), Admitted(r));
  }
}
