/** client/trust_store.py: trust on first use. A contact's fingerprint is pinned when it is first
    recorded; the file holds what memory holds after every change. */
module TrustStore {
  import opened Bits
  import opened Wrappers
  import opened Utf8
  import Sha256

  datatype Status = UNVERIFIED | VERIFIED
  datatype Entry = Entry(fingerprint: Str, status: Status)
  type Entries = map<Str, Entry>

  datatype Error = KeyMismatch(stored: Entry, seen: Str) | NoEntry | HaveEntry

  /** `compute_fingerprint`: one hash over both keys, in hexadecimal. */
  function Fingerprint(sigPub: seq<Byte>, dhPub: seq<Byte>): Str {
    ToHex(Sha256.Digest(sigPub + dhPub))
  }

  // ---- One call each ---------------------------------------------------------------

  function Record(m: Entries, name: Str, sigPub: seq<Byte>, dhPub: seq<Byte>): Result<Entries, Error> {
    if name in m then Err(HaveEntry) else Ok(m[name := Entry(Fingerprint(sigPub, dhPub), UNVERIFIED)])
  }

  /** `check` changes nothing; it returns the stored entry when the bundle matches. */
  function Compare(m: Entries, name: Str, sigPub: seq<Byte>, dhPub: seq<Byte>): Result<Entry, Error> {
    if name !in m then Err(NoEntry)
    else if Fingerprint(sigPub, dhPub) != m[name].fingerprint then Err(KeyMismatch(m[name], Fingerprint(sigPub, dhPub)))
    else Ok(m[name])
  }

  function Verify(m: Entries, name: Str): Result<Entries, Error> {
    if name !in m then Err(NoEntry)
    else if m[name].status == VERIFIED then Ok(m)
    else Ok(m[name := Entry(m[name].fingerprint, VERIFIED)])
  }

  /** `_get_verified_pubkey` on the bundle a server hands out: a known contact must match, and a
      new one needs the user's consent. False stands for ClientError. */
  function Ask(m: Entries, name: Str, sigPub: seq<Byte>, dhPub: seq<Byte>, consent: bool): (Entries, bool) {
    match Compare(m, name, sigPub, dhPub)
    case Ok(_) => (m, true)
    case Err(KeyMismatch(_, _)) => (m, false)
    case Err(_) =>
      if !consent then (m, false)
      else
        match Record(m, name, sigPub, dhPub)
        case Ok(m') => (m', true)
        case Err(_) => (m, false)
  }

  // ---- The store between calls ---------------------------------------------------------

  datatype Call =
    | RecordCall(name: Str, sigPub: seq<Byte>, dhPub: seq<Byte>)
    | CheckCall(name: Str, sigPub: seq<Byte>, dhPub: seq<Byte>)
    | VerifyCall(name: Str)
    | AskCall(name: Str, sigPub: seq<Byte>, dhPub: seq<Byte>, consent: bool)
    | Reopen

  /** Memory and file; reopening reads the file. */
  datatype Store = Store(entries: Entries, saved: Option<Entries>)

  /** The file is written exactly when the table changes. */
  function Written(s: Store, m: Entries): Store {
    if m == s.entries then s else Store(m, Some(m))
  }

  function Apply(s: Store, c: Call): Store {
    match c
    case RecordCall(name, sigPub, dhPub) =>
      (match Record(s.entries, name, sigPub, dhPub) case Ok(m) => Written(s, m) case Err(_) => s)
    case CheckCall(_, _, _) => s
    case VerifyCall(name) => (match Verify(s.entries, name) case Ok(m) => Written(s, m) case Err(_) => s)
    case AskCall(name, sigPub, dhPub, consent) => Written(s, Ask(s.entries, name, sigPub, dhPub, consent).0)
    case Reopen => s.(entries := if s.saved.Some? then s.saved.value else map[])
  }

  predicate Synced(s: Store) {
    s.saved == Some(s.entries) || (s.saved == None && s.entries == map[])
  }

  // ---- The class -------------------------------------------------------------------------

  /** The JSON file, as the table it holds; None when it does not exist yet. */
  class File {
    var contents: Option<Entries>

    constructor ()
      ensures contents == None
    {
      contents := None;
    }
  }

  class TrustStore {
    const file: File
    var entries: Entries

    ghost function State(): Store
      reads this, file
    {
      Store(entries, file.contents)
    }

    /** Opening the store loads the file. */
    constructor (file: File)
      ensures this.file == file && State() == Apply(Store(map[], file.contents), Reopen)
    {
      this.file := file;
      entries := if file.contents.Some? then file.contents.value else map[];
    }

    method Save()
      modifies file
      ensures State() == Store(old(entries), Some(old(entries)))
    {
      file.contents := Some(entries);
    }

    method RecordFirstContact(name: Str, sigPub: seq<Byte>, dhPub: seq<Byte>) returns (r: Result<Entry, Error>)
      modifies this, file
      ensures State() == Apply(old(State()), RecordCall(name, sigPub, dhPub))
      ensures r == match Record(old(entries), name, sigPub, dhPub)
                   case Ok(m) => Ok(m[name])
                   case Err(e) => Err(e)
    {
      if name in entries {
        return Err(HaveEntry);
      }
      var entry := Entry(Fingerprint(sigPub, dhPub), UNVERIFIED);
      entries := entries[name := entry];
      Save();
      r := Ok(entry);
    }

    method Check(name: Str, sigPub: seq<Byte>, dhPub: seq<Byte>) returns (r: Result<Entry, Error>)
      ensures r == Compare(entries, name, sigPub, dhPub)
    {
      if name !in entries {
        return Err(NoEntry);
      }
      var stored := entries[name];
      var seen := Fingerprint(sigPub, dhPub);
      if seen != stored.fingerprint {
        return Err(KeyMismatch(stored, seen));
      }
      r := Ok(stored);
    }

    method MarkVerified(name: Str) returns (r: Result<Entry, Error>)
      modifies this, file
      ensures State() == Apply(old(State()), VerifyCall(name))
      ensures r == match Verify(old(entries), name)
                   case Ok(m) => Ok(m[name])
                   case Err(e) => Err(e)
    {
      if name !in entries {
        return Err(NoEntry);
      }
      var stored := entries[name];
      if stored.status == VERIFIED {
        return Ok(stored);
      }
      entries := entries[name := Entry(stored.fingerprint, VERIFIED)];
      Save();
      r := Ok(entries[name]);
    }
  }

  // ---- Whole runs ---------------------------------------------------------------------------

  function After(calls: seq<Call>): Store {
    if calls == [] then Store(map[], None) else Apply(After(calls[..|calls| - 1]), calls[|calls| - 1])
  }

  /** Everything in m is still in m', under the same fingerprint, and verified if it was. */
  predicate Pinned(m: Entries, m': Entries) {
    forall name <- m ::
      && name in m' && m'[name].fingerprint == m[name].fingerprint
      && (m[name].status == VERIFIED ==> m'[name].status == VERIFIED)
  }

  lemma ApplyPins(s: Store, c: Call)
    requires Synced(s)
    ensures Synced(Apply(s, c)) && Pinned(s.entries, Apply(s, c).entries)
  {
    hide Fingerprint;
  }

  lemma {:induction false} AfterSynced(calls: seq<Call>)
    ensures Synced(After(calls))
  {
    hide Apply;
    if calls != [] {
      AfterSynced(calls[..|calls| - 1]);
      ApplyPins(After(calls[..|calls| - 1]), calls[|calls| - 1]);
    }
  }

  /** Over any sequence of calls and reopenings, no fingerprint changes once it is recorded, and
      a verified contact stays verified. */
  lemma {:induction false} FingerprintsPinned(calls: seq<Call>, m: nat)
    requires m <= |calls|
    ensures Pinned(After(calls[..m]).entries, After(calls).entries)
    decreases |calls|
  {
    hide Apply;
    if m == |calls| {
      assert calls[..m] == calls;
    } else {
      var calls' := calls[..|calls| - 1];
      assert calls'[..m] == calls[..m];
      FingerprintsPinned(calls', m);
      AfterSynced(calls');
      ApplyPins(After(calls'), calls[|calls| - 1]);
    }
  }

  /** Call i is a `_get_verified_pubkey` for the contact that returned the bundle. */
  predicate Returned(calls: seq<Call>, i: nat, name: Str)
    requires i < |calls|
  {
    && calls[i].AskCall? && calls[i].name == name
    && Ask(After(calls[..i]).entries, name, calls[i].sigPub, calls[i].dhPub, calls[i].consent).1
  }

  lemma ReturnedIsPinned(calls: seq<Call>, i: nat, name: Str)
    requires i < |calls| && Returned(calls, i, name)
    ensures name in After(calls).entries
    ensures After(calls).entries[name].fingerprint == Fingerprint(calls[i].sigPub, calls[i].dhPub)
  {
    hide Fingerprint;
    assert calls[..i + 1][..i] == calls[..i];
    FingerprintsPinned(calls, i + 1);
  }

  /** All bundles the client ever accepts for a contact have one fingerprint. */
  lemma OneFingerprint(calls: seq<Call>, i: nat, j: nat, name: Str)
    requires i < |calls| && j < |calls| && Returned(calls, i, name) && Returned(calls, j, name)
    ensures Fingerprint(calls[i].sigPub, calls[i].dhPub) == Fingerprint(calls[j].sigPub, calls[j].dhPub)
  {
    ReturnedIsPinned(calls, i, name);
    ReturnedIsPinned(calls, j, name);
  }

  /** A bundle with another fingerprint is refused for good, whatever the user says. */
  lemma SwapRefused(calls: seq<Call>, i: nat, name: Str, sigPub: seq<Byte>, dhPub: seq<Byte>, consent: bool)
    requires i < |calls| && Returned(calls, i, name)
    ensures Ask(After(calls).entries, name, sigPub, dhPub, consent)
         == (After(calls).entries, Fingerprint(sigPub, dhPub) == Fingerprint(calls[i].sigPub, calls[i].dhPub))
  {
    hide Fingerprint, After;
    ReturnedIsPinned(calls, i, name);
  }

  // ---- What the store holds, from the calls alone --------------------------------------------

  /** The call offers keys for the contact that a store without one takes: they are recorded outright, or asked
      about with the user's consent. */
  predicate Offers(c: Call, name: Str) {
    (c.RecordCall? && c.name == name) || (c.AskCall? && c.name == name && c.consent)
  }

  /** Call i is the first that offers keys for the contact. */
  predicate FirstOffer(calls: seq<Call>, name: Str, i: nat) {
    i < |calls| && Offers(calls[i], name) && forall j :: 0 <= j < i ==> !Offers(calls[j], name)
  }

  /** Call i marks the contact, which was offered before, as verified. */
  predicate Marks(calls: seq<Call>, name: Str, i: nat) {
    i < |calls| && calls[i] == VerifyCall(name) && exists j :: 0 <= j < i && Offers(calls[j], name)
  }

  /** The contact is in the store exactly when some call offered its keys, with the hash of both keys of the
      first such call, in hexadecimal; it is verified exactly when a later call marked it. */
  ghost predicate Told(calls: seq<Call>, m: Entries, name: Str) {
    hide ToHex, Sha256.Digest;
    && (name in m <==> exists i :: 0 <= i < |calls| && Offers(calls[i], name))
    && (forall i: nat :: FirstOffer(calls, name, i) && name in m ==>
          m[name].fingerprint == ToHex(Sha256.Digest(calls[i].sigPub + calls[i].dhPub)))
    && (name in m ==> (m[name].status == VERIFIED <==> exists i: nat :: Marks(calls, name, i)))
  }

  /** What one call does to one contact. */
  lemma ApplyTo(s: Store, c: Call, name: Str)
    requires Synced(s)
    ensures var (m, m') := (s.entries, Apply(s, c).entries);
      && (name in m' <==> name in m || Offers(c, name))
      && (name in m && name in m' ==>
            m'[name] == if c == VerifyCall(name) then Entry(m[name].fingerprint, VERIFIED) else m[name])
      && (name !in m && Offers(c, name) && name in m' ==>
            m'[name] == Entry(ToHex(Sha256.Digest(c.sigPub + c.dhPub)), UNVERIFIED))
  {
    hide ToHex, Sha256.Digest;
  }

  lemma {:induction false} StoreIsTold(calls: seq<Call>, name: Str)
    ensures Told(calls, After(calls).entries, name)
  {
    hide Apply, ToHex, Sha256.Digest;
    if calls != [] {
      var n := |calls| - 1;
      var before, c := calls[..n], calls[n];
      var m, m' := After(before).entries, After(calls).entries;
      StoreIsTold(before, name);
      AfterSynced(before);
      ApplyTo(After(before), c, name);
      OffersBefore(calls, name);
    }
  }

  /** The last call apart, the same calls offer and mark. */
  lemma OffersBefore(calls: seq<Call>, name: Str)
    requires calls != []
    ensures var n := |calls| - 1;
      && ((exists i :: 0 <= i < |calls| && Offers(calls[i], name)) <==>
          (exists i :: 0 <= i < n && Offers(calls[..n][i], name)) || Offers(calls[n], name))
      && (forall i: nat :: i < n ==> (FirstOffer(calls, name, i) <==> FirstOffer(calls[..n], name, i)))
      && (FirstOffer(calls, name, n) ==> !exists i :: 0 <= i < n && Offers(calls[..n][i], name))
      && (forall i: nat :: i < n ==> (Marks(calls, name, i) <==> Marks(calls[..n], name, i)))
      && (Marks(calls, name, n) <==>
            calls[n] == VerifyCall(name) && exists i :: 0 <= i < n && Offers(calls[..n][i], name))
  {
  }
}
