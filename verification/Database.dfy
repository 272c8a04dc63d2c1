/** server/db.py: the three SQLite tables as maps. The schema declares foreign keys, but SQLite
    does not enforce them on this connection, so no call below looks at another table. */
module Database {
  import opened Bits
  import opened Wrappers
  import opened Utf8

  datatype Argon2 = Argon2(t: int, m: int, p: int)
  datatype User = User(salt: seq<Byte>, argon2: Argon2, authPub: seq<Byte>, sigPub: seq<Byte>, dhPub: seq<Byte>)
  datatype Document = Document(owner: Str, version: int, createdMs: int, blob: seq<Byte>)
  datatype ShareKey = ShareKey(docId: seq<Byte>, recipient: Str)
  datatype ShareRow = ShareRow(blob: seq<Byte>, issuedMs: int)

  datatype Tables = Tables(
    users: map<Str, User>, documents: map<seq<Byte>, Document>, shares: map<ShareKey, ShareRow>)

  const EMPTY: Tables := Tables(map[], map[], map[])

  /** The last two are raised by the sqlite3 module itself: names with surrogates have no UTF-8
      form, and integers must fit 64 bits. */
  datatype DbError = AlreadyExists | NotFound | BadVersion | Unencodable | OutOfRange

  predicate Storable(name: Str) {
    Encode(name).Some?
  }

  predicate Fits(x: int) {
    -0x80000000_00000000 <= x < 0x80000000_00000000
  }

  predicate ArgonFits(a: Argon2) {
    Fits(a.t) && Fits(a.m) && Fits(a.p)
  }

  // ---- The effect of one call -----------------------------------------------------

  function AddUser(t: Tables, name: Str, u: User): Result<Tables, DbError> {
    if !Storable(name) then Err(Unencodable)
    else if !ArgonFits(u.argon2) then Err(OutOfRange)
    else if name in t.users then Err(AlreadyExists)
    else Ok(t.(users := t.users[name := u]))
  }

  function FindUser(t: Tables, name: Str): Result<Option<User>, DbError> {
    if !Storable(name) then Err(Unencodable)
    else Ok(if name in t.users then Some(t.users[name]) else None)
  }

  function SetAuth(t: Tables, name: Str, salt: seq<Byte>, a: Argon2, authPub: seq<Byte>): Result<Tables, DbError> {
    if !ArgonFits(a) then Err(OutOfRange)
    else if !Storable(name) then Err(Unencodable)
    else if name !in t.users then Err(NotFound)
    else Ok(t.(users := t.users[name := t.users[name].(salt := salt, argon2 := a, authPub := authPub)]))
  }

  function AddDocument(t: Tables, docId: seq<Byte>, d: Document): Result<Tables, DbError> {
    if d.version != 1 then Err(BadVersion)
    else if !Storable(d.owner) then Err(Unencodable)
    else if !Fits(d.createdMs) then Err(OutOfRange)
    else if docId in t.documents then Err(AlreadyExists)
    else Ok(t.(documents := t.documents[docId := d]))
  }

  /** The stored owner stays; version, time and blob are replaced. */
  function ReplaceDocument(t: Tables, docId: seq<Byte>, d: Document): Result<Tables, DbError> {
    if docId !in t.documents then Err(NotFound)
    else if d.version != t.documents[docId].version + 1 then Err(BadVersion)
    else if !Fits(d.version) || !Fits(d.createdMs) then Err(OutOfRange)
    else Ok(t.(documents := t.documents[docId := d.(owner := t.documents[docId].owner)]))
  }

  function PutShare(t: Tables, k: ShareKey, s: ShareRow): Result<Tables, DbError> {
    if !Storable(k.recipient) then Err(Unencodable)
    else if !Fits(s.issuedMs) then Err(OutOfRange)
    else Ok(t.(shares := t.shares[k := s]))
  }

  function FindShare(t: Tables, k: ShareKey): Result<Option<ShareRow>, DbError> {
    if !Storable(k.recipient) then Err(Unencodable)
    else Ok(if k in t.shares then Some(t.shares[k]) else None)
  }

  /** The tables after a call: a call that raises changes nothing. */
  function Committed(t: Tables, r: Result<Tables, DbError>): Tables {
    if r.Ok? then r.value else t
  }

  function Raised(r: Result<Tables, DbError>): Option<DbError> {
    if r.Ok? then None else Some(r.error)
  }

  // ---- The class; each method is one critical section of the lock --------------------

  class ServerDB {
    var users: map<Str, User>
    var documents: map<seq<Byte>, Document>
    var shares: map<ShareKey, ShareRow>

    ghost function State(): Tables
      reads this
    {
      Tables(users, documents, shares)
    }

    constructor ()
      ensures State() == EMPTY
    {
      users, documents, shares := map[], map[], map[];
    }

    method CreateUser(name: Str, u: User) returns (raised: Option<DbError>)
      modifies this
      ensures State() == Committed(old(State()), AddUser(old(State()), name, u))
      ensures raised == Raised(AddUser(old(State()), name, u))
    {
      if !Storable(name) {
        return Some(Unencodable);
      } else if !ArgonFits(u.argon2) {
        return Some(OutOfRange);
      } else if name in users {
        return Some(AlreadyExists);
      }
      users := users[name := u];
      raised := None;
    }

    method GetUser(name: Str) returns (r: Result<Option<User>, DbError>)
      ensures r == FindUser(State(), name)
    {
      if !Storable(name) {
        return Err(Unencodable);
      }
      r := Ok(if name in users then Some(users[name]) else None);
    }

    method UpdateUserAuth(name: Str, salt: seq<Byte>, a: Argon2, authPub: seq<Byte>) returns (raised: Option<DbError>)
      modifies this
      ensures State() == Committed(old(State()), SetAuth(old(State()), name, salt, a, authPub))
      ensures raised == Raised(SetAuth(old(State()), name, salt, a, authPub))
    {
      if !ArgonFits(a) {
        return Some(OutOfRange);
      } else if !Storable(name) {
        return Some(Unencodable);
      } else if name !in users {
        return Some(NotFound);
      }
      users := users[name := users[name].(salt := salt, argon2 := a, authPub := authPub)];
      raised := None;
    }

    method CreateDocument(docId: seq<Byte>, d: Document) returns (raised: Option<DbError>)
      modifies this
      ensures State() == Committed(old(State()), AddDocument(old(State()), docId, d))
      ensures raised == Raised(AddDocument(old(State()), docId, d))
    {
      if d.version != 1 {
        return Some(BadVersion);
      }
      if !Storable(d.owner) {
        return Some(Unencodable);
      } else if !Fits(d.createdMs) {
        return Some(OutOfRange);
      } else if docId in documents {
        return Some(AlreadyExists);
      }
      documents := documents[docId := d];
      raised := None;
    }

    method UpdateDocument(docId: seq<Byte>, d: Document) returns (raised: Option<DbError>)
      modifies this
      ensures State() == Committed(old(State()), ReplaceDocument(old(State()), docId, d))
      ensures raised == Raised(ReplaceDocument(old(State()), docId, d))
    {
      if docId !in documents {
        return Some(NotFound);
      }
      var current := documents[docId];
      if d.version != current.version + 1 {
        return Some(BadVersion);
      }
      if !Fits(d.version) || !Fits(d.createdMs) {
        return Some(OutOfRange);
      }
      documents := documents[docId := Document(current.owner, d.version, d.createdMs, d.blob)];
      raised := None;
    }

    method GetDocument(docId: seq<Byte>) returns (d: Option<Document>)
      ensures d == if docId in documents then Some(documents[docId]) else None
    {
      d := if docId in documents then Some(documents[docId]) else None;
    }

    method CreateOrReplaceShare(k: ShareKey, s: ShareRow) returns (raised: Option<DbError>)
      modifies this
      ensures State() == Committed(old(State()), PutShare(old(State()), k, s))
      ensures raised == Raised(PutShare(old(State()), k, s))
    {
      if !Storable(k.recipient) {
        return Some(Unencodable);
      } else if !Fits(s.issuedMs) {
        return Some(OutOfRange);
      }
      shares := shares[k := s];
      raised := None;
    }

    method GetShare(k: ShareKey) returns (r: Result<Option<ShareRow>, DbError>)
      ensures r == FindShare(State(), k)
    {
      if !Storable(k.recipient) {
        return Err(Unencodable);
      }
      r := Ok(if k in shares then Some(shares[k]) else None);
    }
  }

  // ---- Runs of calls on documents -------------------------------------------------------

  datatype DocCall = Create(docId: seq<Byte>, d: Document) | Update(docId: seq<Byte>, d: Document)

  function Apply(t: Tables, c: DocCall): Result<Tables, DbError> {
    match c
    case Create(docId, d) => AddDocument(t, docId, d)
    case Update(docId, d) => ReplaceDocument(t, docId, d)
  }

  function AfterCalls(calls: seq<DocCall>, n: nat): Tables
    requires n <= |calls|
  {
    if n == 0 then EMPTY else Committed(AfterCalls(calls, n - 1), Apply(AfterCalls(calls, n - 1), calls[n - 1]))
  }

  /** How many of the first n calls were about the document and did not raise. */
  function Accepted(calls: seq<DocCall>, n: nat, docId: seq<Byte>): nat
    requires n <= |calls|
  {
    if n == 0 then 0
    else
      Accepted(calls, n - 1, docId)
      + if calls[n - 1].docId == docId && Apply(AfterCalls(calls, n - 1), calls[n - 1]).Ok? then 1 else 0
  }

  /** The version of a stored document counts the calls that were accepted for it: the creation
      and then each update. */
  lemma {:induction false} VersionCounts(calls: seq<DocCall>, n: nat, docId: seq<Byte>)
    requires n <= |calls|
    ensures docId in AfterCalls(calls, n).documents <==> Accepted(calls, n, docId) > 0
    ensures docId in AfterCalls(calls, n).documents ==>
              AfterCalls(calls, n).documents[docId].version == Accepted(calls, n, docId)
  {
    if n > 0 {
      VersionCounts(calls, n - 1, docId);
    }
  }

  /** A document keeps its owner, and its version only grows. */
  lemma {:induction false} DocumentHistory(calls: seq<DocCall>, m: nat, n: nat, docId: seq<Byte>)
    requires m <= n <= |calls| && docId in AfterCalls(calls, m).documents
    ensures docId in AfterCalls(calls, n).documents
    ensures AfterCalls(calls, n).documents[docId].owner == AfterCalls(calls, m).documents[docId].owner
    ensures AfterCalls(calls, n).documents[docId].version >= AfterCalls(calls, m).documents[docId].version
    ensures AfterCalls(calls, n).documents[docId].version == AfterCalls(calls, m).documents[docId].version
       ==> AfterCalls(calls, n).documents[docId] == AfterCalls(calls, m).documents[docId]
  {
    if m < n {
      DocumentHistory(calls, m, n - 1, docId);
    }
  }
}
