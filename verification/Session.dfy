/** server/session.py: used request nonces, pending login challenges, and the strings that
    requests sign. Each method of the class runs under the session lock. */
module Session {
  import opened Bits
  import opened Wrappers
  import opened Utf8
  import Ecdsa
  import Formats
  import P256

  const CHALLENGE_TTL_SECONDS: real := 60.0
  const CHALLENGE_LEN: nat := 32

  datatype Challenge = Challenge(bytes: seq<Byte>, issuedAt: real)

  /** The two collections the lock protects. */
  datatype Contents = Contents(usedNonces: set<Str>, challenges: map<Str, Challenge>)

  // ---- One call each -------------------------------------------------------------

  /** `issue_challenge`: the newest challenge of a user replaces an older one. */
  function Issue(s: Contents, user: Str, challenge: seq<Byte>, now: real): Contents {
    s.(challenges := s.challenges[user := Challenge(challenge, now)])
  }

  /** `consume_challenge`: whatever happens, the challenge is gone. */
  function Consume(s: Contents, user: Str, now: real): (Contents, Option<seq<Byte>>) {
    if user !in s.challenges then (s, None)
    else
      var c := s.challenges[user];
      (s.(challenges := s.challenges - {user}),
       if now - c.issuedAt > CHALLENGE_TTL_SECONDS then None else Some(c.bytes))
  }

  /** `check_and_consume_nonce`; the empty string is never accepted. */
  function UseNonce(s: Contents, nonce: Str): (Contents, bool) {
    if nonce == [] || nonce in s.usedNonces then (s, false)
    else (s.(usedNonces := s.usedNonces + {nonce}), true)
  }

  class SessionState {
    var usedNonces: set<Str>
    var challenges: map<Str, Challenge>
    const ttl: real

    ghost function State(): Contents
      reads this
    {
      Contents(usedNonces, challenges)
    }

    constructor ()
      ensures State() == Contents({}, map[]) && ttl == CHALLENGE_TTL_SECONDS
    {
      usedNonces, challenges, ttl := {}, map[], CHALLENGE_TTL_SECONDS;
    }

    /** The random challenge and the clock reading are inputs. */
    method IssueChallenge(username: Str, challenge: seq<Byte>, now: real)
      modifies this
      ensures State() == Issue(old(State()), username, challenge, now)
    {
      challenges := challenges[username := Challenge(challenge, now)];
    }

    method ConsumeChallenge(username: Str, now: real) returns (challenge: Option<seq<Byte>>)
      requires ttl == CHALLENGE_TTL_SECONDS
      modifies this
      ensures (State(), challenge) == Consume(old(State()), username, now)
    {
      if username !in challenges {
        return None;
      }
      var entry := challenges[username];
      challenges := challenges - {username};
      if now - entry.issuedAt > ttl {
        return None;
      }
      challenge := Some(entry.bytes);
    }

    method CheckAndConsumeNonce(nonce: Str) returns (isNew: bool)
      modifies this
      ensures (State(), isNew) == UseNonce(old(State()), nonce)
    {
      if nonce == [] {
        return false;
      }
      if nonce in usedNonces {
        return false;
      }
      usedNonces := usedNonces + {nonce};
      isNew := true;
    }
  }

  // ---- Runs of calls ------------------------------------------------------------------

  datatype Call =
    | IssueCall(user: Str, challenge: seq<Byte>, now: real)
    | ConsumeCall(user: Str, now: real)
    | NonceCall(nonce: Str)

  /** The state after the first `n` calls. */
  function After(calls: seq<Call>, n: nat): Contents
    requires n <= |calls|
  {
    if n == 0 then Contents({}, map[])
    else
      var s := After(calls, n - 1);
      match calls[n - 1]
      case IssueCall(user, challenge, now) => Issue(s, user, challenge, now)
      case ConsumeCall(user, now) => Consume(s, user, now).0
      case NonceCall(nonce) => UseNonce(s, nonce).0
  }

  predicate Presents(call: Call, nonce: Str) {
    call == NonceCall(nonce)
  }

  lemma {:induction false} UsedMeansPresented(calls: seq<Call>, n: nat, nonce: Str)
    requires n <= |calls| && nonce != []
    ensures nonce in After(calls, n).usedNonces <==> exists j :: 0 <= j < n && Presents(calls[j], nonce)
  {
    if n > 0 {
      UsedMeansPresented(calls, n - 1, nonce);
      if Presents(calls[n - 1], nonce) {
        assert nonce in After(calls, n).usedNonces;
      }
      if j :| 0 <= j < n - 1 && Presents(calls[j], nonce) {
        assert nonce in After(calls, n).usedNonces;
      }
    }
  }

  /** In any run, a nonce is accepted exactly when it is not empty and no earlier call presented it. */
  lemma NonceAcceptedOnce(calls: seq<Call>, i: nat, nonce: Str)
    requires i < |calls| && Presents(calls[i], nonce)
    ensures UseNonce(After(calls, i), nonce).1
       <==> nonce != [] && forall j :: 0 <= j < i ==> !Presents(calls[j], nonce)
  {
    if nonce != [] {
      UsedMeansPresented(calls, i, nonce);
    }
  }

  predicate Touches(call: Call, user: Str) {
    (call.IssueCall? || call.ConsumeCall?) && call.user == user
  }

  /** Call i issued the challenge of the user that is still pending before call n. */
  predicate LastTouch(calls: seq<Call>, n: nat, user: Str, i: nat)
    requires n <= |calls|
  {
    && i < n && calls[i].IssueCall? && calls[i].user == user
    && forall j :: i < j < n ==> !Touches(calls[j], user)
  }

  /** The user's pending challenge is the one that `call` issued. */
  predicate Pending(s: Contents, user: Str, call: Call) {
    call.IssueCall? && user in s.challenges && s.challenges[user] == Challenge(call.challenge, call.now)
  }

  lemma {:induction false} PendingMeansIssued(calls: seq<Call>, n: nat, user: Str)
    requires n <= |calls|
    ensures user in After(calls, n).challenges
       <==> exists i: nat :: LastTouch(calls, n, user, i)
    ensures forall i: nat | LastTouch(calls, n, user, i) :: Pending(After(calls, n), user, calls[i])
  {
    if n > 0 {
      PendingMeansIssued(calls, n - 1, user);
      var m, call := n - 1, calls[n - 1];
      if Touches(call, user) {
        if call.IssueCall? {
          assert LastTouch(calls, n, user, n - 1);
        }
      } else {
        forall i: nat ensures LastTouch(calls, n, user, i) == LastTouch(calls, m, user, i) {
        }
        assert (user in After(calls, n).challenges) == (user in After(calls, m).challenges);
        if i: nat :| LastTouch(calls, m, user, i) {
          assert LastTouch(calls, n, user, i);
        }
      }
    }
  }

  /** A challenge is handed out exactly when it was issued to that user at most 60 seconds before
      and no later call issued or asked for one: each challenge at most once, and never stale. */
  lemma ChallengeIsOneShot(calls: seq<Call>, n: nat, user: Str, now: real, challenge: seq<Byte>)
    requires n < |calls| && calls[n] == ConsumeCall(user, now)
    ensures Consume(After(calls, n), user, now).1 == Some(challenge)
       <==> exists i: nat :: LastTouch(calls, n, user, i) && calls[i].challenge == challenge
              && now - calls[i].now <= CHALLENGE_TTL_SECONDS
  {
    PendingMeansIssued(calls, n, user);
  }

  // ---- Request signatures ------------------------------------------------------------

  /** `verify_request_signature`; false also where encoding the string raises. */
  predicate SignedBy(publicKey: seq<Byte>, canonical: Str, signature: seq<Byte>) {
    var text := Encode(canonical);
    var sig := Ecdsa.SignatureFromBytes(signature);
    text.Some? && sig.Some? && Ecdsa.Verify(publicKey, text.value, sig.value)
  }

  /** The signature check accepts a text exactly when it encodes and the 64 bytes are a genuine signature of
      its UTF-8 bytes under the key. */
  lemma SignedByIff(publicKey: seq<Byte>, canonical: Str, signature: seq<Byte>)
    requires P256.StandardFacts()
    ensures SignedBy(publicKey, canonical, signature)
       <==> Encode(canonical).Some? && Ecdsa.Genuine(publicKey, Encode(canonical).value, signature)
  {
    hide P256.StandardFacts, Encode, Ecdsa.Verify, Ecdsa.SignatureFromBytes, Ecdsa.Genuine;
    if Encode(canonical).Some? {
      Ecdsa.BytesVerifyIff(publicKey, Encode(canonical).value, signature);
    }
  }

  const COLON: Str := [0x3A]

  function PayloadUpload(owner: Str, nonce: Str): Str {
    Ascii("upload:") + owner + COLON + nonce
  }

  function PayloadShare(sender: Str, docId: Str, recipient: Str, nonce: Str): Str {
    Ascii("share:") + sender + COLON + docId + COLON + recipient + COLON + nonce
  }

  function PayloadDownload(user: Str, docId: Str, nonce: Str): Str {
    Ascii("download:") + user + COLON + docId + COLON + nonce
  }

  function PayloadChangePassword(user: Str, nonce: Str): Str {
    Ascii("change_password:") + user + COLON + nonce
  }

  /** The texts that are signed, on one-letter parts. */
  lemma SignedTexts()
    ensures PayloadUpload(Ascii("o"), Ascii("n")) == Ascii("upload:o:n")
    ensures PayloadDownload(Ascii("u"), Ascii("d"), Ascii("n")) == Ascii("download:u:d:n")
  {
  }

  lemma SignedShareText()
    ensures PayloadShare(Ascii("s"), Ascii("d"), Ascii("r"), Ascii("n")) == Ascii("share:s:d:r:n")
  {
  }

  lemma SignedPasswordText()
    ensures PayloadChangePassword(Ascii("u"), Ascii("n")) == Ascii("change_password:u:n")
  {
  }

  predicate NoColon(s: Str) {
    0x3A !in s
  }

  lemma ColonsAfter(a: Str, s: Str, i: nat)
    requires NoColon(a) && i < |a + COLON + s|
    ensures (a + COLON + s)[i] == 0x3A ==> i >= |a|
  {
    assert i < |a| ==> (a + COLON + s)[i] == a[i] && a[i] in a;
  }

  lemma ColonsBefore(s: Str, a: Str, i: nat)
    requires NoColon(a) && i < |s + COLON + a|
    ensures (s + COLON + a)[i] == 0x3A ==> i <= |s|
  {
    assert i > |s| ==> (s + COLON + a)[i] == a[i - |s| - 1] && a[i - |s| - 1] in a;
  }

  /** A string splits in one way at its first colon. */
  lemma FirstColon(a: Str, s: Str, b: Str, t: Str)
    requires NoColon(a) && NoColon(b) && a + COLON + s == b + COLON + t
    ensures a == b && s == t
  {
    var u := a + COLON + s;
    assert u[|a|] == 0x3A && u[|b|] == 0x3A;
    ColonsAfter(a, s, |b|);
    ColonsAfter(b, t, |a|);
    assert u[..|a|] == a && u[..|b|] == b;
    assert u[|a| + 1..] == s && u[|b| + 1..] == t;
  }

  /** A string splits in one way at its last colon. */
  lemma LastColon(s: Str, a: Str, t: Str, b: Str)
    requires NoColon(a) && NoColon(b) && s + COLON + a == t + COLON + b
    ensures a == b && s == t
  {
    var u := s + COLON + a;
    assert u[|s|] == 0x3A && u[|t|] == 0x3A;
    ColonsBefore(s, a, |t|);
    ColonsBefore(t, b, |s|);
    assert u[..|s|] == s && u[..|t|] == t;
    assert u[|s| + 1..] == a && u[|t| + 1..] == b;
  }

  /** Under one sender, a signed share string stands for one document, recipient and nonce when
      the identifier and the nonce hold no colon, as hexadecimal and base64 text never does. */
  lemma ShareStringUnambiguous(sender: Str, d: Str, r: Str, n: Str, d': Str, r': Str, n': Str)
    requires NoColon(d) && NoColon(d') && NoColon(n) && NoColon(n')
    requires PayloadShare(sender, d, r, n) == PayloadShare(sender, d', r', n')
    ensures d == d' && r == r' && n == n'
  {
    var p := Ascii("share:") + sender + COLON;
    var u, u' := d + COLON + (r + COLON + n), d' + COLON + (r' + COLON + n');
    assert PayloadShare(sender, d, r, n) == p + u && PayloadShare(sender, d', r', n') == p + u';
    assert (p + u)[|p|..] == u && (p + u')[|p|..] == u';
    FirstColon(d, r + COLON + n, d', r' + COLON + n');
    LastColon(r, n, r', n');
  }

  lemma DownloadStringUnambiguous(user: Str, d: Str, n: Str, d': Str, n': Str)
    requires NoColon(d) && NoColon(d')
    requires PayloadDownload(user, d, n) == PayloadDownload(user, d', n')
    ensures d == d' && n == n'
  {
    var p := Ascii("download:") + user + COLON;
    var u, u' := d + COLON + n, d' + COLON + n';
    assert PayloadDownload(user, d, n) == p + u && PayloadDownload(user, d', n') == p + u';
    assert (p + u)[|p|..] == u && (p + u')[|p|..] == u';
    FirstColon(d, n, d', n');
  }

  /** A prefix is cut off. */
  lemma CutPrefix(p: Str, s: Str, t: Str)
    requires p + s == p + t
    ensures s == t
  {
    assert (p + s)[|p|..] == s && (p + t)[|p|..] == t;
  }

  /** With nonces free of colons, as base64 text is, an upload string fixes owner and nonce. */
  lemma UploadStringInjective(u: Str, n: Str, u': Str, n': Str)
    requires NoColon(n) && NoColon(n') && PayloadUpload(u, n) == PayloadUpload(u', n')
    ensures u == u' && n == n'
  {
    var p := Ascii("upload:");
    assert PayloadUpload(u, n) == p + (u + COLON + n) && PayloadUpload(u', n') == p + (u' + COLON + n');
    CutPrefix(p, u + COLON + n, u' + COLON + n');
    LastColon(u, n, u', n');
  }

  lemma ChangePasswordStringInjective(u: Str, n: Str, u': Str, n': Str)
    requires NoColon(n) && NoColon(n') && PayloadChangePassword(u, n) == PayloadChangePassword(u', n')
    ensures u == u' && n == n'
  {
    var p := Ascii("change_password:");
    assert PayloadChangePassword(u, n) == p + (u + COLON + n) && PayloadChangePassword(u', n') == p + (u' + COLON + n');
    CutPrefix(p, u + COLON + n, u' + COLON + n');
    LastColon(u, n, u', n');
  }

  /** With identifiers and nonces free of colons, a download string fixes all its parts. */
  lemma DownloadStringInjective(u: Str, d: Str, n: Str, u': Str, d': Str, n': Str)
    requires NoColon(d) && NoColon(d') && NoColon(n) && NoColon(n')
    requires PayloadDownload(u, d, n) == PayloadDownload(u', d', n')
    ensures u == u' && d == d' && n == n'
  {
    var p := Ascii("download:");
    assert PayloadDownload(u, d, n) == p + (u + COLON + d + COLON + n);
    assert PayloadDownload(u', d', n') == p + (u' + COLON + d' + COLON + n');
    CutPrefix(p, u + COLON + d + COLON + n, u' + COLON + d' + COLON + n');
    LastColon(u + COLON + d, n, u' + COLON + d', n');
    LastColon(u, d, u', d');
  }

  /** The part of a share string between its kind and its nonce. */
  function ShareMiddle(sender: Str, docId: Str, recipient: Str): Str {
    sender + COLON + docId + COLON + recipient
  }

  /** Exactly when two share strings coincide, the nonces being free of colons. */
  lemma ShareCollisionIff(s: Str, d: Str, r: Str, n: Str, s': Str, d': Str, r': Str, n': Str)
    requires NoColon(n) && NoColon(n')
    ensures PayloadShare(s, d, r, n) == PayloadShare(s', d', r', n')
       <==> n == n' && ShareMiddle(s, d, r) == ShareMiddle(s', d', r')
  {
    var p, m, m' := Ascii("share:"), ShareMiddle(s, d, r), ShareMiddle(s', d', r');
    assert PayloadShare(s, d, r, n) == p + (m + COLON + n) && PayloadShare(s', d', r', n') == p + (m' + COLON + n');
    if PayloadShare(s, d, r, n) == PayloadShare(s', d', r', n') {
      CutPrefix(p, m + COLON + n, m' + COLON + n');
      LastColon(m, n, m', n');
    }
  }

  /** Share strings of different senders do not coincide when the senders, or the recipients, are
      free of colons. */
  lemma ShareStringInjective(s: Str, d: Str, r: Str, n: Str, s': Str, d': Str, r': Str, n': Str)
    requires NoColon(d) && NoColon(d') && NoColon(n) && NoColon(n')
    requires (NoColon(s) && NoColon(s')) || (NoColon(r) && NoColon(r'))
    requires PayloadShare(s, d, r, n) == PayloadShare(s', d', r', n')
    ensures s == s' && d == d' && r == r' && n == n'
  {
    ShareCollisionIff(s, d, r, n, s', d', r', n');
    if NoColon(s) && NoColon(s') {
      assert ShareMiddle(s, d, r) == s + COLON + (d + COLON + r);
      assert ShareMiddle(s', d', r') == s' + COLON + (d' + COLON + r');
      FirstColon(s, d + COLON + r, s', d' + COLON + r');
      FirstColon(d, r, d', r');
    } else {
      LastColon(s + COLON + d, r, s' + COLON + d', r');
      LastColon(s, d, s', d');
    }
  }

  /** t is s, a colon and more. */
  predicate ColonPrefix(s: Str, t: Str) {
    |s| < |t| && t[..|s|] == s && t[|s|] == 0x3A
  }

  /** Some requests of the two senders, with identifiers free of colons, sign the same string. */
  ghost predicate SendersMeet(s: Str, s': Str) {
    exists d: Str, r: Str, d': Str, r': Str, n: Str | NoColon(d) && NoColon(d') ::
      PayloadShare(s, d, r, n) == PayloadShare(s', d', r', n)
  }

  /** The text before the first colon. */
  function FirstSegment(x: Str): (d: Str)
    ensures NoColon(d) && |d| <= |x| && x[..|d|] == d
    ensures |d| < |x| ==> x[|d|] == 0x3A
  {
    if x == [] || x[0] == 0x3A then [] else [x[0]] + FirstSegment(x[1..])
  }

  lemma MeetingMiddles(s: Str, d: Str, y: Str)
    ensures ShareMiddle(s + COLON + d + COLON + y, [], []) == ShareMiddle(s, d, y + COLON + COLON)
    ensures ShareMiddle(s + COLON + d, [], []) == ShareMiddle(s, d, COLON)
  {
  }

  lemma Meets(s: Str, d: Str, r: Str, s': Str)
    requires NoColon(d) && ShareMiddle(s', [], []) == ShareMiddle(s, d, r)
    ensures SendersMeet(s, s')
  {
    var e: Str := [];
    ShareCollisionIff(s, d, r, e, s', e, e, e);
    assert NoColon(e) && PayloadShare(s, d, r, e) == PayloadShare(s', e, e, e);
  }

  /** A longer sender that goes on with a colon meets the shorter one. */
  lemma LongerSenderMeets(s: Str, s': Str)
    requires ColonPrefix(s, s')
    ensures SendersMeet(s, s')
  {
    hide ShareMiddle, SendersMeet, FirstSegment;
    var x := s'[|s| + 1..];
    var d := FirstSegment(x);
    assert s' == s + COLON + x;
    if |d| < |x| {
      var y := x[|d| + 1..];
      assert x == d + COLON + y && s' == s + COLON + d + COLON + y;
      MeetingMiddles(s, d, y);
      Meets(s, d, y + COLON + COLON, s');
    } else {
      assert x == d;
      MeetingMiddles(s, d, []);
      Meets(s, d, COLON, s');
    }
  }

  /** Exactly which different senders can sign the same share string: one is the other, a colon
      and more. Names without colons never meet. */
  lemma SendersMeetIff(s: Str, s': Str)
    requires s != s'
    ensures SendersMeet(s, s') <==> ColonPrefix(s, s') || ColonPrefix(s', s)
  {
    if ColonPrefix(s, s') {
      LongerSenderMeets(s, s');
    } else if ColonPrefix(s', s) {
      LongerSenderMeets(s', s);
    }
    if SendersMeet(s, s') {
      var d: Str, r: Str, d': Str, r': Str, n: Str :| NoColon(d) && NoColon(d')
        && PayloadShare(s, d, r, n) == PayloadShare(s', d', r', n);
      var p, y, y' := Ascii("share:"), d + COLON + r + COLON + n, d' + COLON + r' + COLON + n;
      assert PayloadShare(s, d, r, n) == p + (s + COLON + y) && PayloadShare(s', d', r', n) == p + (s' + COLON + y');
      MeetingSenders(s, y, s', y');
    }
  }

  lemma MeetingSenders(s: Str, y: Str, s': Str, y': Str)
    requires s != s' && Ascii("share:") + (s + COLON + y) == Ascii("share:") + (s' + COLON + y')
    ensures ColonPrefix(s, s') || ColonPrefix(s', s)
  {
    CutPrefix(Ascii("share:"), s + COLON + y, s' + COLON + y');
    var u := s + COLON + y;
    assert u[|s|] == 0x3A && u[|s'|] == 0x3A && u[..|s|] == s && u[..|s'|] == s';
    assert |s| == |s'| ==> s == s';
  }

  // The same for the identifiers that the server accepts.

  /** Sixteen bytes in hexadecimal, as `bytes.fromhex` reads them. */
  predicate Identifier(d: Str) {
    FromHex(d).Some? && |FromHex(d).value| == Formats.DOC_ID_LEN
  }

  lemma {:induction false} HexHasNoColon(d: Str)
    requires FromHex(d).Some?
    ensures NoColon(d)
    decreases |d|
  {
    if d != [] {
      if IsSpace(d[0]) {
        HexHasNoColon(d[1..]);
        assert d == [d[0]] + d[1..];
      } else {
        HexHasNoColon(d[2..]);
        assert d == [d[0], d[1]] + d[2..];
      }
    }
  }

  /** Some requests of the two senders with identifiers that the server accepts sign the same string. */
  ghost predicate RequestsMeet(s: Str, s': Str) {
    exists d: Str, r: Str, d': Str, r': Str, n: Str | Identifier(d) && Identifier(d') ::
      PayloadShare(s, d, r, n) == PayloadShare(s', d', r', n)
  }

  /** The longer name goes on with a colon and such an identifier, up to its next colon or its end. */
  predicate Continues(s: Str, s': Str) {
    ColonPrefix(s, s') && Identifier(FirstSegment(s'[|s| + 1..]))
  }

  lemma {:induction false} FirstSegmentStays(a: Str, s: Str)
    ensures FirstSegment(a + COLON + s) == FirstSegment(a)
    ensures NoColon(a) ==> FirstSegment(a) == a
  {
    if a == [] {
      assert (a + COLON + s)[0] == 0x3A;
    } else {
      assert (a + COLON + s)[1..] == a[1..] + COLON + s;
      FirstSegmentStays(a[1..], s);
    }
  }

  lemma ContinuedMeets(s: Str, s': Str)
    requires Continues(s, s')
    ensures RequestsMeet(s, s') && RequestsMeet(s', s)
  {
    hide Identifier, FirstSegment;
    var x := s'[|s| + 1..];
    var d, e: Str := FirstSegment(x), [];
    assert s' == s + COLON + x;
    var r := (if |d| < |x| then x[|d| + 1..] + COLON else []) + d + COLON;
    if |d| < |x| {
      assert x == d + COLON + x[|d| + 1..];
    } else {
      assert x == d;
    }
    assert ShareMiddle(s, d, r) == ShareMiddle(s', d, e);
    ShareCollisionIff(s, d, r, e, s', d, e, e);
    assert PayloadShare(s, d, r, e) == PayloadShare(s', d, e, e);
  }

  lemma MeetsContinued(s: Str, d: Str, r: Str, s': Str, d': Str, r': Str, n: Str)
    requires Identifier(d) && ColonPrefix(s, s') && PayloadShare(s, d, r, n) == PayloadShare(s', d', r', n)
    ensures Continues(s, s')
  {
    hide Identifier;
    var p, x, y, y' := Ascii("share:") + s + COLON, s'[|s| + 1..], r + COLON + n, d' + COLON + r' + COLON + n;
    assert s' == s + COLON + x;
    assert PayloadShare(s, d, r, n) == p + (d + COLON + y) && PayloadShare(s', d', r', n) == p + (x + COLON + y');
    CutPrefix(p, d + COLON + y, x + COLON + y');
    IdentifierHasNoColon(d);
    FirstSegmentStays(d, y);
    FirstSegmentStays(x, y');
  }

  lemma IdentifierHasNoColon(d: Str)
    requires Identifier(d)
    ensures NoColon(d)
  {
    HexHasNoColon(d);
  }

  /** Requests of different senders that get past the identifier check can sign the same string exactly
      when one name is the other, a colon and such an identifier, then nothing or a colon and more. */
  lemma RequestsMeetIff(s: Str, s': Str)
    requires s != s'
    ensures RequestsMeet(s, s') <==> Continues(s, s') || Continues(s', s)
  {
    hide Identifier, Continues, FirstSegment;
    if Continues(s, s') {
      ContinuedMeets(s, s');
    } else if Continues(s', s) {
      ContinuedMeets(s', s);
    }
    if RequestsMeet(s, s') {
      var d: Str, r: Str, d': Str, r': Str, n: Str :| Identifier(d) && Identifier(d')
        && PayloadShare(s, d, r, n) == PayloadShare(s', d', r', n);
      var p, y, y' := Ascii("share:"), d + COLON + r + COLON + n, d' + COLON + r' + COLON + n;
      assert PayloadShare(s, d, r, n) == p + (s + COLON + y) && PayloadShare(s', d', r', n) == p + (s' + COLON + y');
      MeetingSenders(s, y, s', y');
      if ColonPrefix(s, s') {
        MeetsContinued(s, d, r, s', d', r', n);
      } else {
        MeetsContinued(s', d', r', s, d, r, n);
      }
    }
  }

  /** Names with colons make the strings of different senders coincide. */
  lemma ShareStringAmbiguous(x: Str, d: Str, y: Str, n: Str)
    ensures PayloadShare(x, d, y + COLON + d + COLON + x, n) == PayloadShare(x + COLON + d + COLON + y, d, x, n)
  {
    var p := Ascii("share:");
    var all := p + x + COLON + d + COLON + y + COLON + d + COLON + x + COLON + n;
    assert PayloadShare(x, d, y + COLON + d + COLON + x, n) == all;
    assert PayloadShare(x + COLON + d + COLON + y, d, x, n) == all;
  }

  /** A string signed for one kind of request never serves for another. */
  lemma KindsDisjoint(u: Str, n: Str, s: Str, d: Str, r: Str, m: Str)
    ensures PayloadUpload(u, n) != PayloadShare(s, d, r, m)
    ensures PayloadUpload(u, n) != PayloadDownload(s, d, m)
    ensures PayloadShare(s, d, r, m) != PayloadDownload(u, d, n)
    ensures PayloadChangePassword(u, n) != PayloadUpload(s, m)
    ensures PayloadChangePassword(u, n) != PayloadShare(s, d, r, m)
    ensures PayloadChangePassword(u, n) != PayloadDownload(s, d, m)
  {
    assert PayloadUpload(u, n)[0] == 'u' as int && PayloadShare(s, d, r, m)[0] == 's' as int;
    assert PayloadDownload(s, d, m)[0] == 'd' as int && PayloadDownload(u, d, n)[0] == 'd' as int;
    assert PayloadChangePassword(u, n)[0] == 'c' as int && PayloadUpload(s, m)[0] == 'u' as int;
  }
}
