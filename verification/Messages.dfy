/** common/wire.py and `_rpc`: how long the frames of requests and replies are, and what becomes of
    a request or a reply whose frame is too long. Lengths are those of `json.dumps` with sorted keys
    and no spaces; binary fields are base64 text. */
module Messages {
  import opened Bits
  import opened Wrappers
  import opened Utf8
  import opened Database
  import opened Formats
  import opened Server
  import Session
  import Wire

  // ---- JSON text -----------------------------------------------------------------------

  /** Characters a code point takes in a JSON string that is kept to ASCII. */
  function EscapedOne(c: CodePoint): nat {
    if c == 0x22 || c == 0x5C || c == 8 || c == 9 || c == 10 || c == 12 || c == 13 then 2
    else if 0x20 <= c <= 0x7E then 1
    else if c < 0x10000 then 6
    else 12
  }

  /** Four hexadecimal digits behind a backslash and a u. */
  function UnicodeEscape(x: int): Str
    requires 0 <= x < 0x10000
  {
    Ascii("\\u") + [HexDigit(x / 4096), HexDigit(x / 256 % 16), HexDigit(x / 16 % 16), HexDigit(x % 16)]
  }

  /** The text of one code point (section 7 of RFC 8259): a short escape where there is one, and a surrogate pair
      beyond 0xFFFF. */
  function EscapeText(c: CodePoint): Str {
    if c == '"' as int then Ascii("\\\"")
    else if c == '\\' as int then Ascii("\\\\")
    else if c == 8 then Ascii("\\b")
    else if c == 9 then Ascii("\\t")
    else if c == 10 then Ascii("\\n")
    else if c == 12 then Ascii("\\f")
    else if c == 13 then Ascii("\\r")
    else if ' ' as int <= c <= '~' as int then [c]
    else if c < 0x10000 then UnicodeEscape(c)
    else UnicodeEscape(0xD800 + (c - 0x10000) / 1024) + UnicodeEscape(0xDC00 + (c - 0x10000) % 1024)
  }

  lemma EscapeLength(c: CodePoint)
    ensures |EscapeText(c)| == EscapedOne(c)
  {
  }

  function Escaped(s: Str): nat {
    if s == [] then 0 else EscapedOne(s[0]) + Escaped(s[1..])
  }

  /** The length of a string with its quotes. */
  function TextLength(s: Str): nat {
    2 + Escaped(s)
  }

  /** The length of n bytes as base64 text with its quotes. */
  function DataLength(n: nat): nat {
    2 + 4 * ((n + 2) / 3)
  }

  function NumberLength(x: int): nat
    decreases if x < 0 then 1 - x else x
  {
    if x < 0 then 1 + NumberLength(-x) else if x < 10 then 1 else 1 + NumberLength(x / 10)
  }

  /** A key with its quotes, the colon, the value, and the comma or brace that follows. */
  function Field(key: string, value: nat): nat {
    |key| + 4 + value
  }

  const NULL: nat := 4

  function ArgonLength(a: Argon2): nat {
    1 + Field("t", NumberLength(a.t)) + Field("m", NumberLength(a.m)) + Field("p", NumberLength(a.p))
  }

  // ---- Frames -----------------------------------------------------------------------------

  /** The length field's value for a request: the type byte, the opening brace and the fields. */
  function RequestLength(r: Request): nat {
    2 + match r
        case Malformed => 1
        case Register(name, u) =>
          Field("username", TextLength(name)) + Field("salt", DataLength(|u.salt|))
          + Field("argon2_params", ArgonLength(u.argon2)) + Field("auth_pub", DataLength(|u.authPub|))
          + Field("sig_pub", DataLength(|u.sigPub|)) + Field("dh_pub", DataLength(|u.dhPub|))
        case GetSalt(name) => Field("username", TextLength(name))
        case GetUserPubkey(name) => Field("username", TextLength(name))
        case LoginChallenge(name) => Field("username", TextLength(name))
        case Login(name, response) =>
          Field("username", TextLength(name))
          + Field("challenge_signature", if response.Some? then DataLength(|response.value|) else NULL)
        case Upload(owner, nonce, signature, document) =>
          Field("owner", TextLength(owner)) + Field("document", DataLength(|document|))
          + Field("request_nonce", TextLength(nonce)) + Field("request_signature", DataLength(|signature|))
        case ShareDoc(sender, recipient, docIdHex, nonce, signature, blob) =>
          Field("sender", TextLength(sender)) + Field("recipient", TextLength(recipient))
          + Field("doc_id", TextLength(docIdHex)) + Field("share_blob", DataLength(|blob|))
          + Field("request_nonce", TextLength(nonce)) + Field("request_signature", DataLength(|signature|))
        case GetDoc(reader, docIdHex, nonce, signature) =>
          Field("user", TextLength(reader)) + Field("doc_id", TextLength(docIdHex))
          + Field("request_nonce", TextLength(nonce)) + Field("request_signature", DataLength(|signature|))
        case ChangePassword(name, nonce, signature, newSalt, newArgon2, newAuthPub) =>
          Field("username", TextLength(name)) + Field("request_nonce", TextLength(nonce))
          + Field("old_auth_proof", DataLength(|signature|)) + Field("new_salt", DataLength(|newSalt|))
          + Field("new_argon2_params", if newArgon2.Some? then ArgonLength(newArgon2.value) else NULL)
          + Field("new_auth_pub", DataLength(|newAuthPub|))
  }

  /** The message of a plain OK. */
  function OkMessage(r: Request): Str {
    match r
    case Register(name, _) => Ascii("user '") + name + Ascii("' registered")
    case ShareDoc(_, recipient, _, _, _, _) => Ascii("shared with '") + recipient + Ascii("'")
    case Login(_, _) => Ascii("login successful")
    case _ => Ascii("password changed")
  }

  /** The same for the reply to a request. The text of errors is not modelled. */
  function ReplyLength(r: Request, reply: Reply): nat
    requires !reply.Failed?
  {
    2 + match reply
        case Done => Field("message", TextLength(OkMessage(r)))
        case Uploaded(docId) => Field("doc_id", 2 + 2 * |docId|)
        case SaltReply(salt, argon2) =>
          Field("salt", DataLength(|salt|)) + Field("argon2_params", ArgonLength(argon2))
        case ChallengeReply(salt, argon2, challenge) =>
          Field("salt", DataLength(|salt|)) + Field("argon2_params", ArgonLength(argon2))
          + Field("challenge", DataLength(|challenge|))
        case KeysReply(sigPub, dhPub) => Field("sig_pub", DataLength(|sigPub|)) + Field("dh_pub", DataLength(|dhPub|))
        case DocReply(document, share) =>
          Field("document", DataLength(|document|))
          + Field("share", if share.Some? then DataLength(|share.value|) else NULL)
  }

  predicate RequestFits(r: Request) {
    hide RequestLength;
    RequestLength(r) <= Wire.MAX_MESSAGE_LEN
  }

  predicate ReplyFits(r: Request, reply: Reply) {
    hide ReplyLength;
    reply.Failed? || ReplyLength(r, reply) <= Wire.MAX_MESSAGE_LEN
  }

  /** `_rpc` to a server that serves nothing else meanwhile: a request that is too long is not sent,
      and in place of a reply that is too long the server sends an error. */
  function RoundTrip(s: State, r: Request, env: Env): (State, Reply) {
    hide *;
    if !RequestFits(r) then (s, Failed(FrameTooLong))
    else
      var (s', reply) := Handle(s, r, env);
      (s', if ReplyFits(r, reply) then reply else Failed(FrameTooLong))
  }

  // ---- Names and small messages ---------------------------------------------------------------

  lemma {:induction false} EscapedAppend(a: Str, b: Str)
    ensures Escaped(a + b) == Escaped(a) + Escaped(b)
  {
    if a == [] {
      assert a + b == b;
    } else {
      assert (a + b)[1..] == a[1..] + b;
      EscapedAppend(a[1..], b);
    }
  }

  lemma {:induction false} EscapedBounds(s: Str)
    ensures |s| <= Escaped(s) <= 12 * |s|
    ensures (forall i :: 0 <= i < |s| ==> EscapedOne(s[i]) == 1) ==> Escaped(s) == |s|
  {
    if s != [] {
      EscapedBounds(s[1..]);
    }
  }

  /** What `signup` sends around the name. */
  const REGISTER_OVERHEAD: nat := 392

  /** A REGISTER frame with this name fits. */
  predicate NameFits(name: Str) {
    REGISTER_OVERHEAD + TextLength(name) <= Wire.MAX_MESSAGE_LEN
  }

  lemma RegisterFits(r: Request)
    requires r.Register? && WellFormed(r) && r.user.argon2 == Argon2(2, 128 * 1024, 1)
    ensures RequestFits(r) <==> NameFits(r.username)
  {
    hide TextLength;
    assert NumberLength(131072) == 6;
  }

  /** The requests that carry little more than a name. */
  lemma NamedFits(name: Str, response: seq<Byte>)
    requires NameFits(name)
    ensures RequestFits(GetSalt(name)) && RequestFits(GetUserPubkey(name)) && RequestFits(LoginChallenge(name))
    ensures |response| == SIG_LEN ==> RequestFits(Login(name, Some(response)))
  {
    hide TextLength;
  }

  lemma {:induction false} NumberBound(x: nat, k: nat)
    requires x < Pow2(k)
    ensures NumberLength(x) <= k + 1
  {
    if x >= 10 {
      NumberBound(x / 10, k - 1);
    }
  }

  lemma FittingNumber(x: int)
    requires Fits(x)
    ensures NumberLength(x) <= 66
  {
    Pow256Fields();
    Pow256IsPow2(8);
    hide Pow2;
    NumberBound(if x < 0 then -x else x, 64);
  }

  /** Salts, parameters, challenges and public keys of the sizes the protocol uses come through. */
  lemma SmallReplies(r: Request, salt: seq<Byte>, a: Argon2, challenge: seq<Byte>, sigPub: seq<Byte>, dhPub: seq<Byte>)
    ensures |salt| == SALT_LEN && ArgonFits(a) ==> ReplyFits(r, SaltReply(salt, a))
    ensures |salt| == SALT_LEN && ArgonFits(a) && |challenge| == Session.CHALLENGE_LEN ==>
              ReplyFits(r, ChallengeReply(salt, a, challenge))
    ensures |sigPub| == PUBLIC_KEY_LEN && |dhPub| == PUBLIC_KEY_LEN ==> ReplyFits(r, KeysReply(sigPub, dhPub))
  {
    hide NumberLength, Fits;
    if ArgonFits(a) {
      FittingNumber(a.t);
      FittingNumber(a.m);
      FittingNumber(a.p);
    }
  }

  // ---- Documents ------------------------------------------------------------------------------

  /** What is sent around the text of a GET_DOC request and the blobs of its reply. */
  const GET_DOC_OVERHEAD: nat := 148
  const DOC_OVERHEAD: nat := 23

  lemma FetchLengths(r: Request, document: seq<Byte>, share: seq<Byte>)
    requires r.GetDoc? && |r.signature| == SIG_LEN
    ensures RequestLength(r) == GET_DOC_OVERHEAD + TextLength(r.reader) + TextLength(r.docIdHex) + TextLength(r.nonce)
    ensures ReplyLength(r, DocReply(document, Some(share)))
         == DOC_OVERHEAD + DataLength(|document|) + DataLength(|share|)
  {
    hide TextLength;
  }

  /** What is sent around names, identifiers, nonces and blobs by UPLOAD, SHARE and CHANGE_PASSWORD. */
  const UPLOAD_OVERHEAD: nat := 151
  const SHARE_OVERHEAD: nat := 177
  const CHANGE_OVERHEAD: nat := 328

  lemma SignedLengths(r: Request)
    requires Authenticated(r) && |r.signature| == SIG_LEN
    ensures r.Upload? ==>
              RequestLength(r) == UPLOAD_OVERHEAD + TextLength(r.owner) + TextLength(r.nonce) + DataLength(|r.document|)
    ensures r.ShareDoc? ==>
              RequestLength(r) == SHARE_OVERHEAD + TextLength(r.sender) + TextLength(r.recipient)
                                  + TextLength(r.docIdHex) + TextLength(r.nonce) + DataLength(|r.blob|)
    ensures r.ChangePassword? && WellFormed(r) && r.newArgon2 == Some(Argon2(2, 128 * 1024, 1)) ==>
              RequestLength(r) == CHANGE_OVERHEAD + TextLength(r.username) + TextLength(r.nonce)
  {
    hide TextLength;
    assert NumberLength(131072) == 6;
  }

  // ---- Which reply answers which request ----------------------------------------------------------

  predicate Answers(r: Request, reply: Reply) {
    match reply
    case Failed(_) => true
    case Done => r.Register? || r.Login? || r.ShareDoc? || r.ChangePassword?
    case Uploaded(docId) => r.Upload? && |docId| == DOC_ID_LEN
    case SaltReply(_, _) => r.GetSalt?
    case ChallengeReply(_, _, _) => r.LoginChallenge?
    case KeysReply(_, _) => r.GetUserPubkey?
    case DocReply(_, _) => r.GetDoc?
  }

  lemma IdentifierLength(r: Request)
    requires r.Upload? && UploadRow(r).Ok?
    ensures |UploadRow(r).value.docId| == DOC_ID_LEN
  {
    hide TakeStr, TakeInt;
  }

  lemma StepAnswers(s: State, pc: Pc, env: Env)
    requires Sensible(pc) && !pc.Finished? && Step(s, pc, env).1.Finished?
    ensures Answers(pc.request, Step(s, pc, env).1.reply)
  {
    hide CheckCaller, UploadRow, NewShareRow, FromHex, LoginVerifies, LoginSalt, Encode;
    if pc.request.Upload? && UploadRow(pc.request).Ok? {
      IdentifierLength(pc.request);
    }
  }

  lemma {:induction false} DriveAnswers(s: State, pc: Pc, env: Env)
    requires Sensible(pc) && (pc.Finished? ==> Answers(pc.request, pc.reply))
    ensures Answers(pc.request, Drive(s, pc, env).1)
    decreases Remaining(pc)
  {
    hide Step, Answers;
    if !pc.Finished? {
      var (s', pc') := Step(s, pc, env);
      if pc'.Finished? {
        StepAnswers(s, pc, env);
      }
      StepProgress(s, pc, env);
      DriveAnswers(s', pc', env);
    }
  }

  lemma PlainText(text: string)
    requires forall i :: 0 <= i < |text| ==> ' ' <= text[i] <= '~' && text[i] != '"' && text[i] != '\\'
    ensures Escaped(Ascii(text)) == |text|
  {
    EscapedBounds(Ascii(text));
  }

  lemma OkTexts()
    ensures Escaped(Ascii("user '")) == 6 && Escaped(Ascii("' registered")) == 12
    ensures Escaped(Ascii("shared with '")) == 13 && Escaped(Ascii("'")) == 1
    ensures Escaped(Ascii("login successful")) == 16 && Escaped(Ascii("password changed")) == 16
  {
    hide Escaped;
    PlainText("user '");
    PlainText("' registered");
    PlainText("shared with '");
    PlainText("'");
    PlainText("login successful");
    PlainText("password changed");
  }

  lemma MessageLength(r: Request)
    ensures r.Register? ==> TextLength(OkMessage(r)) == 20 + Escaped(r.username)
    ensures r.ShareDoc? ==> TextLength(OkMessage(r)) == 16 + Escaped(r.recipient)
    ensures !r.Register? && !r.ShareDoc? ==> TextLength(OkMessage(r)) == 18
  {
    hide Escaped, Ascii;
    OkTexts();
    if r.Register? {
      EscapedAppend(Ascii("user '"), r.username);
      EscapedAppend(Ascii("user '") + r.username, Ascii("' registered"));
    } else if r.ShareDoc? {
      EscapedAppend(Ascii("shared with '"), r.recipient);
      EscapedAppend(Ascii("shared with '") + r.recipient, Ascii("'"));
    }
  }

  /** An OK says less than its request. */
  lemma OkFits(r: Request, reply: Reply)
    requires RequestFits(r) && Answers(r, reply) && (reply.Done? || reply.Uploaded?)
    ensures ReplyFits(r, reply)
  {
    hide NumberLength, Escaped, OkMessage;
    MessageLength(r);
  }

  /** Requests answered by an OK alone fail by length only before they are sent. */
  lemma OkTrip(s: State, r: Request, env: Env)
    requires r.Register? || r.Login? || r.Upload? || r.ShareDoc? || r.ChangePassword?
    ensures RoundTrip(s, r, env) == if RequestFits(r) then Handle(s, r, env) else (s, Failed(FrameTooLong))
  {
    hide RequestFits, ReplyLength, Drive;
    DriveAnswers(s, Start(r), env);
    var reply := Handle(s, r, env).1;
    if RequestFits(r) && (reply.Done? || reply.Uploaded?) {
      OkFits(r, reply);
    }
  }
}
