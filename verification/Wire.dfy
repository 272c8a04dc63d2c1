/** common/wire.py: length-prefixed frames, and receiving them from a socket that may deliver
    the stream in any pieces. The JSON codec is a parameter. */
module Wire {
  import opened Bits
  import opened Wrappers

  const MAX_MESSAGE_LEN: nat := 128 * 1024 * 1024

  datatype MsgType =
    | REGISTER | LOGIN_CHALLENGE_REQ | LOGIN_RESPONSE | GET_USER_PUBKEY | UPLOAD | SHARE | GET_DOC
    | LIST_DOCS | GET_SALT | CHANGE_PASSWORD
    | OK | ERROR | LOGIN_CHALLENGE | DOC | USER_PUBKEY | DOC_LIST

  function Code(t: MsgType): Byte {
    match t
    case REGISTER => 0x01
    case LOGIN_CHALLENGE_REQ => 0x02
    case LOGIN_RESPONSE => 0x03
    case GET_USER_PUBKEY => 0x04
    case UPLOAD => 0x05
    case SHARE => 0x06
    case GET_DOC => 0x07
    case LIST_DOCS => 0x08
    case GET_SALT => 0x09
    case CHANGE_PASSWORD => 0x0A
    case OK => 0x80
    case ERROR => 0x81
    case LOGIN_CHALLENGE => 0x82
    case DOC => 0x83
    case USER_PUBKEY => 0x84
    case DOC_LIST => 0x85
  }

  const CODES: map<Byte, MsgType> := map[
    0x01 := REGISTER, 0x02 := LOGIN_CHALLENGE_REQ, 0x03 := LOGIN_RESPONSE, 0x04 := GET_USER_PUBKEY,
    0x05 := UPLOAD, 0x06 := SHARE, 0x07 := GET_DOC, 0x08 := LIST_DOCS, 0x09 := GET_SALT,
    0x0A := CHANGE_PASSWORD, 0x80 := OK, 0x81 := ERROR, 0x82 := LOGIN_CHALLENGE, 0x83 := DOC,
    0x84 := USER_PUBKEY, 0x85 := DOC_LIST
  ]

  lemma CodesInverse(t: MsgType, b: Byte)
    ensures b in CODES && CODES[b] == t <==> b == Code(t)
  {
  }

  /** JSON objects of type D: printing, reading (None for text that is not an object), and the
      object a frame without text stands for. */
  datatype Codec<!D> = Codec(dumps: D -> seq<Byte>, loads: seq<Byte> -> Option<D>, empty: D)

  ghost predicate Printed<D(!new)>(codec: Codec<D>, d: D) {
    codec.dumps(d) != [] && codec.loads(codec.dumps(d)) == Some(d)
  }

  /** Printed objects read back, and no object prints as nothing. */
  ghost predicate Faithful<D(!new)>(codec: Codec<D>) {
    forall d :: Printed(codec, d)
  }

  datatype Message<+D> = Message(kind: MsgType, payload: D)

  datatype Error = EmptyFrame | UnknownType | MalformedPayload | BadLength | PeerClosed

  /** `encode`; None when the frame would be too long. */
  function Encode<D>(codec: Codec<D>, m: Message<D>): Option<seq<Byte>> {
    var body := codec.dumps(m.payload);
    var frameLen := 1 + |body|;
    if frameLen > MAX_MESSAGE_LEN then None else Some(ToBE4(frameLen) + [Code(m.kind)] + body)
  }

  /** `decode`. */
  function Decode<D>(codec: Codec<D>, frame: seq<Byte>): Result<Message<D>, Error> {
    if frame == [] then Err(EmptyFrame)
    else if frame[0] !in CODES then Err(UnknownType)
    else if |frame| == 1 then Ok(Message(CODES[frame[0]], codec.empty))
    else
      match codec.loads(frame[1..])
      case None => Err(MalformedPayload)
      case Some(d) => Ok(Message(CODES[frame[0]], d))
  }

  // ---- Reading the stream as a whole -----------------------------------------------

  /** The first n bytes of the stream, and what remains; everything is used up when there are fewer. */
  function Exact(stream: seq<Byte>, n: nat): (Option<seq<Byte>>, seq<Byte>) {
    if |stream| < n then (None, []) else (Some(stream[..n]), stream[n..])
  }

  function Receive<D>(codec: Codec<D>, stream: seq<Byte>): (Result<Message<D>, Error>, seq<Byte>) {
    var (prefix, rest) := Exact(stream, 4);
    if prefix.None? then (Err(PeerClosed), rest)
    else
      var length := FromBE(prefix.value);
      if length < 1 || length > MAX_MESSAGE_LEN then (Err(BadLength), rest)
      else
        var (frame, rest') := Exact(rest, length);
        if frame.None? then (Err(PeerClosed), rest') else (Decode(codec, frame.value), rest')
  }

  // ---- The socket ------------------------------------------------------------------------

  function Flatten(chunks: seq<seq<Byte>>): seq<Byte> {
    if chunks == [] then [] else chunks[0] + Flatten(chunks[1..])
  }

  /** The receiving end of a connection. `arriving` holds the pieces in which the network
      delivers what the peer sends before it closes. */
  class Socket {
    var arriving: seq<seq<Byte>>

    ghost predicate Valid()
      reads this
    {
      forall i :: 0 <= i < |arriving| ==> arriving[i] != []
    }

    ghost function Stream(): seq<Byte>
      reads this
    {
      Flatten(arriving)
    }

    constructor (pieces: seq<seq<Byte>>)
      requires forall i :: 0 <= i < |pieces| ==> pieces[i] != []
      ensures Valid() && Stream() == Flatten(pieces)
    {
      arriving := pieces;
    }

    /** `recv(n)`: at most n bytes of the next piece, or nothing once the peer has closed. */
    method Recv(n: nat) returns (chunk: seq<Byte>)
      requires Valid() && n > 0
      modifies this
      ensures Valid() && |chunk| <= n
      ensures old(Stream()) == chunk + Stream()
      ensures chunk == [] <==> old(Stream()) == []
    {
      if arriving == [] {
        return [];
      }
      if |arriving[0]| <= n {
        chunk := arriving[0];
        arriving := arriving[1..];
      } else {
        chunk := arriving[0][..n];
        assert arriving[0] == chunk + arriving[0][n..];
        arriving := [arriving[0][n..]] + arriving[1..];
        assert arriving[1..] == old(arriving)[1..];
      }
    }
  }

  /** `_recv_exact`. */
  method RecvExact(sock: Socket, n: nat) returns (data: Option<seq<Byte>>)
    requires sock.Valid()
    modifies sock
    ensures sock.Valid()
    ensures (data, sock.Stream()) == Exact(old(sock.Stream()), n)
  {
    var chunks: seq<Byte> := [];
    var remaining := n;
    while remaining > 0
      invariant sock.Valid() && 0 <= remaining && remaining + |chunks| == n
      invariant old(sock.Stream()) == chunks + sock.Stream()
    {
      var chunk := sock.Recv(if remaining <= 65536 then remaining else 65536);
      if chunk == [] {
        return None;
      }
      chunks := chunks + chunk;
      remaining := remaining - |chunk|;
    }
    ghost var all := chunks + sock.Stream();
    assert all[..n] == chunks && all[n..] == sock.Stream();
    data := Some(chunks);
  }

  /** `recv_message`. */
  method RecvMessage<D>(sock: Socket, codec: Codec<D>) returns (r: Result<Message<D>, Error>)
    requires sock.Valid()
    modifies sock
    ensures sock.Valid()
    ensures (r, sock.Stream()) == Receive(codec, old(sock.Stream()))
  {
    var prefix := RecvExact(sock, 4);
    if prefix.None? {
      return Err(PeerClosed);
    }
    var length := FromBE(prefix.value);
    if length < 1 || length > MAX_MESSAGE_LEN {
      return Err(BadLength);
    }
    var frame := RecvExact(sock, length);
    if frame.None? {
      return Err(PeerClosed);
    }
    r := Decode(codec, frame.value);
  }

  // ---- What was sent is what arrives --------------------------------------------------

  /** A sent frame is received as the message it encodes, and nothing after it is touched. */
  lemma ReceiveEncoded<D(!new)>(codec: Codec<D>, m: Message<D>, rest: seq<Byte>)
    requires Faithful(codec) && Encode(codec, m).Some?
    ensures Receive(codec, Encode(codec, m).value + rest) == (Ok(m), rest)
  {
    hide ToBE4, FromBE;
    var body := codec.dumps(m.payload);
    var frame := [Code(m.kind)] + body;
    var stream := Encode(codec, m).value + rest;
    assert Printed(codec, m.payload);
    FromToBE4(|frame|);
    assert stream[..4] == ToBE4(|frame|) && stream[4..] == frame + rest;
    assert stream[4..][..|frame|] == frame && stream[4..][|frame|..] == rest;
    CodesInverse(m.kind, frame[0]);
    assert frame[1..] == body;
  }

  /** What lies on the wire: the length of the rest in four bytes, big-endian, at most 128 MiB, the type byte,
      and the object. */
  ghost predicate FrameOf<D(!new)>(codec: Codec<D>, m: Message<D>, frame: seq<Byte>) {
    hide FromBE, Code;
    && |frame| >= 5 && FromBE(frame[..4]) == |frame| - 4 <= 0x8000000 && frame[4] == Code(m.kind)
    && (frame[5..] != [] || m.payload == codec.empty)
    && (frame[5..] != [] ==> codec.loads(frame[5..]) == Some(m.payload))
  }

  /** A message is received exactly when the stream begins with a frame of it, and then the rest is left. */
  lemma ReceivedIff<D(!new)>(codec: Codec<D>, stream: seq<Byte>, m: Message<D>, rest: seq<Byte>)
    ensures Receive(codec, stream) == (Ok(m), rest)
       <==> exists frame :: stream == frame + rest && FrameOf(codec, m, frame)
  {
    if Receive(codec, stream) == (Ok(m), rest) {
      ReceivedFrame(codec, stream, m, rest);
    }
    forall frame | stream == frame + rest && FrameOf(codec, m, frame) ensures Receive(codec, stream) == (Ok(m), rest) {
      FrameReceived(codec, frame, m, rest);
    }
  }

  lemma ReceivedFrame<D(!new)>(codec: Codec<D>, stream: seq<Byte>, m: Message<D>, rest: seq<Byte>)
    requires Receive(codec, stream) == (Ok(m), rest)
    ensures exists frame :: stream == frame + rest && FrameOf(codec, m, frame)
  {
    hide FromBE, Code;
    var length := FromBE(stream[..4]);
    var frame := stream[..4 + length];
    assert stream[4..][..length] == frame[4..] && stream[4..][length..] == rest;
    assert frame[..4] == stream[..4] && frame[4..][1..] == frame[5..];
    CodesInverse(m.kind, frame[4]);
    assert stream == frame + rest && FrameOf(codec, m, frame);
  }

  lemma FrameReceived<D(!new)>(codec: Codec<D>, frame: seq<Byte>, m: Message<D>, rest: seq<Byte>)
    requires FrameOf(codec, m, frame)
    ensures Receive(codec, frame + rest) == (Ok(m), rest)
  {
    hide FromBE, Code;
    var stream := frame + rest;
    assert stream[..4] == frame[..4] && stream[4..] == frame[4..] + rest;
    assert stream[4..][..|frame| - 4] == frame[4..] && stream[4..][|frame| - 4..] == rest;
    assert frame[4..][1..] == frame[5..];
    CodesInverse(m.kind, frame[4]);
  }

  /** Requests are numbered from 1 and replies from 0x80, in this order. */
  lemma TypeBytes(i: nat)
    ensures i < 10 ==>
      Code([REGISTER, LOGIN_CHALLENGE_REQ, LOGIN_RESPONSE, GET_USER_PUBKEY, UPLOAD, SHARE, GET_DOC, LIST_DOCS, GET_SALT,
            CHANGE_PASSWORD][i]) == 1 + i
    ensures i < 6 ==> Code([OK, ERROR, LOGIN_CHALLENGE, DOC, USER_PUBKEY, DOC_LIST][i]) == 0x80 + i
  {
  }

  /** The bytes of several messages sent one after the other. */
  function EncodeAll<D>(codec: Codec<D>, ms: seq<Message<D>>): Option<seq<Byte>> {
    if ms == [] then Some([])
    else
      var first :- Encode(codec, ms[0]);
      var others :- EncodeAll(codec, ms[1..]);
      Some(first + others)
  }

  /** `n` consecutive calls of `recv_message`, as long as they succeed. */
  function ReceiveMany<D>(codec: Codec<D>, stream: seq<Byte>, n: nat): Option<seq<Message<D>>> {
    if n == 0 then Some([])
    else
      var (r, rest) := Receive(codec, stream);
      if r.Err? then None
      else
        var others :- ReceiveMany(codec, rest, n - 1);
        Some([r.value] + others)
  }

  /** Messages sent back to back are received in order, with no frame boundary lost. */
  lemma {:induction false} ReceiveSent<D(!new)>(codec: Codec<D>, ms: seq<Message<D>>, rest: seq<Byte>)
    requires Faithful(codec) && EncodeAll(codec, ms).Some?
    ensures ReceiveMany(codec, EncodeAll(codec, ms).value + rest, |ms|) == Some(ms)
  {
    hide Receive, Encode, Faithful;
    if ms != [] {
      var first, others := Encode(codec, ms[0]).value, EncodeAll(codec, ms[1..]).value;
      ReceiveEncoded(codec, ms[0], others + rest);
      assert (first + others) + rest == first + (others + rest);
      ReceiveSent(codec, ms[1..], rest);
      assert ms == [ms[0]] + ms[1..];
    }
  }
}
