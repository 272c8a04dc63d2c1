/** common/formats.py: the SVD1 document blob, the payload inside it and the SVS1 share blob.
    Every failure of the source is a ValueError, here None. */
module Formats {
  import opened Bits
  import opened Wrappers
  import opened Utf8

  /** b"SVD1" and b"SVS1". */
  const MAGIC_DOC: seq<Byte> := [0x53, 0x56, 0x44, 0x31]
  const MAGIC_SHARE: seq<Byte> := [0x53, 0x56, 0x53, 0x31]

  const DOC_ID_LEN: nat := 16
  const NONCE_LEN: nat := 12
  const TAG_LEN: nat := 16
  const DOC_HASH_LEN: nat := 32
  const EPH_PUB_LEN: nat := 65
  const WRAPPED_FK_LEN: nat := 32
  const SIG_LEN: nat := 64
  const MAX_STR_LEN: nat := 4096
  const MAX_CONTENT_LEN: nat := 68719476736 - 32

  // ---- Printing fields ---------------------------------------------------------

  function PackU32(x: int): Option<seq<Byte>> {
    if 0 <= x < TWO32 then Some(ToBE4(x)) else None
  }

  function PackU64(x: int): Option<seq<Byte>> {
    if 0 <= x < TWO64 then Some(ToBE8(x)) else None
  }

  /** `_pack_str`: the length in 16 bits, then the UTF-8 bytes. */
  function PackStr(s: Str): Option<seq<Byte>> {
    var encoded :- Encode(s);
    if |encoded| > MAX_STR_LEN then None else Some(ToBE2(|encoded|) + encoded)
  }

  // ---- Parsing fields off the front of the unread bytes ----------------------------

  datatype Parsed<+T> = Parsed(value: T, rest: seq<Byte>)

  function Take(b: seq<Byte>, n: nat): Option<Parsed<seq<Byte>>> {
    if |b| < n then None else Some(Parsed(b[..n], b[n..]))
  }

  function TakeInt(b: seq<Byte>, n: nat): Option<Parsed<nat>> {
    var f :- Take(b, n);
    Some(Parsed(FromBE(f.value), f.rest))
  }

  function TakeStr(b: seq<Byte>): Option<Parsed<Str>> {
    var n :- TakeInt(b, 2);
    if n.value > MAX_STR_LEN then None
    else
      var f :- Take(n.rest, n.value);
      var s :- Decode(f.value);
      Some(Parsed(s, f.rest))
  }

  // A field is read exactly where it was printed.

  lemma TakeIff(b: seq<Byte>, n: nat, x: seq<Byte>, rest: seq<Byte>)
    ensures Take(b, n) == Some(Parsed(x, rest)) <==> |x| == n && b == x + rest
  {
  }

  lemma TakeU32Iff(b: seq<Byte>, x: int, rest: seq<Byte>)
    ensures x >= 0 && TakeInt(b, 4) == Some(Parsed(x, rest)) <==> PackU32(x).Some? && b == PackU32(x).value + rest
  {
    hide ToBE4, FromBE;
    if |b| >= 4 {
      ToFromField(b[..4]);
    }
    if PackU32(x).Some? {
      FromToBE4(x);
    }
  }

  lemma TakeU64Iff(b: seq<Byte>, x: int, rest: seq<Byte>)
    ensures x >= 0 && TakeInt(b, 8) == Some(Parsed(x, rest)) <==> PackU64(x).Some? && b == PackU64(x).value + rest
  {
    hide ToBE8, FromBE;
    if |b| >= 8 {
      ToFromField(b[..8]);
    }
    if PackU64(x).Some? {
      FromToBE8(x);
    }
  }

  lemma TakenStr(b: seq<Byte>)
    requires TakeStr(b).Some?
    ensures PackStr(TakeStr(b).value.value).Some?
    ensures b == PackStr(TakeStr(b).value.value).value + TakeStr(b).value.rest
  {
    hide ToBE2, FromBE, Encode, Decode;
    var n := FromBE(b[..2]);
    var e := b[2..][..n];
    ToFromField(b[..2]);
    DecodeIffEncode(e, TakeStr(b).value.value);
    assert b == b[..2] + e + b[2..][n..];
  }

  lemma PackedStr(s: Str, rest: seq<Byte>)
    requires PackStr(s).Some?
    ensures TakeStr(PackStr(s).value + rest) == Some(Parsed(s, rest))
  {
    hide ToBE2, FromBE, Encode, Decode;
    var e, b := Encode(s).value, PackStr(s).value + rest;
    FromToBE2(|e|);
    DecodeIffEncode(e, s);
    assert b[..2] == ToBE2(|e|) && b[2..] == e + rest;
  }

  lemma TakeStrIff(b: seq<Byte>, s: Str, rest: seq<Byte>)
    ensures TakeStr(b) == Some(Parsed(s, rest)) <==> PackStr(s).Some? && b == PackStr(s).value + rest
  {
    if TakeStr(b).Some? {
      TakenStr(b);
    }
    if PackStr(s).Some? {
      PackedStr(s, rest);
    }
    hide TakeStr, PackStr;
  }

  lemma Regroup(a: seq<Byte>, b: seq<Byte>, c: seq<Byte>)
    ensures a + (b + c) == (a + b) + c
  {
  }

  // ---- The cursor ------------------------------------------------------------------

  /** `_Reader`. */
  class Reader {
    const buf: seq<Byte>
    var pos: nat

    ghost predicate Valid()
      reads this
    {
      pos <= |buf|
    }

    /** The unread bytes. */
    ghost function Rest(): seq<Byte>
      requires Valid()
      reads this
    {
      buf[pos..]
    }

    constructor (data: seq<Byte>)
      ensures Valid() && buf == data && pos == 0 && Rest() == data
    {
      buf := data;
      pos := 0;
    }

    method Read(n: nat) returns (chunk: Option<seq<Byte>>)
      requires Valid()
      modifies this`pos
      ensures Valid()
      ensures var t := Take(old(Rest()), n);
        if t.None? then chunk.None? && pos == old(pos)
        else chunk == Some(t.value.value) && Rest() == t.value.rest
    {
      if pos + n > |buf| {
        return None;
      }
      chunk := Some(buf[pos..pos + n]);
      assert buf[pos..][..n] == buf[pos..pos + n] && buf[pos..][n..] == buf[pos + n..];
      pos := pos + n;
    }

    /** `read_u16`, `read_u32` and `read_u64`. */
    method ReadInt(n: nat) returns (x: Option<nat>)
      requires Valid()
      modifies this`pos
      ensures Valid()
      ensures var t := TakeInt(old(Rest()), n);
        if t.None? then x.None? else x == Some(t.value.value) && Rest() == t.value.rest
    {
      var field :- Read(n);
      x := Some(FromBE(field));
    }

    method ReadStr() returns (s: Option<Str>)
      requires Valid()
      modifies this`pos
      ensures Valid()
      ensures var t := TakeStr(old(Rest()));
        if t.None? then s.None? else s == Some(t.value.value) && Rest() == t.value.rest
    {
      var n :- ReadInt(2);
      if n > MAX_STR_LEN {
        return None;
      }
      var field :- Read(n);
      s := Decode(field);
    }

    method Remaining() returns (n: nat)
      requires Valid()
      ensures n == |Rest()|
    {
      n := |buf| - pos;
    }
  }

  // ---- Documents -------------------------------------------------------------------

  datatype DocumentHeader = DocumentHeader(docId: seq<Byte>, owner: Str, version: int, createdMs: int)

  datatype ParsedDocument = ParsedDocument(
    header: DocumentHeader, headerAad: seq<Byte>, nonce: seq<Byte>, ciphertext: seq<Byte>, tag: seq<Byte>)

  /** `pack_document_header`; a header with an identifier of another length cannot be built. */
  function PackDocumentHeader(h: DocumentHeader): Option<seq<Byte>> {
    if |h.docId| != DOC_ID_LEN then None
    else
      var owner :- PackStr(h.owner);
      var version :- PackU32(h.version);
      var created :- PackU64(h.createdMs);
      Some(MAGIC_DOC + h.docId + owner + version + created)
  }

  function PackDocument(h: DocumentHeader, nonce: seq<Byte>, ciphertext: seq<Byte>, tag: seq<Byte>): Option<seq<Byte>> {
    if |nonce| != NONCE_LEN || |tag| != TAG_LEN then None
    else
      var header :- PackDocumentHeader(h);
      Some(header + nonce + ciphertext + tag)
  }

  function TakeHeader(b: seq<Byte>): Option<Parsed<DocumentHeader>> {
    var magic :- Take(b, 4);
    if magic.value != MAGIC_DOC then None
    else
      var docId :- Take(magic.rest, DOC_ID_LEN);
      var owner :- TakeStr(docId.rest);
      var version :- TakeInt(owner.rest, 4);
      var created :- TakeInt(version.rest, 8);
      Some(Parsed(DocumentHeader(docId.value, owner.value, version.value, created.value), created.rest))
  }

  /** `unpack_document`. */
  function UnpackDocument(b: seq<Byte>): Option<ParsedDocument> {
    var header :- TakeHeader(b);
    var nonce :- Take(header.rest, NONCE_LEN);
    if |nonce.rest| < TAG_LEN then None
    else
      var n := |nonce.rest| - TAG_LEN;
      Some(ParsedDocument(header.value, b[..|b| - |header.rest|], nonce.value, nonce.rest[..n], nonce.rest[n..]))
  }

  /** The reads of `unpack_document` up to the end of the header. */
  method ReadHeader(r: Reader) returns (h: Option<DocumentHeader>)
    requires r.Valid()
    modifies r`pos
    ensures r.Valid()
    ensures var t := TakeHeader(old(r.Rest()));
      if t.None? then h.None? else h == Some(t.value.value) && r.Rest() == t.value.rest
  {
    hide TakeStr, TakeInt;
    var magic :- r.Read(4);
    if magic != MAGIC_DOC {
      return None;
    }
    var docId :- r.Read(DOC_ID_LEN);
    var owner :- r.ReadStr();
    var version :- r.ReadInt(4);
    var created :- r.ReadInt(8);
    h := Some(DocumentHeader(docId, owner, version, created));
  }

  method UnpackDocumentLoop(blob: seq<Byte>) returns (d: Option<ParsedDocument>)
    ensures d == UnpackDocument(blob)
  {
    hide TakeHeader;
    var r := new Reader(blob);
    var header :- ReadHeader(r);
    var headerEnd := r.pos;
    var headerAad := r.buf[0..headerEnd];
    assert headerEnd == |blob| - |r.Rest()| && headerAad == blob[..headerEnd];
    var nonce :- r.Read(NONCE_LEN);
    var left := r.Remaining();
    var remaining := left - TAG_LEN;
    if remaining < 0 {
      return None;
    }
    ghost var tail := r.Rest();
    var ciphertext := r.Read(remaining);
    var tag := r.Read(TAG_LEN);
    assert tail[remaining..][..TAG_LEN] == tail[remaining..];
    assert ciphertext == Some(tail[..remaining]) && tag == Some(tail[remaining..]);
    assert r.Rest() == [];
    var unread := r.Remaining();
    d := if unread != 0 then None
         else Some(ParsedDocument(header, headerAad, nonce, ciphertext.value, tag.value));
  }

  lemma TakeHeaderIff(b: seq<Byte>, h: DocumentHeader, rest: seq<Byte>)
    ensures TakeHeader(b) == Some(Parsed(h, rest))
       <==> PackDocumentHeader(h).Some? && b == PackDocumentHeader(h).value + rest
  {
    hide Take, TakeStr, TakeInt, PackStr, PackU32, PackU64;
    if TakeHeader(b) == Some(Parsed(h, rest)) {
      var b1 := Take(b, 4).value.rest;
      var b2 := Take(b1, DOC_ID_LEN).value.rest;
      var b3 := TakeStr(b2).value.rest;
      var b4 := TakeInt(b3, 4).value.rest;
      HeaderPieces(b, b1, b2, b3, b4, h, rest);
    } else if PackDocumentHeader(h).Some? && b == PackDocumentHeader(h).value + rest {
      var b4 := PackU64(h.createdMs).value + rest;
      var b3 := PackU32(h.version).value + b4;
      var b2 := PackStr(h.owner).value + b3;
      HeaderPieces(b, h.docId + b2, b2, b3, b4, h, rest);
    }
  }

  /** The fields of a header, each at the front of what the one before leaves. */
  lemma HeaderPieces(b: seq<Byte>, b1: seq<Byte>, b2: seq<Byte>, b3: seq<Byte>, b4: seq<Byte>,
                     h: DocumentHeader, rest: seq<Byte>)
    ensures Take(b, 4) == Some(Parsed(MAGIC_DOC, b1)) <==> b == MAGIC_DOC + b1
    ensures Take(b1, DOC_ID_LEN) == Some(Parsed(h.docId, b2)) <==> |h.docId| == DOC_ID_LEN && b1 == h.docId + b2
    ensures TakeStr(b2) == Some(Parsed(h.owner, b3)) <==> PackStr(h.owner).Some? && b2 == PackStr(h.owner).value + b3
    ensures h.version >= 0 && TakeInt(b3, 4) == Some(Parsed(h.version, b4))
       <==> PackU32(h.version).Some? && b3 == PackU32(h.version).value + b4
    ensures h.createdMs >= 0 && TakeInt(b4, 8) == Some(Parsed(h.createdMs, rest))
       <==> PackU64(h.createdMs).Some? && b4 == PackU64(h.createdMs).value + rest
    ensures PackDocumentHeader(h).Some? ==>
      PackDocumentHeader(h).value + rest
      == MAGIC_DOC
         + (h.docId + (PackStr(h.owner).value + (PackU32(h.version).value + (PackU64(h.createdMs).value + rest))))
  {
    TakeIff(b, 4, MAGIC_DOC, b1);
    TakeIff(b1, DOC_ID_LEN, h.docId, b2);
    TakeStrIff(b2, h.owner, b3);
    TakeU32Iff(b3, h.version, b4);
    TakeU64Iff(b4, h.createdMs, rest);
    hide Take, TakeStr, TakeInt, PackStr, PackU32, PackU64;
    if PackDocumentHeader(h).Some? {
      var o, v, c := PackStr(h.owner).value, PackU32(h.version).value, PackU64(h.createdMs).value;
      Regroup(MAGIC_DOC + h.docId + o + v, c, rest);
      Regroup(MAGIC_DOC + h.docId + o, v, c + rest);
      Regroup(MAGIC_DOC + h.docId, o, v + (c + rest));
      Regroup(MAGIC_DOC, h.docId, o + (v + (c + rest)));
    }
  }

  /** An SVD1 blob is accepted exactly when it is what `pack_document` prints for the fields
      read from it, and `header_aad` is exactly the printed header. */
  lemma DocumentIff(b: seq<Byte>, d: ParsedDocument)
    ensures UnpackDocument(b) == Some(d)
       <==> PackDocument(d.header, d.nonce, d.ciphertext, d.tag) == Some(b)
            && PackDocumentHeader(d.header) == Some(d.headerAad)
  {
    hide TakeHeader, PackDocumentHeader;
    if UnpackDocument(b) == Some(d) {
      var rest := TakeHeader(b).value.rest;
      TakeHeaderIff(b, d.header, rest);
      assert b[..|b| - |rest|] == PackDocumentHeader(d.header).value;
      assert rest == d.nonce + d.ciphertext + d.tag;
      Regroup(d.headerAad, d.nonce + d.ciphertext, d.tag);
      Regroup(d.headerAad, d.nonce, d.ciphertext);
    }
    if PackDocument(d.header, d.nonce, d.ciphertext, d.tag) == Some(b)
       && PackDocumentHeader(d.header) == Some(d.headerAad) {
      var rest := d.nonce + (d.ciphertext + d.tag);
      Regroup(d.headerAad + d.nonce, d.ciphertext, d.tag);
      Regroup(d.headerAad, d.nonce, d.ciphertext + d.tag);
      TakeHeaderIff(b, d.header, rest);
      assert b[..|b| - |rest|] == d.headerAad;
      assert rest[..NONCE_LEN] == d.nonce && rest[NONCE_LEN..] == d.ciphertext + d.tag;
    }
  }

  // ---- The payload --------------------------------------------------------------------

  datatype Payload = Payload(filename: Str, mime: Str, content: seq<Byte>, contentSig: seq<Byte>)

  function PackPayload(p: Payload): Option<seq<Byte>> {
    if |p.content| > MAX_CONTENT_LEN || |p.contentSig| != SIG_LEN then None
    else
      var filename :- PackStr(p.filename);
      var mime :- PackStr(p.mime);
      var length :- PackU32(|p.content|);
      Some(filename + mime + length + p.content + p.contentSig)
  }

  function UnpackPayload(b: seq<Byte>): Option<Payload> {
    var filename :- TakeStr(b);
    var mime :- TakeStr(filename.rest);
    var length :- TakeInt(mime.rest, 4);
    if length.value > MAX_CONTENT_LEN then None
    else
      var content :- Take(length.rest, length.value);
      var sig :- Take(content.rest, SIG_LEN);
      if sig.rest != [] then None
      else Some(Payload(filename.value, mime.value, content.value, sig.value))
  }

  method UnpackPayloadLoop(blob: seq<Byte>) returns (p: Option<Payload>)
    ensures p == UnpackPayload(blob)
  {
    hide TakeStr, TakeInt, Take;
    var r := new Reader(blob);
    var filename :- r.ReadStr();
    var mime :- r.ReadStr();
    var length :- r.ReadInt(4);
    if length > MAX_CONTENT_LEN {
      return None;
    }
    var content :- r.Read(length);
    var sig :- r.Read(SIG_LEN);
    var unread := r.Remaining();
    if unread != 0 {
      return None;
    }
    p := Some(Payload(filename, mime, content, sig));
  }

  lemma PayloadPieces(b: seq<Byte>, b1: seq<Byte>, b2: seq<Byte>, b3: seq<Byte>, p: Payload)
    ensures TakeStr(b) == Some(Parsed(p.filename, b1))
       <==> PackStr(p.filename).Some? && b == PackStr(p.filename).value + b1
    ensures TakeStr(b1) == Some(Parsed(p.mime, b2)) <==> PackStr(p.mime).Some? && b1 == PackStr(p.mime).value + b2
    ensures TakeInt(b2, 4) == Some(Parsed(|p.content|, b3))
       <==> PackU32(|p.content|).Some? && b2 == PackU32(|p.content|).value + b3
    ensures Take(b3, |p.content|) == Some(Parsed(p.content, p.contentSig)) <==> b3 == p.content + p.contentSig
    ensures Take(p.contentSig, SIG_LEN) == Some(Parsed(p.contentSig, [])) <==> |p.contentSig| == SIG_LEN
    ensures PackPayload(p).Some? ==>
      PackPayload(p).value
      == PackStr(p.filename).value + (PackStr(p.mime).value + (PackU32(|p.content|).value + (p.content + p.contentSig)))
  {
    TakeStrIff(b, p.filename, b1);
    TakeStrIff(b1, p.mime, b2);
    TakeU32Iff(b2, |p.content|, b3);
    TakeIff(b3, |p.content|, p.content, p.contentSig);
    TakeIff(p.contentSig, SIG_LEN, p.contentSig, []);
    assert p.contentSig + [] == p.contentSig;
    hide Take, TakeStr, TakeInt, PackStr, PackU32;
    if PackPayload(p).Some? {
      var f, m, n := PackStr(p.filename).value, PackStr(p.mime).value, PackU32(|p.content|).value;
      Regroup(f + m + n, p.content, p.contentSig);
      Regroup(f + m, n, p.content + p.contentSig);
      Regroup(f, m, n + (p.content + p.contentSig));
    }
  }

  /** A payload is accepted exactly when it is the printed form of the fields read from it. */
  lemma PayloadIff(b: seq<Byte>, p: Payload)
    ensures UnpackPayload(b) == Some(p) <==> PackPayload(p) == Some(b)
  {
    hide Take, TakeStr, TakeInt, PackStr, PackU32;
    if UnpackPayload(b) == Some(p) {
      var b1 := TakeStr(b).value.rest;
      var b2 := TakeStr(b1).value.rest;
      var b3 := TakeInt(b2, 4).value.rest;
      TakeLength(b3, TakeInt(b2, 4).value.value);
      TakeLength(Take(b3, |p.content|).value.rest, SIG_LEN);
      PayloadPieces(b, b1, b2, b3, p);
    }
    if PackPayload(p) == Some(b) {
      var b3 := p.content + p.contentSig;
      var b2 := PackU32(|p.content|).value + b3;
      PayloadPieces(b, PackStr(p.mime).value + b2, b2, b3, p);
    }
  }

  lemma TakeLength(b: seq<Byte>, n: nat)
    ensures Take(b, n).Some? ==> |Take(b, n).value.value| == n && b == Take(b, n).value.value + Take(b, n).value.rest
  {
  }

  /** Contents of 2^32 bytes or more are refused by the length field; the stated cap, which
      is larger, never decides. */
  lemma ContentBound(p: Payload)
    ensures PackPayload(p).Some?
       <==> PackStr(p.filename).Some? && PackStr(p.mime).Some? && |p.content| < TWO32 && |p.contentSig| == SIG_LEN
  {
    hide PackStr;
  }

  // ---- Shares ------------------------------------------------------------------------

  datatype Share = Share(
    docId: seq<Byte>, version: int, docHash: seq<Byte>, sender: Str, recipient: Str, issuedMs: int,
    ephPub: seq<Byte>, nonce: seq<Byte>, wrappedFk: seq<Byte>, tag: seq<Byte>, shareSig: seq<Byte>)

  /** The length checks of `pack_share_body`. */
  predicate ShareLengths(s: Share) {
    && |s.docId| == DOC_ID_LEN && |s.docHash| == DOC_HASH_LEN && |s.ephPub| == EPH_PUB_LEN
    && |s.nonce| == NONCE_LEN && |s.wrappedFk| == WRAPPED_FK_LEN && |s.tag| == TAG_LEN
  }

  function PackShareBody(s: Share): Option<seq<Byte>> {
    if !ShareLengths(s) then None
    else
      var version :- PackU32(s.version);
      var sender :- PackStr(s.sender);
      var recipient :- PackStr(s.recipient);
      var issued :- PackU64(s.issuedMs);
      Some(MAGIC_SHARE + s.docId + version + s.docHash + sender + recipient + issued
           + s.ephPub + s.nonce + s.wrappedFk + s.tag)
  }

  function PackShare(s: Share): Option<seq<Byte>> {
    if |s.shareSig| != SIG_LEN then None
    else
      var body :- PackShareBody(s);
      Some(body + s.shareSig)
  }

  /** `unpack_share`. */
  function UnpackShare(b: seq<Byte>): Option<Share> {
    var magic :- Take(b, 4);
    if magic.value != MAGIC_SHARE then None
    else
      var docId :- Take(magic.rest, DOC_ID_LEN);
      var version :- TakeInt(docId.rest, 4);
      var docHash :- Take(version.rest, DOC_HASH_LEN);
      var sender :- TakeStr(docHash.rest);
      var recipient :- TakeStr(sender.rest);
      var issued :- TakeInt(recipient.rest, 8);
      var ephPub :- Take(issued.rest, EPH_PUB_LEN);
      var nonce :- Take(ephPub.rest, NONCE_LEN);
      var wrappedFk :- Take(nonce.rest, WRAPPED_FK_LEN);
      var tag :- Take(wrappedFk.rest, TAG_LEN);
      var sig :- Take(tag.rest, SIG_LEN);
      if sig.rest != [] then None
      else Some(Share(docId.value, version.value, docHash.value, sender.value, recipient.value, issued.value,
                      ephPub.value, nonce.value, wrappedFk.value, tag.value, sig.value))
  }

  method UnpackShareLoop(blob: seq<Byte>) returns (s: Option<Share>)
    ensures s == UnpackShare(blob)
  {
    hide TakeStr, TakeInt, Take;
    var r := new Reader(blob);
    var magic :- r.Read(4);
    if magic != MAGIC_SHARE {
      return None;
    }
    var docId :- r.Read(DOC_ID_LEN);
    var version :- r.ReadInt(4);
    var docHash :- r.Read(DOC_HASH_LEN);
    var sender :- r.ReadStr();
    var recipient :- r.ReadStr();
    var issued :- r.ReadInt(8);
    var ephPub :- r.Read(EPH_PUB_LEN);
    var nonce :- r.Read(NONCE_LEN);
    var wrappedFk :- r.Read(WRAPPED_FK_LEN);
    var tag :- r.Read(TAG_LEN);
    var sig :- r.Read(SIG_LEN);
    var unread := r.Remaining();
    if unread != 0 {
      return None;
    }
    s := Some(Share(docId, version, docHash, sender, recipient, issued, ephPub, nonce, wrappedFk, tag, sig));
  }

  // The fields of a share in order: the bytes printed for field i, with the bytes from
  // field i on.

  /** What `UnpackShare` leaves unread after each field, from the identifier to the tag. */
  ghost predicate ShareFields(s: Share, r: seq<seq<Byte>>)
    requires |r| == 11
  {
    && Take(r[0], DOC_ID_LEN) == Some(Parsed(s.docId, r[1]))
    && s.version >= 0 && TakeInt(r[1], 4) == Some(Parsed(s.version, r[2]))
    && Take(r[2], DOC_HASH_LEN) == Some(Parsed(s.docHash, r[3]))
    && TakeStr(r[3]) == Some(Parsed(s.sender, r[4]))
    && TakeStr(r[4]) == Some(Parsed(s.recipient, r[5]))
    && s.issuedMs >= 0 && TakeInt(r[5], 8) == Some(Parsed(s.issuedMs, r[6]))
    && Take(r[6], EPH_PUB_LEN) == Some(Parsed(s.ephPub, r[7]))
    && Take(r[7], NONCE_LEN) == Some(Parsed(s.nonce, r[8]))
    && Take(r[8], WRAPPED_FK_LEN) == Some(Parsed(s.wrappedFk, r[9]))
    && Take(r[9], TAG_LEN) == Some(Parsed(s.tag, r[10]))
  }

  /** The same chain, told by printing. */
  ghost predicate SharePrinted(s: Share, r: seq<seq<Byte>>)
    requires |r| == 11
  {
    && ShareLengths(s) && PackU32(s.version).Some? && PackU64(s.issuedMs).Some?
    && PackStr(s.sender).Some? && PackStr(s.recipient).Some?
    && r[0] == s.docId + r[1] && r[1] == PackU32(s.version).value + r[2] && r[2] == s.docHash + r[3]
    && r[3] == PackStr(s.sender).value + r[4] && r[4] == PackStr(s.recipient).value + r[5]
    && r[5] == PackU64(s.issuedMs).value + r[6] && r[6] == s.ephPub + r[7] && r[7] == s.nonce + r[8]
    && r[8] == s.wrappedFk + r[9] && r[9] == s.tag + r[10]
  }

  lemma FieldsIffPrinted(s: Share, r: seq<seq<Byte>>)
    requires |r| == 11
    ensures ShareFields(s, r) <==> SharePrinted(s, r)
  {
    TakeIff(r[0], DOC_ID_LEN, s.docId, r[1]);
    TakeU32Iff(r[1], s.version, r[2]);
    TakeIff(r[2], DOC_HASH_LEN, s.docHash, r[3]);
    TakeStrIff(r[3], s.sender, r[4]);
    TakeStrIff(r[4], s.recipient, r[5]);
    TakeU64Iff(r[5], s.issuedMs, r[6]);
    TakeIff(r[6], EPH_PUB_LEN, s.ephPub, r[7]);
    TakeIff(r[7], NONCE_LEN, s.nonce, r[8]);
    TakeIff(r[8], WRAPPED_FK_LEN, s.wrappedFk, r[9]);
    TakeIff(r[9], TAG_LEN, s.tag, r[10]);
    hide Take, TakeInt, TakeStr, PackStr, PackU32, PackU64;
  }

  /** A chain of printed fields is the body, then what is left. */
  lemma PrintedIsBody(s: Share, r: seq<seq<Byte>>)
    requires |r| == 11 && SharePrinted(s, r)
    ensures PackShareBody(s).Some? && MAGIC_SHARE + r[0] == PackShareBody(s).value + r[10]
  {
    hide Take, TakeInt, TakeStr, PackStr, PackU32, PackU64;
    var a1 := MAGIC_SHARE + s.docId;
    var a2 := a1 + PackU32(s.version).value;
    var a3 := a2 + s.docHash;
    var a4 := a3 + PackStr(s.sender).value;
    var a5 := a4 + PackStr(s.recipient).value;
    var a6 := a5 + PackU64(s.issuedMs).value;
    Regroup(MAGIC_SHARE, s.docId, r[1]);
    Regroup(a1, PackU32(s.version).value, r[2]);
    Regroup(a2, s.docHash, r[3]);
    Regroup(a3, PackStr(s.sender).value, r[4]);
    Regroup(a4, PackStr(s.recipient).value, r[5]);
    Regroup(a5, PackU64(s.issuedMs).value, r[6]);
    Regroup(a6, s.ephPub, r[7]);
    Regroup(a6 + s.ephPub, s.nonce, r[8]);
    Regroup(a6 + s.ephPub + s.nonce, s.wrappedFk, r[9]);
    Regroup(a6 + s.ephPub + s.nonce + s.wrappedFk, s.tag, r[10]);
  }

  /** An SVS1 blob is accepted exactly when it is the printed form of the fields read from it. */
  lemma ShareIff(b: seq<Byte>, s: Share)
    ensures UnpackShare(b) == Some(s) <==> PackShare(s) == Some(b)
  {
    if UnpackShare(b) == Some(s) {
      UnpackedIsPrinted(b, s);
    }
    if PackShare(s) == Some(b) {
      PrintedIsUnpacked(b, s);
    }
  }

  lemma UnpackedIsPrinted(b: seq<Byte>, s: Share)
    requires UnpackShare(b) == Some(s)
    ensures PackShare(s) == Some(b)
  {
    hide Take, TakeInt, TakeStr, PackStr, PackU32, PackU64, PackShareBody;
    var r0 := Take(b, 4).value.rest;
    var r1 := Take(r0, DOC_ID_LEN).value.rest;
    var r2 := TakeInt(r1, 4).value.rest;
    var r3 := Take(r2, DOC_HASH_LEN).value.rest;
    var r4 := TakeStr(r3).value.rest;
    var r5 := TakeStr(r4).value.rest;
    var r6 := TakeInt(r5, 8).value.rest;
    var r7 := Take(r6, EPH_PUB_LEN).value.rest;
    var r8 := Take(r7, NONCE_LEN).value.rest;
    var r9 := Take(r8, WRAPPED_FK_LEN).value.rest;
    var r10 := Take(r9, TAG_LEN).value.rest;
    var r := [r0, r1, r2, r3, r4, r5, r6, r7, r8, r9, r10];
    TakeLength(b, 4);
    TakeLength(r10, SIG_LEN);
    assert ShareFields(s, r);
    FieldsIffPrinted(s, r);
    PrintedIsBody(s, r);
    assert r10 == s.shareSig;
  }

  lemma PrintedIsUnpacked(b: seq<Byte>, s: Share)
    requires PackShare(s) == Some(b)
    ensures UnpackShare(b) == Some(s)
  {
    TakeIff(s.shareSig, SIG_LEN, s.shareSig, []);
    assert s.shareSig + [] == s.shareSig;
    hide Take, TakeInt, TakeStr, PackStr, PackU32, PackU64;
    var r9 := s.tag + s.shareSig;
    var r8 := s.wrappedFk + r9;
    var r7 := s.nonce + r8;
    var r6 := s.ephPub + r7;
    var r5 := PackU64(s.issuedMs).value + r6;
    var r4 := PackStr(s.recipient).value + r5;
    var r3 := PackStr(s.sender).value + r4;
    var r2 := s.docHash + r3;
    var r1 := PackU32(s.version).value + r2;
    var r := [s.docId + r1, r1, r2, r3, r4, r5, r6, r7, r8, r9, s.shareSig];
    assert SharePrinted(s, r);
    FieldsIffPrinted(s, r);
    PrintedIsBody(s, r);
    TakeIff(b, 4, MAGIC_SHARE, r[0]);
  }

  /** The signed body fixes everything but the signature. */
  lemma BodyDeterminesShare(s: Share, t: Share)
    requires PackShareBody(s).Some? && PackShareBody(s) == PackShareBody(t)
    ensures s == t.(shareSig := s.shareSig)
  {
    var sig := Zeros(SIG_LEN);
    var s0, t0 := s.(shareSig := sig), t.(shareSig := sig);
    assert PackShareBody(s0) == PackShareBody(s) && PackShareBody(t0) == PackShareBody(t);
    hide PackShareBody, UnpackShare;
    ShareIff(PackShare(s0).value, s0);
    ShareIff(PackShare(s0).value, t0);
  }

  // ---- Where the fields lie ---------------------------------------------------------------

  /** The n bytes at offset i of b, as a field that leaves b from i + n on. */
  lemma TakeAt(b: seq<Byte>, i: nat, n: nat)
    requires i <= |b|
    ensures i + n <= |b| ==> Take(b[i..], n) == Some(Parsed(b[i..i + n], b[i + n..]))
    ensures i + n > |b| ==> Take(b[i..], n).None?
  {
    if i + n <= |b| {
      assert b[i..][..n] == b[i..i + n] && b[i..][n..] == b[i + n..];
    }
  }

  /** The string of a length field at offset i and the bytes after it. */
  predicate StrAt(b: seq<Byte>, i: nat, s: Str, end: nat) {
    i + 2 <= end <= |b| && FromBE(b[i..i + 2]) == end - i - 2 <= 4096 && Decode(b[i + 2..end]) == Some(s)
  }

  lemma TakeStrAt(b: seq<Byte>, i: nat)
    requires i <= |b| && TakeStr(b[i..]).Some?
    ensures var t := TakeStr(b[i..]).value;
      |t.rest| <= |b| && t.rest == b[|b| - |t.rest|..] && StrAt(b, i, t.value, |b| - |t.rest|)
  {
    hide FromBE, Decode;
    TakeAt(b, i, 2);
    TakeAt(b, i + 2, FromBE(b[i..i + 2]));
  }

  /** An accepted document: magic, identifier, owner, version, time, nonce, ciphertext, tag, at
      these offsets; n is where the owner's name ends. */
  predicate DocumentLayout(b: seq<Byte>, d: ParsedDocument, n: nat) {
    hide FromBE, Decode;
    && 22 <= n && n + 40 <= |b|
    && b[..4] == AsciiBytes("SVD1") && b[4..20] == d.header.docId && StrAt(b, 20, d.header.owner, n)
    && FromBE(b[n..n + 4]) == d.header.version && FromBE(b[n + 4..n + 12]) == d.header.createdMs
    && d.headerAad == b[..n + 12] && d.nonce == b[n + 12..n + 24]
    && d.ciphertext == b[n + 24..|b| - 16] && d.tag == b[|b| - 16..]
  }

  lemma DocumentFields(b: seq<Byte>, d: ParsedDocument)
    requires UnpackDocument(b) == Some(d)
    ensures exists n: nat :: DocumentLayout(b, d, n)
  {
    hide FromBE, Decode, TakeStr, Take, StrAt;
    assert b[0..] == b;
    TakeAt(b, 0, 4);
    TakeAt(b, 4, 16);
    TakeStrAt(b, 20);
    var n := |b| - |TakeStr(b[20..]).value.rest|;
    StrAtEnd(b, 20, d.header.owner, n);
    TakeAt(b, n, 4);
    TakeAt(b, n + 4, 8);
    TakeAt(b, n + 12, 12);
    var rest := b[n + 24..];
    assert rest[..|rest| - TAG_LEN] == b[n + 24..|b| - 16] && rest[|rest| - TAG_LEN..] == b[|b| - 16..];
    assert MAGIC_DOC == AsciiBytes("SVD1");
    assert DocumentLayout(b, d, n);
  }

  lemma StrAtEnd(b: seq<Byte>, i: nat, s: Str, end: nat)
    ensures StrAt(b, i, s, end) ==> i + 2 <= end <= |b|
  {
  }

  /** An accepted payload: two strings, the second of which ends at n, then the length of the content, the
      content, and 64 bytes of signature. */
  predicate PayloadLayout(b: seq<Byte>, p: Payload, m: nat, n: nat) {
    hide FromBE, Decode;
    && 2 <= m && m + 2 <= n && n + 68 <= |b|
    && StrAt(b, 0, p.filename, m) && StrAt(b, m, p.mime, n)
    && FromBE(b[n..n + 4]) == |p.content| && p.content == b[n + 4..|b| - 64] && p.contentSig == b[|b| - 64..]
  }

  lemma PayloadFields(b: seq<Byte>, p: Payload)
    requires UnpackPayload(b) == Some(p)
    ensures exists m: nat, n: nat :: PayloadLayout(b, p, m, n)
  {
    hide FromBE, Decode, TakeStr, Take, StrAt;
    assert b[0..] == b;
    TakeStrAt(b, 0);
    var m := |b| - |TakeStr(b).value.rest|;
    StrAtEnd(b, 0, p.filename, m);
    TakeStrAt(b, m);
    var n := |b| - |TakeStr(b[m..]).value.rest|;
    StrAtEnd(b, m, p.mime, n);
    TakeAt(b, n, 4);
    var length := FromBE(b[n..n + 4]);
    TakeAt(b, n + 4, length);
    TakeAt(b, n + 4 + length, 64);
    assert |b| == n + 68 + length;
    assert b[n + 4 + length..] == b[n + 4 + length..n + 68 + length];
    assert PayloadLayout(b, p, m, n);
  }

  /** An accepted share: the fields from the magic to the document hash, the two names, and after
      the second name's end n the rest at fixed distances. */
  predicate ShareLayout(b: seq<Byte>, s: Share, m: nat, n: nat) {
    hide FromBE, Decode;
    && 58 <= m && m + 2 <= n && n + 197 == |b|
    && b[..4] == AsciiBytes("SVS1") && b[4..20] == s.docId && FromBE(b[20..24]) == s.version && b[24..56] == s.docHash
    && StrAt(b, 56, s.sender, m) && StrAt(b, m, s.recipient, n)
    && FromBE(b[n..n + 8]) == s.issuedMs && s.ephPub == b[n + 8..n + 73] && s.nonce == b[n + 73..n + 85]
    && s.wrappedFk == b[n + 85..n + 117] && s.tag == b[n + 117..n + 133] && s.shareSig == b[n + 133..]
  }

  lemma ShareFieldsAt(b: seq<Byte>, s: Share)
    requires UnpackShare(b) == Some(s)
    ensures exists m: nat, n: nat :: ShareLayout(b, s, m, n)
  {
    hide FromBE, Decode, TakeStr, Take, StrAt;
    assert b[0..] == b;
    TakeAt(b, 0, 4);
    TakeAt(b, 4, 16);
    TakeAt(b, 20, 4);
    TakeAt(b, 24, 32);
    TakeStrAt(b, 56);
    var m := |b| - |TakeStr(b[56..]).value.rest|;
    StrAtEnd(b, 56, s.sender, m);
    TakeStrAt(b, m);
    var n := |b| - |TakeStr(b[m..]).value.rest|;
    StrAtEnd(b, m, s.recipient, n);
    TakeAt(b, n, 8);
    TakeAt(b, n + 8, 65);
    TakeAt(b, n + 73, 12);
    TakeAt(b, n + 85, 32);
    TakeAt(b, n + 117, 16);
    TakeAt(b, n + 133, 64);
    assert |b| == n + 197;
    assert b[n + 133..] == b[n + 133..n + 197];
    assert MAGIC_SHARE == AsciiBytes("SVS1");
    assert ShareLayout(b, s, m, n);
  }
}
