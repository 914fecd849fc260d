/** MongoDB message framing: the 16-byte header, OP_MSG sections, and the legacy OP_QUERY probe. */
module MongoWire {
  import opened Octets
  import opened Bson
  import opened BsonTheorems
  import opened BsonCodec
  import BsonLayout

  const OP_REPLY: Int32 := 1
  const OP_QUERY: Int32 := 2004
  const OP_MSG: Int32 := 2013
  const HEADER_LEN := 16

  datatype Header = Header(messageLength: Int32, requestId: Int32, responseTo: Int32, opCode: Int32)

  /** A message as read: its header, its body, and the stream behind it. */
  datatype Message = Message(header: Header, body: Octets, rest: Octets)

  // ---------------------------------------------------------------- framing

  function ReadMessage(stream: Octets): (r: Option<Message>)
    ensures r.Some? ==>
              && r.value.header.messageLength == HEADER_LEN + |r.value.body|
              && |r.value.rest| == |stream| - r.value.header.messageLength
  {
    if |stream| < HEADER_LEN then None else
      var h := Header(ToInt32(UInt32At(stream)), ToInt32(UInt32At(stream[4..])),
                      ToInt32(UInt32At(stream[8..])), ToInt32(UInt32At(stream[12..])));
      if h.messageLength < HEADER_LEN || h.messageLength > MAX_MESSAGE || h.messageLength > |stream| then None
      else Some(Message(h, stream[HEADER_LEN..h.messageLength], stream[h.messageLength..]))
  }

  function WriteMessage(requestId: Int32, responseTo: Int32, opCode: Int32, body: Octets): (out: Octets)
    ensures |out| == HEADER_LEN + |body|
  {
    LE32(HEADER_LEN + |body|) + LE32(FromInt32(requestId)) + LE32(FromInt32(responseTo))
    + LE32(FromInt32(opCode)) + body
  }

  lemma HeaderWords(a: UInt32, b: UInt32, c: UInt32, d: UInt32, tail: Octets)
    ensures var s := LE32(a) + LE32(b) + LE32(c) + LE32(d) + tail;
            && UInt32At(s) == a && UInt32At(s[4..]) == b && UInt32At(s[8..]) == c && UInt32At(s[12..]) == d
            && s[16..] == tail
  {
    var s := LE32(a) + LE32(b) + LE32(c) + LE32(d) + tail;
    assert s == LE32(a) + (LE32(b) + LE32(c) + LE32(d) + tail);
    ReadBack32(a, LE32(b) + LE32(c) + LE32(d) + tail);
    assert s[4..] == LE32(b) + (LE32(c) + LE32(d) + tail);
    ReadBack32(b, LE32(c) + LE32(d) + tail);
    assert s[8..] == LE32(c) + (LE32(d) + tail);
    ReadBack32(c, LE32(d) + tail);
    assert s[12..] == LE32(d) + tail;
    ReadBack32(d, tail);
  }

  /** A written message is read back whole, and the reader stops where it ends. */
  lemma ReadWrittenMessage(requestId: Int32, responseTo: Int32, opCode: Int32, body: Octets, rest: Octets)
    requires HEADER_LEN + |body| <= MAX_MESSAGE
    ensures ReadMessage(WriteMessage(requestId, responseTo, opCode, body) + rest)
         == Some(Message(Header(HEADER_LEN + |body|, requestId, responseTo, opCode), body, rest))
  {
    var n := HEADER_LEN + |body|;
    var stream := WriteMessage(requestId, responseTo, opCode, body) + rest;
    var a, b, c := FromInt32(requestId), FromInt32(responseTo), FromInt32(opCode);
    assert stream == LE32(n) + LE32(a) + LE32(b) + LE32(c) + (body + rest);
    HeaderWords(n, a, b, c, body + rest);
    hide LE32, UInt32At;
    Peel(stream, 16, body, rest);
  }

  /** Re-writing a message that was read reproduces the bytes it was read from, header included. */
  lemma WriteReadMessage(stream: Octets)
    requires ReadMessage(stream).Some?
    ensures var m := ReadMessage(stream).value;
            && WriteMessage(m.header.requestId, m.header.responseTo, m.header.opCode, m.body)
               == stream[..m.header.messageLength]
            && stream == stream[..m.header.messageLength] + m.rest
  {
    var m := ReadMessage(stream).value;
    WriteBack32(stream);
    WriteBack32(stream[4..]);
    WriteBack32(stream[8..]);
    WriteBack32(stream[12..]);
    var n := m.header.messageLength;
    assert LE32(n) == stream[..4];
    assert stream[..n] == stream[..4] + stream[4..8] + stream[8..12] + stream[12..16] + stream[16..n];
    SliceOfTail(stream, 4, 0, 4);
    SliceOfTail(stream, 8, 0, 4);
    SliceOfTail(stream, 12, 0, 4);
  }

  // ----------------------------------------------------------------- OP_MSG

  function EncodeOpMsgBody(flags: UInt32, doc: Doc): Octets
  {
    LE32(flags) + [0] + EncodeDoc(doc)
  }

  /** ParseOpMsg's section loop: `found` is the body document seen so far. */
  function ScanSections(s: Octets, found: Option<Doc>): Option<Doc>
    decreases |s|
  {
    if s == [] then found
    else if s[0] == 0 then
      var (d, n) :- ParseDoc(s[1..]);
      if found.Some? then None else ScanSections(s[1..][n..], Some(d))
    else if s[0] == 1 then
      if |s| < 5 then None else
        var size := ToInt32(UInt32At(s[1..]));
        if size < 4 || size > |s| - 1 then None else ScanSections(s[1..][size..], found)
    else None
  }

  predicate ChecksumPresent(flags: UInt32) {
    flags % 2 == 1
  }

  function ParseOpMsg(body: Octets): Option<(UInt32, Doc)>
  {
    if |body| < 5 then None else
      var flags := UInt32At(body);
      var sections := body[4..];
      if ChecksumPresent(flags) && |sections| < 4 then None else
        var doc :- ScanSections(if ChecksumPresent(flags) then sections[..|sections| - 4] else sections, None);
        Some((flags, doc))
  }

  /** The loop as written: reslicing `sections` and remembering whether a body was found. */
  method ParseOpMsgLoop(body: Octets) returns (r: Option<(UInt32, Doc)>)
    ensures r == ParseOpMsg(body)
  {
    if |body| < 5 {
      return None;
    }
    var flags := UInt32At(body);
    var sections := body[4..];
    if ChecksumPresent(flags) {
      if |sections| < 4 {
        return None;
      }
      sections := sections[..|sections| - 4];
    }
    var found := false;
    var doc: Doc := [];
    ghost var all := sections;
    while |sections| > 0
      invariant ScanSections(all, None) == ScanSections(sections, if found then Some(doc) else None)
    {
      var kind := sections[0];
      var after := sections[1..];
      if kind == 0 {
        var d := ReadDocument(after);
        if d.None? || found {
          return None;
        }
        doc, found := d.value.0, true;
        sections := after[d.value.1..];
      } else if kind == 1 {
        if |after| < 4 {
          return None;
        }
        var size := ToInt32(UInt32At(after));
        if size < 4 || size > |after| {
          return None;
        }
        sections := after[size..];
      } else {
        return None;
      }
    }
    r := if found then Some((flags, doc)) else None;
  }

  /** A well-formed section: a document that fills its bytes, or a sized document sequence. */
  datatype Section = Body(bytes: Octets) | Sequence(content: Octets) {
    predicate Valid() {
      match this
      case Body(bytes) => ParseDoc(bytes).Some? && ParseDoc(bytes).value.1 == |bytes|
      case Sequence(content) => |content| + 4 < LIMIT
    }

    function Wire(): Octets {
      match this
      case Body(bytes) => [0] + bytes
      case Sequence(content) => [1] + LE32(|content| + 4) + content
    }
  }

  predicate AllValid(ss: seq<Section>) {
    forall s :: s in ss ==> s.Valid()
  }

  function Flatten(ss: seq<Section>): Octets {
    if ss == [] then [] else ss[0].Wire() + Flatten(ss[1..])
  }

  /** The documents of the body sections, in order. */
  function Bodies(ss: seq<Section>): (docs: seq<Doc>)
    requires AllValid(ss)
  {
    if ss == [] then []
    else if ss[0].Body? then
      assert ss[0] in ss;
      [ParseDoc(ss[0].bytes).value.0] + Bodies(ss[1..])
    else Bodies(ss[1..])
  }

  /** What the specification asks of a section list: exactly one body. */
  function TheBody(found: Option<Doc>, docs: seq<Doc>): Option<Doc> {
    if found.None? && |docs| == 1 then Some(docs[0])
    else if found.Some? && docs == [] then found
    else None
  }

  lemma ScanBody(bytes: Octets, rest: Octets, found: Option<Doc>)
    requires Body(bytes).Valid()
    ensures ScanSections(Body(bytes).Wire() + rest, found)
         == if found.Some? then None else ScanSections(rest, Some(ParseDoc(bytes).value.0))
  {
    hide ParseDoc;
    var s := Body(bytes).Wire() + rest;
    Peel(s, 0, [0], bytes + rest) by { BodyBytes(bytes, rest); }
    DecoderIgnoresSuffix(bytes, rest);
    assert (bytes + rest)[|bytes|..] == rest;
  }

  lemma BodyBytes(bytes: Octets, rest: Octets)
    ensures (Body(bytes).Wire() + rest)[0..] == [0] + (bytes + rest)
  {}

  lemma ScanSequence(content: Octets, rest: Octets, found: Option<Doc>)
    requires |content| + 4 < LIMIT
    ensures ScanSections(Sequence(content).Wire() + rest, found) == ScanSections(rest, found)
  {
    hide ParseDoc, UInt32At, LE32;
    var n := |content| + 4;
    var s := Sequence(content).Wire() + rest;
    assert s[1..] == LE32(n) + (content + rest);
    ReadBack32(n, content + rest);
    assert s[1..][n..] == rest;
  }

  lemma {:induction false} ScanFlattened(ss: seq<Section>, found: Option<Doc>)
    requires AllValid(ss)
    ensures ScanSections(Flatten(ss), found) == TheBody(found, Bodies(ss))
  {
    if ss != [] {
      var rest := ss[1..];
      assert ss[0] in ss;
      match ss[0]
      case Body(bytes) =>
        ScanBody(bytes, Flatten(rest), found);
        ScanFlattened(rest, Some(ParseDoc(bytes).value.0));
      case Sequence(content) =>
        ScanSequence(content, Flatten(rest), found);
        ScanFlattened(rest, found);
    }
  }

  /** The checksum bit decides whether four trailing bytes belong to the sections. */
  function OpMsgBytes(flags: UInt32, ss: seq<Section>, checksum: Octets): Octets
    requires |checksum| == if ChecksumPresent(flags) then 4 else 0
  {
    LE32(flags) + Flatten(ss) + checksum
  }

  /** On well-formed bodies the parser succeeds exactly when there is one body section, and returns it. */
  lemma OpMsgDecodes(flags: UInt32, ss: seq<Section>, checksum: Octets)
    requires AllValid(ss)
    requires |checksum| == if ChecksumPresent(flags) then 4 else 0
    ensures ParseOpMsg(OpMsgBytes(flags, ss, checksum))
         == if |Bodies(ss)| == 1 then Some((flags, Bodies(ss)[0])) else None
  {
    var body := OpMsgBytes(flags, ss, checksum);
    var flat := Flatten(ss);
    assert body == LE32(flags) + (flat + checksum);
    ReadBack32(flags, flat + checksum);
    assert body[4..] == flat + checksum;
    assert (flat + checksum)[..|flat|] == flat;
    assert checksum == [] ==> flat + checksum == flat;
    ScanFlattened(ss, None);
  }

  /** What the loop demands of a first section, by its kind byte. */
  lemma ScanNeeds(s: Octets, found: Option<Doc>)
    requires s != [] && ScanSections(s, found).Some?
    ensures s[0] == 0 || s[0] == 1
    ensures s[0] == 0 ==> ParseDoc(s[1..]).Some? && ScanSections(s[1..][ParseDoc(s[1..]).value.1..],
                                                                 Some(ParseDoc(s[1..]).value.0)).Some?
    ensures s[0] == 1 ==> |s| >= 5 && var n := ToInt32(UInt32At(s[1..]));
                          4 <= n <= |s| - 1 && ScanSections(s[1..][n..], found).Some?
  {
    hide ParseDoc, UInt32At;
  }

  lemma BodySection(t: Octets)
    requires ParseDoc(t).Some?
    ensures var n := ParseDoc(t).value.1; Body(t[..n]).Valid() && [0] + t == Body(t[..n]).Wire() + t[n..]
  {
    hide ParseDoc;
    var n := ParseDoc(t).value.1;
    DecoderIgnoresSuffix(t, []);
    Prefixed([0], t, n);
  }

  lemma Prefixed(kind: Octets, t: Octets, n: nat)
    requires n <= |t|
    ensures kind + t == kind + t[..n] + t[n..]
  {}

  lemma SequenceSection(t: Octets, n: nat)
    requires |t| >= 4 && n == ToInt32(UInt32At(t)) && 4 <= n <= |t| < LIMIT
    ensures Sequence(t[4..n]).Valid() && [1] + t == Sequence(t[4..n]).Wire() + t[n..]
  {
    WriteBack32(t);
    assert UInt32At(t) == n;
    hide LE32, UInt32At;
    SequenceBytes(t, n);
  }

  lemma SequenceBytes(t: Octets, n: nat)
    requires 4 <= n <= |t|
    ensures [1] + t == [1] + t[..4] + t[4..n] + t[n..]
  {}

  /** The first section of bytes the loop gets through. */
  lemma FirstSection(s: Octets, found: Option<Doc>) returns (head: Section, rest: Octets, now: Option<Doc>)
    requires s != [] && |s| < LIMIT && ScanSections(s, found).Some?
    ensures head.Valid() && s == head.Wire() + rest
    ensures ScanSections(rest, now).Some?
  {
    ScanNeeds(s, found);
    hide *;
    var t := s[1..];
    TwoParts(s, 1);
    assert s[..1] == [s[0]];
    if s[0] == 0 {
      var (d, n) := ParseDoc(t).value;
      BodySection(t);
      head, rest, now := Body(t[..n]), t[n..], Some(d);
    } else {
      var n := ToInt32(UInt32At(t));
      SequenceSection(t, n);
      head, rest, now := Sequence(t[4..n]), t[n..], found;
    }
  }

  /** Conversely, whatever the loop gets through is a list of well-formed sections. */
  lemma {:induction false} ScanIsFlattened(s: Octets, found: Option<Doc>) returns (ss: seq<Section>)
    requires |s| < LIMIT && ScanSections(s, found).Some?
    ensures AllValid(ss) && Flatten(ss) == s
    decreases |s|
  {
    if s == [] {
      ss := [];
    } else {
      var head, rest, now := FirstSection(s, found);
      var more := ScanIsFlattened(rest, now);
      ss := [head] + more;
      assert ss[1..] == more;
    }
  }

  lemma OpMsgAccepts(body: Octets) returns (ss: seq<Section>, checksum: Octets)
    requires ParseOpMsg(body).Some? && |body| < LIMIT
    ensures AllValid(ss) && |Bodies(ss)| == 1
    ensures |checksum| == if ChecksumPresent(UInt32At(body)) then 4 else 0
    ensures body == OpMsgBytes(UInt32At(body), ss, checksum)
  {
    var flags := UInt32At(body);
    var cut := if ChecksumPresent(flags) then |body| - 4 else |body|;
    SectionBytes(body, cut);
    hide *;
    checksum := body[cut..];
    ss := ScanIsFlattened(body[4..cut], None);
    ScanFlattened(ss, None);
    OneBodyOnly(Bodies(ss));
    WriteBack32(body);
    IsOpMsg(body, cut, flags, ss, checksum);
  }

  lemma SectionBytes(body: Octets, cut: nat)
    requires ParseOpMsg(body).Some?
    requires |body| >= 4 ==> cut == if ChecksumPresent(UInt32At(body)) then |body| - 4 else |body|
    ensures 4 <= cut <= |body| && ScanSections(body[4..cut], None).Some?
    ensures |body| - cut == if ChecksumPresent(UInt32At(body)) then 4 else 0
  {
    hide ScanSections, UInt32At;
    SliceOfTail(body, 4, 0, cut - 4);
    assert cut == |body| ==> body[4..cut] == body[4..];
  }

  lemma OneBodyOnly(docs: seq<Doc>)
    requires TheBody(None, docs).Some?
    ensures |docs| == 1
  {}

  lemma IsOpMsg(body: Octets, cut: nat, flags: UInt32, ss: seq<Section>, checksum: Octets)
    requires |checksum| == if ChecksumPresent(flags) then 4 else 0
    requires 4 <= cut <= |body| && LE32(flags) == body[..4] && Flatten(ss) == body[4..cut] && checksum == body[cut..]
    ensures body == OpMsgBytes(flags, ss, checksum)
  {
    hide LE32, Flatten;
    ThreeParts(body, 4, cut);
  }

  /** The encoder never appends a checksum, so the parser inverts it exactly when the bit is clear. */
  lemma OpMsgRoundTrip(flags: UInt32, doc: Doc)
    requires GoodDoc(doc) && |EncodeDoc(doc)| < LIMIT
    ensures ParseOpMsg(EncodeOpMsgBody(flags, doc))
         == if ChecksumPresent(flags) then None else Some((flags, NormDoc(doc)))
  {
    var enc := EncodeDoc(doc);
    var body := EncodeOpMsgBody(flags, doc);
    RoundTripDoc(doc, []);
    assert enc + [] == enc;
    if ChecksumPresent(flags) {
      TruncatedDocFails(doc);
      CutBody(flags, enc);
    } else {
      OneBody(flags, enc);
    }
  }

  lemma CutBody(flags: UInt32, bytes: Octets)
    requires |bytes| >= 5 && ParseDoc(bytes[..|bytes| - 4]).None? && ChecksumPresent(flags)
    ensures ParseOpMsg(LE32(flags) + [0] + bytes).None?
  {
    var body := LE32(flags) + [0] + bytes;
    assert body == LE32(flags) + ([0] + bytes);
    ReadBack32(flags, [0] + bytes);
    var cut := body[4..][..|body| - 8];
    assert cut[1..] == bytes[..|bytes| - 4];
  }

  lemma OneBody(flags: UInt32, bytes: Octets)
    requires Body(bytes).Valid() && !ChecksumPresent(flags)
    ensures ParseOpMsg(LE32(flags) + [0] + bytes) == Some((flags, ParseDoc(bytes).value.0))
  {
    var ss := [Body(bytes)];
    assert Flatten(ss[1..]) == [] && Bodies(ss[1..]) == [];
    assert LE32(flags) + [0] + bytes == OpMsgBytes(flags, ss, []);
    OpMsgDecodes(flags, ss, []);
  }

  lemma TruncatedDocFails(doc: Doc)
    requires |EncodeDoc(doc)| < LIMIT
    ensures ParseDoc(EncodeDoc(doc)[..|EncodeDoc(doc)| - 4]).None?
  {
    var enc := EncodeDoc(doc);
    var n := |enc|;
    var cut := enc[..n - 4];
    if n >= 9 {
      assert enc == LE32(n) + (EncodeElems(doc) + [0]);
      ReadBack32(n, EncodeElems(doc) + [0]);
      assert cut[..4] == enc[..4];
    }
  }

  // --------------------------------------------------- OP_QUERY and OP_REPLY

  datatype Query = Query(flags: Int32, collection: Octets, skip: Int32, limit: Int32, query: Doc)

  function ParseOpQuery(body: Octets): Option<Query>
  {
    if |body| < 4 then None else
      var (coll, pos) :- ReadCString(body, 4);
      if pos + 8 > |body| then None else
        var (query, _) :- ParseDoc(body[pos + 8..]);
        Some(Query(ToInt32(UInt32At(body)), coll, ToInt32(UInt32At(body[pos..])),
                   ToInt32(UInt32At(body[pos + 4..])), query))
  }

  /** The layout of an OP_QUERY body, with the optional selector bytes at the end. */
  function EncodeOpQuery(q: Query, selector: Octets): Octets
  {
    LE32(FromInt32(q.flags)) + ((q.collection + [0]) + (LE32(FromInt32(q.skip)) + (LE32(FromInt32(q.limit))
    + (EncodeDoc(q.query) + selector))))
  }

  lemma QueryFields(q: Query, selector: Octets)
    ensures var b, p := EncodeOpQuery(q, selector), 5 + |q.collection|;
            && |b| >= p + 8 && b[0..4] == LE32(FromInt32(q.flags)) && b[4..p] == q.collection + [0]
            && b[p..p + 4] == LE32(FromInt32(q.skip)) && b[p + 4..p + 8] == LE32(FromInt32(q.limit))
            && b[p + 8..] == EncodeDoc(q.query) + selector
  {
    hide LE32, EncodeDoc;
    var b, p := EncodeOpQuery(q, selector), 5 + |q.collection|;
    var tail := EncodeDoc(q.query) + selector;
    var limited := LE32(FromInt32(q.limit)) + tail;
    var skipped := LE32(FromInt32(q.skip)) + limited;
    assert b[0..] == b;
    Peel(b, 0, LE32(FromInt32(q.flags)), (q.collection + [0]) + skipped);
    Peel(b, 4, q.collection + [0], skipped);
    Peel(b, p, LE32(FromInt32(q.skip)), limited);
    Peel(b, p + 4, LE32(FromInt32(q.limit)), tail);
  }

  /** The probe's fields are recovered whatever follows the query document. */
  lemma OpQueryRoundTrip(q: Query, selector: Octets)
    requires NulFree(q.collection) && GoodDoc(q.query) && |EncodeDoc(q.query)| < LIMIT
    ensures ParseOpQuery(EncodeOpQuery(q, selector)) == Some(q.(query := NormDoc(q.query)))
  {
    hide ParseDoc, UInt32At, LE32, EncodeDoc, NormDoc, ReadCString, GoodDoc, EncodeOpQuery;
    QueryFields(q, selector);
    var b, p := EncodeOpQuery(q, selector), 5 + |q.collection|;
    WordHere(b, 0, FromInt32(q.flags));
    ReadCStringAt(b, 4, q.collection);
    WordHere(b, p, FromInt32(q.skip));
    WordHere(b, p + 4, FromInt32(q.limit));
    RoundTripDoc(q.query, selector);
    assert b[0..] == b;
  }

  lemma WordHere(b: Octets, pos: nat, n: UInt32)
    requires pos + 4 <= |b| && b[pos..pos + 4] == LE32(n)
    ensures UInt32At(b[pos..]) == n
  {
    hide LE32, UInt32At;
    ReadBack32(n, b[pos + 4..]);
    assert b[pos..] == b[pos..pos + 4] + b[pos + 4..];
  }

  function EncodeDocs(docs: seq<Doc>): Octets
  {
    if docs == [] then [] else EncodeDoc(docs[0]) + EncodeDocs(docs[1..])
  }

  function EncodeOpReplyBody(flags: Int32, cursor: Int64, from: Int32, docs: seq<Doc>): Octets
  {
    LE32(FromInt32(flags)) + LE64(FromInt64(cursor)) + LE32(FromInt32(from)) + LE32(|docs|) + EncodeDocs(docs)
  }

  // ------------------------------------------------------------- the layout

  /** A message's bytes: its length, the two ids and the op code as little-endian words, then the body. */
  lemma MessageLayout(requestId: Int32, responseTo: Int32, opCode: Int32, body: Octets)
    ensures var out := WriteMessage(requestId, responseTo, opCode, body);
            && |out| == 16 + |body| && out[16..] == body
            && (|out| < 0x1_0000_0000 ==> Number32(out[0..4]) == |out|)
            && BsonLayout.Signed32(out[4..8]) == requestId
            && BsonLayout.Signed32(out[8..12]) == responseTo
            && BsonLayout.Signed32(out[12..16]) == opCode
  {
    hide LE32, Number32, BsonLayout.Signed32;
    var out := WriteMessage(requestId, responseTo, opCode, body);
    var n := 16 + |body|;
    assert out[0..4] == LE32(n) && out[4..8] == LE32(FromInt32(requestId));
    assert out[8..12] == LE32(FromInt32(responseTo)) && out[12..16] == LE32(FromInt32(opCode)) && out[16..] == body;
    SpellsWord32(out[0..4], n);
    SignedWord(requestId);
    SignedWord(responseTo);
    SignedWord(opCode);
  }

  lemma SignedWord(i: Int32)
    ensures BsonLayout.Signed32(LE32(FromInt32(i))) == i
  {
    var x := LE32(FromInt32(i));
    SpellsWord32(x, FromInt32(i));
    hide LE32;
    assert FromInt32(i) == Number32(x);
  }

  /** What a stream must start with to be a message, and the fields it is read to. */
  lemma ReadsHeader(stream: Octets)
    ensures ReadMessage(stream).Some? <==>
            |stream| >= 16 && 16 <= BsonLayout.Signed32(stream[0..4]) <= 64 * 1024 * 1024
            && BsonLayout.Signed32(stream[0..4]) <= |stream|
    ensures ReadMessage(stream).Some? ==>
              var m := ReadMessage(stream).value;
              && m.header.messageLength == BsonLayout.Signed32(stream[0..4])
              && m.header.requestId == BsonLayout.Signed32(stream[4..8])
              && m.header.responseTo == BsonLayout.Signed32(stream[8..12])
              && m.header.opCode == BsonLayout.Signed32(stream[12..16])
              && m.body == stream[16..m.header.messageLength] && m.rest == stream[m.header.messageLength..]
  {
    hide UInt32At, BsonLayout.Signed32;
    if |stream| >= 16 {
      BsonLayout.SignedAt(stream, 0);
      BsonLayout.SignedAt(stream, 4);
      BsonLayout.SignedAt(stream, 8);
      BsonLayout.SignedAt(stream, 12);
      assert stream[0..] == stream;
    }
  }

  /** An OP_MSG body: the flag word, the kind byte of a body section, the document. */
  lemma OpMsgLayout(flags: UInt32, doc: Doc)
    ensures var b := EncodeOpMsgBody(flags, doc);
            |b| == 5 + |EncodeDoc(doc)| && Number32(b[0..4]) == flags && b[4] == 0x00 && b[5..] == EncodeDoc(doc)
  {
    hide LE32, Number32, EncodeDoc;
    var b := EncodeOpMsgBody(flags, doc);
    assert b[0..4] == LE32(flags);
    SpellsWord32(b[0..4], flags);
  }

  /** An OP_QUERY body: flags, the collection and its NUL, skip, limit, the query document, what follows it. */
  lemma OpQueryLayout(q: Query, selector: Octets)
    ensures var b, n := EncodeOpQuery(q, selector), |q.collection|;
            && |b| >= 13 + n && BsonLayout.Signed32(b[0..4]) == q.flags
            && b[4..4 + n] == q.collection && b[4 + n] == 0
            && BsonLayout.Signed32(b[5 + n..9 + n]) == q.skip && BsonLayout.Signed32(b[9 + n..13 + n]) == q.limit
            && b[13 + n..] == EncodeDoc(q.query) + selector
  {
    hide LE32, EncodeDoc, BsonLayout.Signed32, EncodeOpQuery;
    QueryFields(q, selector);
    var b, n := EncodeOpQuery(q, selector), |q.collection|;
    assert b[4..5 + n][..n] == b[4..4 + n] && b[4..5 + n][n] == b[4 + n];
    SignedWord(q.flags);
    SignedWord(q.skip);
    SignedWord(q.limit);
  }
}
