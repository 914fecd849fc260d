/** The MongoDB leg: local answers until a command names a configured database, then verbatim routing. */
module MongoDispatch {
  import opened Octets
  import opened Bson
  import opened BsonTheorems
  import opened MongoWire

  const DB_KEY: Octets := [0x24, 0x64, 0x62] // "$db"
  const DOT: Byte := 0x2E

  datatype Command = Command(doc: Doc, db: Octets, opCode: Int32, requestId: Int32)

  /** BSON.Lookup. */
  function Lookup(d: Doc, key: Octets): Option<Value>
  {
    if d == [] then None
    else if d[0].key == key then Some(d[0].value)
    else Lookup(d[1..], key)
  }

  /** The first element with the key, if there is one. */
  lemma {:induction false} LookupIsFirst(d: Doc, key: Octets)
    ensures var r := Lookup(d, key);
            if r.None? then forall e :: e in d ==> e.key != key
            else exists i :: 0 <= i < |d| && d[i] == Elem(key, r.value) && forall j :: 0 <= j < i ==> d[j].key != key
  {
    if d != [] {
      if d[0].key == key {
        assert d[0] == Elem(key, d[0].value);
      } else {
        LookupIsFirst(d[1..], key);
        var r := Lookup(d[1..], key);
        if r.Some? {
          var i :| 0 <= i < |d[1..]| && d[1..][i] == Elem(key, r.value) && forall j :: 0 <= j < i ==> d[1..][j].key != key;
          assert d[i + 1] == Elem(key, r.value);
          assert forall j :: 0 < j < i + 1 ==> d[j] == d[1..][j - 1];
        } else {
          assert forall e :: e in d ==> e == d[0] || e in d[1..];
        }
      }
    }
  }

  function LookupString(d: Doc, key: Octets): Octets
  {
    match Lookup(d, key)
    case Some(Str(s)) => s
    case _ => []
  }

  predicate FirstAt(d: Doc, key: Octets, i: int) {
    0 <= i < |d| && d[i].key == key && forall j :: 0 <= j < i ==> d[j].key != key
  }

  /** The text of the first element with the key; empty when that is no string or there is none. */
  lemma TextOfFirst(d: Doc, key: Octets)
    ensures var s := LookupString(d, key);
            || (exists i :: FirstAt(d, key, i) && d[i].value == Str(s))
            || (s == [] && forall i :: FirstAt(d, key, i) ==> !d[i].value.Str?)
  {
    LookupIsFirst(d, key);
    var r := Lookup(d, key);
    if r.Some? {
      var i :| 0 <= i < |d| && d[i] == Elem(key, r.value) && forall j :: 0 <= j < i ==> d[j].key != key;
      assert FirstAt(d, key, i);
    }
  }

  /** strings.Cut(ns, "."), first half. */
  function NamespaceDb(ns: Octets): Octets
  {
    match FindByte(ns, 0, DOT)
    case None => ns
    case Some(i) => ns[..i]
  }

  function DecodeCommand(h: Header, body: Octets): (r: Option<Command>)
    ensures r.Some? ==> r.value.requestId == h.requestId && (h.opCode == OP_MSG || h.opCode == OP_QUERY)
  {
    if h.opCode == OP_MSG then
      var (_, doc) :- ParseOpMsg(body);
      Some(Command(doc, LookupString(doc, DB_KEY), OP_MSG, h.requestId))
    else if h.opCode == OP_QUERY then
      var q :- ParseOpQuery(body);
      Some(Command(q.query, NamespaceDb(q.collection), OP_QUERY, h.requestId))
    else None
  }

  /** WriteMongoReply's bytes: the reply speaks the request's transport. */
  function ReplyBytes(opCode: Int32, responseTo: Int32, doc: Doc): Option<Octets>
  {
    if opCode == OP_MSG then Some(WriteMessage(0, responseTo, OP_MSG, EncodeOpMsgBody(0, doc)))
    else if opCode == OP_QUERY then Some(WriteMessage(0, responseTo, OP_REPLY, EncodeOpReplyBody(0, 0, 0, [doc])))
    else None
  }

  /** What the loop cannot decide by itself: configuration, the clock's hello, and the upstream's answers. */
  datatype Env = Env(
    configured: Octets -> bool,
    isHello: Doc -> bool,
    hello: Doc,
    admin: Command -> Option<Doc>,
    unknownDatabase: Octets -> Doc,
    hasTarget: bool,
    noTarget: Doc,
    dialOk: bool,
    dialFailed: Doc,
    authOk: bool,
    authFailed: Doc)

  datatype Event =
    | Got(header: Header, body: Octets)
    | Reply(bytes: Octets)
    | Dial
    | Login
    | Forward(bytes: Octets)
    | Register

  predicate Upstream(e: Event) {
    e.Dial? || e.Login? || e.Forward? || e.Register?
  }

  datatype Outcome = ReadFailed | DecodeFailed | Refused | Piping

  datatype Run = Run(log: seq<Event>, outcome: Outcome)

  function Answer(env: Env, cmd: Command): Doc
  {
    if env.isHello(cmd.doc) then env.hello
    else match env.admin(cmd)
         case Some(reply) => reply
         case None => env.unknownDatabase(cmd.db)
  }

  function RouteMongo(env: Env, h: Header, body: Octets): Run
  {
    var say := (doc: Doc) => match ReplyBytes(h.opCode, h.requestId, doc)
                             case None => []
                             case Some(bytes) => [Reply(bytes)];
    if !env.hasTarget then Run(say(env.noTarget), Refused)
    else if !env.dialOk then Run([Dial] + say(env.dialFailed), Refused)
    else if !env.authOk then Run([Dial, Login] + say(env.authFailed), Refused)
    else Run([Dial, Login, Forward(WriteMessage(h.requestId, h.responseTo, h.opCode, body)), Register], Piping)
  }

  /** The dispatcher's trace on a client stream. */
  function Dispatch(env: Env, stream: Octets): Run
    decreases |stream|
  {
    match ReadMessage(stream)
    case None => Run([], ReadFailed)
    case Some(m) =>
      var got := Got(m.header, m.body);
      match DecodeCommand(m.header, m.body)
      case None => Run([got], DecodeFailed)
      case Some(cmd) =>
        if env.configured(cmd.db) then
          var r := RouteMongo(env, m.header, m.body);
          Run([got] + r.log, r.outcome)
        else
          var reply := ReplyBytes(m.header.opCode, m.header.requestId, Answer(env, cmd));
          var r := Dispatch(env, m.rest);
          Run([got, Reply(reply.value)] + r.log, r.outcome)
  }

  /** One client connection: unread bytes and everything done so far. */
  class Session {
    const env: Env
    var input: Octets
    var log: seq<Event>

    constructor (env: Env, input: Octets)
      ensures this.env == env && this.input == input && this.log == []
    {
      this.env, this.input, this.log := env, input, [];
    }

    method WriteReply(opCode: Int32, responseTo: Int32, doc: Doc)
      modifies this`log
      ensures log == old(log) + match ReplyBytes(opCode, responseTo, doc)
                                case None => []
                                case Some(bytes) => [Reply(bytes)]
    {
      var bytes := ReplyBytes(opCode, responseTo, doc);
      if bytes.Some? {
        log := log + [Reply(bytes.value)];
      }
    }

    method RouteCommand(h: Header, body: Octets) returns (outcome: Outcome)
      modifies this`log
      ensures Run(log, outcome)
           == Run(old(log) + RouteMongo(env, h, body).log, RouteMongo(env, h, body).outcome)
    {
      if !env.hasTarget {
        WriteReply(h.opCode, h.requestId, env.noTarget);
        return Refused;
      }
      log := log + [Dial];
      if !env.dialOk {
        WriteReply(h.opCode, h.requestId, env.dialFailed);
        return Refused;
      }
      log := log + [Login];
      if !env.authOk {
        WriteReply(h.opCode, h.requestId, env.authFailed);
        return Refused;
      }
      log := log + [Forward(WriteMessage(h.requestId, h.responseTo, h.opCode, body))];
      log := log + [Register];
      return Piping;
    }

    /** dispatchMongo. */
    method DispatchMongo() returns (outcome: Outcome)
      modifies this
      ensures log == old(log) + Dispatch(env, old(input)).log
      ensures outcome == Dispatch(env, old(input)).outcome
    {
      hide DecodeCommand, ReplyBytes, ReadMessage, WriteMessage, RouteMongo;
      while true
        invariant log + Dispatch(env, input).log == old(log) + Dispatch(env, old(input)).log
        invariant Dispatch(env, input).outcome == Dispatch(env, old(input)).outcome
        decreases |input|
      {
        var m := ReadMessage(input);
        if m.None? {
          return ReadFailed;
        }
        var h, body := m.value.header, m.value.body;
        ghost var before, rest := log, Dispatch(env, input).log;
        log := log + [Got(h, body)];
        input := m.value.rest;
        var cmd := DecodeCommand(h, body);
        if cmd.None? {
          return DecodeFailed;
        }
        if env.configured(cmd.value.db) {
          outcome := RouteCommand(h, body);
          assert log == before + rest;
          return;
        }
        ReplyAnswers(h.opCode, h.requestId, Answer(env, cmd.value));
        if env.isHello(cmd.value.doc) {
          WriteReply(h.opCode, h.requestId, env.hello);
        } else {
          var reply := env.admin(cmd.value);
          if reply.Some? {
            WriteReply(h.opCode, h.requestId, reply.value);
          } else {
            WriteReply(h.opCode, h.requestId, env.unknownDatabase(cmd.value.db));
          }
        }
        assert log + Dispatch(env, input).log == before + rest;
      }
    }
  }

  // ------------------------------------------- what holds of every stream

  /** The stream cut into frames, as far as frames can be read. */
  datatype Frame = Frame(header: Header, body: Octets, raw: Octets)

  function Frames(stream: Octets): seq<Frame>
    decreases |stream|
  {
    match ReadMessage(stream)
    case None => []
    case Some(m) => [Frame(m.header, m.body, stream[..m.header.messageLength])] + Frames(m.rest)
  }

  function Raw(fs: seq<Frame>): Octets
  {
    if fs == [] then [] else fs[0].raw + Raw(fs[1..])
  }

  /** The frames are the stream itself, byte for byte, up to the unread remainder. */
  lemma {:induction false} FramesAreTheStream(stream: Octets)
    ensures Raw(Frames(stream)) <= stream
    ensures forall f :: f in Frames(stream) ==>
                          f.raw == WriteMessage(f.header.requestId, f.header.responseTo, f.header.opCode, f.body)
    decreases |stream|
  {
    if ReadMessage(stream).Some? {
      var m := ReadMessage(stream).value;
      WriteReadMessage(stream);
      FramesAreTheStream(m.rest);
      assert Frames(stream)[1..] == Frames(m.rest);
    }
  }

  /** A frame the proxy answers itself: it decodes, and names no configured database. */
  predicate AnsweredLocally(env: Env, f: Frame) {
    var cmd := DecodeCommand(f.header, f.body);
    cmd.Some? && !env.configured(cmd.value.db)
  }

  predicate Routes(env: Env, f: Frame) {
    var cmd := DecodeCommand(f.header, f.body);
    cmd.Some? && env.configured(cmd.value.db)
  }

  /** How many leading frames are answered locally. */
  function Prelude(env: Env, fs: seq<Frame>): (k: nat)
    ensures k <= |fs|
  {
    if fs == [] || !AnsweredLocally(env, fs[0]) then 0 else 1 + Prelude(env, fs[1..])
  }

  lemma {:induction false} PreludeIsLongest(env: Env, fs: seq<Frame>)
    ensures var k := Prelude(env, fs);
            && (forall i :: 0 <= i < k ==> AnsweredLocally(env, fs[i]))
            && (k < |fs| ==> !AnsweredLocally(env, fs[k]))
  {
    hide AnsweredLocally;
    if fs != [] && AnsweredLocally(env, fs[0]) {
      PreludeIsLongest(env, fs[1..]);
      forall i | 0 <= i < Prelude(env, fs)
        ensures AnsweredLocally(env, fs[i])
      {
        assert i > 0 ==> fs[i] == fs[1..][i - 1];
      }
    }
  }

  /** `bytes` is a message carrying `requestId` as its ResponseTo and 0 as its own id. */
  predicate Answers(bytes: Octets, requestId: Int32) {
    |bytes| >= HEADER_LEN && ToInt32(UInt32At(bytes[8..])) == requestId && UInt32At(bytes[4..]) == 0
  }

  lemma ReplyAnswers(opCode: Int32, requestId: Int32, doc: Doc)
    requires opCode == OP_MSG || opCode == OP_QUERY
    ensures ReplyBytes(opCode, requestId, doc).Some?
    ensures Answers(ReplyBytes(opCode, requestId, doc).value, requestId)
  {
    if opCode == OP_MSG {
      MessageAnswers(requestId, OP_MSG, EncodeOpMsgBody(0, doc));
    } else {
      MessageAnswers(requestId, OP_REPLY, EncodeOpReplyBody(0, 0, 0, [doc]));
    }
  }

  lemma MessageAnswers(requestId: Int32, opCode: Int32, body: Octets)
    ensures Answers(WriteMessage(0, requestId, opCode, body), requestId)
  {
    var s := WriteMessage(0, requestId, opCode, body);
    var n, a, c := LE32(HEADER_LEN + |body|), LE32(FromInt32(requestId)), LE32(FromInt32(opCode)) + body;
    assert s[4..] == LE32(0) + (a + c);
    ReadBack32(0, a + c);
    assert s[8..] == a + c;
    ReadBack32(FromInt32(requestId), c);
  }

  /** The reply can be framed: its keys are NUL-free and it fits the message limit behind either reply header. */
  predicate Sized(doc: Doc) {
    GoodDoc(doc) && |EncodeDoc(doc)| <= MAX_MESSAGE - 36
  }

  /** An OP_REPLY body: no flags, no cursor, start 0, one document. */
  predicate OneDocument(body: Octets, doc: Doc) {
    && |body| >= 20 && (forall i :: 0 <= i < 16 ==> body[i] == 0) && Number32(body[16..20]) == 1
    && ParseDoc(body[20..]) == Some((NormDoc(doc), |body| - 20))
  }

  /** Read by a driver, `bytes` are a reply to this request that carries `doc`: OP_MSG to OP_MSG, OP_REPLY to OP_QUERY. */
  predicate Tells(bytes: Octets, request: Header, doc: Doc) {
    Sized(doc) ==>
      && ReadMessage(bytes).Some?
      && var m := ReadMessage(bytes).value;
         && m.rest == [] && m.header.requestId == 0 && m.header.responseTo == request.requestId
         && (request.opCode == 2013 ==> m.header.opCode == 2013 && ParseOpMsg(m.body) == Some((0, NormDoc(doc))))
         && (request.opCode == 2004 ==> m.header.opCode == 1 && OneDocument(m.body, doc))
  }

  /** The local answer to a frame: hello to a hello, the admin reply to an admin command, else that the database is unknown. */
  ghost predicate Answered(env: Env, f: Frame, bytes: Octets) {
    && DecodeCommand(f.header, f.body).Some?
    && var cmd := DecodeCommand(f.header, f.body).value;
       && (env.isHello(cmd.doc) ==> Tells(bytes, f.header, env.hello))
       && (!env.isHello(cmd.doc) && env.admin(cmd).Some? ==> Tells(bytes, f.header, env.admin(cmd).value))
       && (!env.isHello(cmd.doc) && env.admin(cmd).None? ==> Tells(bytes, f.header, env.unknownDatabase(cmd.db)))
  }

  lemma ReplyBody(doc: Doc)
    requires GoodDoc(doc) && |EncodeDoc(doc)| < LIMIT
    ensures OneDocument(EncodeOpReplyBody(0, 0, 0, [doc]), doc)
  {
    hide ParseDoc, GoodDoc, NormDoc, EncodeDoc, Number32, LE32, LE64;
    var body := EncodeOpReplyBody(0, 0, 0, [doc]);
    assert [doc][1..] == [];
    assert EncodeDocs([doc]) == EncodeDoc(doc);
    ZeroWords();
    SpellsWord32(LE32(1), 1);
    assert body[16..20] == LE32(1) && body[20..] == EncodeDoc(doc);
    RoundTripDoc(doc, []);
    assert EncodeDoc(doc) + [] == EncodeDoc(doc);
  }

  lemma ZeroWords()
    ensures LE32(0) == [0, 0, 0, 0] && LE64(0) == [0, 0, 0, 0, 0, 0, 0, 0]
  {
    SpellsWord32([0, 0, 0, 0], 0);
    SpellsWord64([0, 0, 0, 0, 0, 0, 0, 0], 0);
  }

  /** Every reply the proxy frames tells the driver its document. */
  lemma ReplyTells(h: Header, doc: Doc)
    requires h.opCode == 2013 || h.opCode == 2004
    ensures ReplyBytes(h.opCode, h.requestId, doc).Some?
    ensures Tells(ReplyBytes(h.opCode, h.requestId, doc).value, h, doc)
  {
    hide ParseOpMsg, ReadMessage, WriteMessage, EncodeDoc, GoodDoc, NormDoc, OneDocument;
    if Sized(doc) {
      var bytes := ReplyBytes(h.opCode, h.requestId, doc).value;
      assert bytes + [] == bytes;
      if h.opCode == 2013 {
        ReplyDecodes(h.requestId, doc, []);
        ReadWrittenMessage(0, h.requestId, OP_MSG, EncodeOpMsgBody(0, doc), []);
      } else {
        ReplyBody(doc);
        assert [doc][1..] == [];
        assert |EncodeDocs([doc])| == |EncodeDoc(doc)|;
        ReadWrittenMessage(0, h.requestId, OP_REPLY, EncodeOpReplyBody(0, 0, 0, [doc]), []);
      }
    }
  }

  /** The first `k` frames, each read and then answered by one reply carrying its RequestID and the right document. */
  ghost predicate Exchanges(env: Env, log: seq<Event>, fs: seq<Frame>, k: nat)
    requires k <= |fs|
    ensures Exchanges(env, log, fs, k) ==> |log| >= 2 * k
  {
    k > 0 ==>
      && |log| >= 2
      && log[0] == Got(fs[0].header, fs[0].body)
      && log[1].Reply? && Answers(log[1].bytes, fs[0].header.requestId) && Answered(env, fs[0], log[1].bytes)
      && Exchanges(env, log[2..], fs[1..], k - 1)
  }

  lemma Pair(env: Env, log: seq<Event>, fs: seq<Frame>, k: nat)
    requires 1 <= k <= |fs| && |log| >= 2
    requires log[0] == Got(fs[0].header, fs[0].body)
    requires log[1].Reply? && Answers(log[1].bytes, fs[0].header.requestId) && Answered(env, fs[0], log[1].bytes)
    requires Exchanges(env, log[2..], fs[1..], k - 1)
    ensures Exchanges(env, log, fs, k)
  {
    hide Answers, Answered;
  }

  /** The `i`-th exchange of a trace, located by index. */
  lemma {:induction false} ExchangeAt(env: Env, log: seq<Event>, fs: seq<Frame>, k: nat, i: nat)
    requires i < k <= |fs| && Exchanges(env, log, fs, k)
    ensures log[2 * i] == Got(fs[i].header, fs[i].body)
    ensures log[2 * i + 1].Reply? && Answers(log[2 * i + 1].bytes, fs[i].header.requestId)
    ensures Answered(env, fs[i], log[2 * i + 1].bytes)
  {
    hide Answers, Answered;
    if i > 0 {
      ExchangeAt(env, log[2..], fs[1..], k - 1, i - 1);
    }
  }

  /** A routing attempt that fails before `upto` says so, in one reply, and forwards nothing. */
  ghost predicate Refusal(f: Frame, tail: seq<Event>, outcome: Outcome, upto: seq<Event>, doc: Doc) {
    && outcome == Refused && |tail| == |upto| + 2
    && tail[..|upto| + 1] == [Got(f.header, f.body)] + upto
    && tail[|upto| + 1].Reply? && Answers(tail[|upto| + 1].bytes, f.header.requestId)
    && Tells(tail[|upto| + 1].bytes, f.header, doc)
  }

  /** The events after the prelude: nothing, a rejected frame, or one routing attempt. */
  ghost predicate Ending(env: Env, fs: seq<Frame>, k: nat, tail: seq<Event>, outcome: Outcome)
    requires k <= |fs|
  {
    if k == |fs| then tail == [] && outcome == ReadFailed
    else if !Routes(env, fs[k]) then tail == [Got(fs[k].header, fs[k].body)] && outcome == DecodeFailed
    else if !env.hasTarget then Refusal(fs[k], tail, outcome, [], env.noTarget)
    else if !env.dialOk then Refusal(fs[k], tail, outcome, [Dial], env.dialFailed)
    else if !env.authOk then Refusal(fs[k], tail, outcome, [Dial, Login], env.authFailed)
    else outcome == Piping && tail == [Got(fs[k].header, fs[k].body), Dial, Login, Forward(fs[k].raw), Register]
  }

  /**
   * On every client stream: each frame before the first routable (or undecodable) one is read and
   * answered by exactly one reply carrying its RequestID, nothing goes upstream meanwhile, and the
   * routing frame is forwarded as the very bytes the client sent.
   */
  lemma {:induction false} DispatchShape(env: Env, stream: Octets)
    ensures var fs := Frames(stream);
            var k := Prelude(env, fs);
            var run := Dispatch(env, stream);
            && Exchanges(env, run.log, fs, k)
            && Ending(env, fs, k, run.log[2 * k..], run.outcome)
    decreases |stream|
  {
    hide *;
    var fs := Frames(stream);
    var k := Prelude(env, fs);
    var run := Dispatch(env, stream);
    if k == 0 {
      EndsAtOnce(env, stream);
    } else {
      var rest := DispatchStep(env, stream);
      DispatchShape(env, rest);
      Pair(env, run.log, fs, k);
      assert run.log[2 * k..] == run.log[2..][2 * (k - 1)..];
      EndingShift(env, fs, k, run.log[2 * k..], run.outcome);
    }
  }

  /** One turn of the loop on a frame answered locally. */
  lemma DispatchStep(env: Env, stream: Octets) returns (rest: Octets)
    requires Prelude(env, Frames(stream)) > 0
    ensures |rest| < |stream|
    ensures var fs := Frames(stream);
            var run := Dispatch(env, stream);
            && fs != [] && fs[1..] == Frames(rest)
            && Prelude(env, fs) == 1 + Prelude(env, fs[1..])
            && |run.log| >= 2 && run.log[0] == Got(fs[0].header, fs[0].body)
            && run.log[1].Reply? && Answers(run.log[1].bytes, fs[0].header.requestId)
            && Answered(env, fs[0], run.log[1].bytes)
            && Run(run.log[2..], run.outcome) == Dispatch(env, rest)
  {
    hide DecodeCommand, ReplyBytes, ReadMessage, WriteMessage, Answers, RouteMongo, Tells;
    var m := ReadMessage(stream).value;
    rest := m.rest;
    var cmd := DecodeCommand(m.header, m.body).value;
    ReplyAnswers(m.header.opCode, m.header.requestId, Answer(env, cmd));
    ReplyTells(m.header, Answer(env, cmd));
  }

  lemma EndingShift(env: Env, fs: seq<Frame>, k: nat, tail: seq<Event>, outcome: Outcome)
    requires 1 <= k <= |fs| && Ending(env, fs[1..], k - 1, tail, outcome)
    ensures Ending(env, fs, k, tail, outcome)
  {
    hide Routes, Answers, Tells;
  }

  lemma EndsAtOnce(env: Env, stream: Octets)
    requires Prelude(env, Frames(stream)) == 0
    ensures Exchanges(env, Dispatch(env, stream).log, Frames(stream), 0)
    ensures Ending(env, Frames(stream), 0, Dispatch(env, stream).log[0..], Dispatch(env, stream).outcome)
  {
    hide DecodeCommand, ReplyBytes, ReadMessage, WriteMessage, Answers, RouteMongo, Answer;
    assert Dispatch(env, stream).log[0..] == Dispatch(env, stream).log;
    var fs := Frames(stream);
    if fs != [] && Routes(env, fs[0]) {
      FramesAreTheStream(stream);
      RoutingEnds(env, fs);
    }
  }

  lemma RoutingEnds(env: Env, fs: seq<Frame>)
    requires fs != [] && Routes(env, fs[0])
    requires var f := fs[0];
             f.raw == WriteMessage(f.header.requestId, f.header.responseTo, f.header.opCode, f.body)
    ensures var r := RouteMongo(env, fs[0].header, fs[0].body);
            Ending(env, fs, 0, [Got(fs[0].header, fs[0].body)] + r.log, r.outcome)
  {
    hide WriteMessage, Answers, ReplyBytes, Tells;
    var h := fs[0].header;
    var doc := if !env.hasTarget then env.noTarget else if !env.dialOk then env.dialFailed else env.authFailed;
    ReplyAnswers(h.opCode, h.requestId, doc);
    ReplyTells(h, doc);
    var got := Got(h, fs[0].body);
    var reply := Reply(ReplyBytes(h.opCode, h.requestId, doc).value);
    assert [got] + [reply] == [got, reply];
    assert [got] + ([Dial] + [reply]) == [got, Dial, reply];
    assert [got] + ([Dial, Login] + [reply]) == [got, Dial, Login, reply];
  }

  /** Nothing is dialled, authenticated or forwarded unless some frame routes, and only after it is read. */
  lemma NothingUpstreamBeforeRouting(env: Env, stream: Octets, i: nat)
    requires i < |Dispatch(env, stream).log| && Upstream(Dispatch(env, stream).log[i])
    ensures var fs := Frames(stream);
            var k := Prelude(env, fs);
            k < |fs| && Routes(env, fs[k]) && i > 2 * k
  {
    hide DecodeCommand, ReplyBytes, ReadMessage, WriteMessage, Answers, RouteMongo, Dispatch, Frames;
    DispatchShape(env, stream);
    var fs := Frames(stream);
    var k := Prelude(env, fs);
    var log := Dispatch(env, stream).log;
    var j := i / 2;
    assert i == 2 * j || i == 2 * j + 1;
    if j < k {
      ExchangeAt(env, log, fs, k, j);
    } else {
      assert log[i] == log[2 * k..][i - 2 * k];
    }
  }

  // ------------------------------------------------------------- both ends

  /** A driver reads the reply to an OP_MSG request as the document it was built from, tied to its own request. */
  lemma ReplyDecodes(requestId: Int32, doc: Doc, rest: Octets)
    requires GoodDoc(doc) && |EncodeDoc(doc)| <= MAX_MESSAGE - 21
    ensures var bytes := ReplyBytes(OP_MSG, requestId, doc);
            && bytes.Some? && ReadMessage(bytes.value + rest).Some?
            && var m := ReadMessage(bytes.value + rest).value;
               && m.header.responseTo == requestId && m.header.opCode == OP_MSG && m.rest == rest
               && ParseOpMsg(m.body) == Some((0, NormDoc(doc)))
  {
    hide ParseOpMsg, ReadMessage, WriteMessage, EncodeDoc, GoodDoc, NormDoc;
    var body := EncodeOpMsgBody(0, doc);
    assert |body| == 5 + |EncodeDoc(doc)|;
    ReadWrittenMessage(0, requestId, OP_MSG, body, rest);
    assert !ChecksumPresent(0);
    OpMsgRoundTrip(0, doc);
  }

  /** A driver's command routes by the first "$db" string of the document it encoded. */
  lemma CommandDecodes(h: Header, flags: UInt32, doc: Doc)
    requires h.opCode == 2013 && GoodDoc(doc) && |EncodeDoc(doc)| < LIMIT && flags % 2 == 0
    ensures DecodeCommand(h, EncodeOpMsgBody(flags, doc))
         == Some(Command(NormDoc(doc), LookupString(doc, Ascii("$db")), 2013, h.requestId))
  {
    hide ParseOpMsg, EncodeDoc, GoodDoc, NormDoc, Lookup;
    assert DB_KEY == Ascii("$db");
    OpMsgRoundTrip(flags, doc);
    LookupNormal(doc, DB_KEY);
  }

  /** A legacy probe routes by its collection up to the first dot, or by all of it. */
  lemma QueryDecodes(h: Header, q: Query, selector: Octets, db: Octets, rest: Octets)
    requires h.opCode == 2004 && GoodDoc(q.query) && |EncodeDoc(q.query)| < LIMIT
    requires NulFree(q.collection) && Free(db, 0x2E) && (q.collection == db + [0x2E] + rest || q.collection == db)
    ensures DecodeCommand(h, EncodeOpQuery(q, selector)) == Some(Command(NormDoc(q.query), db, 2004, h.requestId))
  {
    hide ParseOpQuery, EncodeOpQuery, EncodeDoc, GoodDoc, NormDoc;
    OpQueryRoundTrip(q, selector);
    if q.collection == db + [0x2E] + rest {
      assert q.collection[0..|db|] == db;
      FindTerminator(q.collection, 0, db, DOT);
    } else {
      assert forall i :: 0 <= i < |db| ==> db[i] in db;
    }
  }

  /** Anything but the two request kinds is rejected. */
  lemma OtherOpCodes(h: Header, body: Octets)
    requires h.opCode != 2013 && h.opCode != 2004
    ensures DecodeCommand(h, body).None?
  {}

  /** Normalising a document changes no string, so no lookup of one. */
  lemma {:induction false} LookupNormal(doc: Doc, key: Octets)
    ensures LookupString(NormDoc(doc), key) == LookupString(doc, key)
  {
    if doc != [] && doc[0].key != key {
      LookupNormal(doc[1..], key);
      assert NormDoc(doc)[1..] == NormDoc(doc[1..]);
    }
  }
}
