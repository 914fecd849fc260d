/** The whole upstream login, and the MySQL client leg that waits for it. */
module MySqlDispatch {
  import opened Octets
  import opened Bits
  import opened MySqlHandshake
  import opened Scramble
  import opened MySqlLogin
  import Packet = MySqlPacket
  import C = Config
  import S = Switching

  // ---------------------------------------------------------------- upstream

  /** The plugin a greeting puts in force. */
  function PluginOf(hs: Greeting): Octets {
    if hs.plugin == [] then NATIVE else hs.plugin
  }

  /** The login goes out: the greeting parses, TLS if wanted is offered and comes up, and the plugin is known. */
  predicate Sends(ctx: Ctx, script: seq<Frame>, tls: bool, tlsOk: bool) {
    && script != [] && ParseGreeting(script[0].payload).Some?
    && var hs := ParseGreeting(script[0].payload).value;
       (tls ==> Bit(hs.caps, SSL) && tlsOk) && AuthResponse(ctx, PluginOf(hs), hs.salt).Some?
  }

  /** The login message for a greeting. */
  function LoginFor(ctx: Ctx, script: seq<Frame>, user: Octets, database: Octets, tls: bool, tlsOk: bool): Response
    requires Sends(ctx, script, tls, tlsOk)
  {
    var hs := ParseGreeting(script[0].payload).value;
    UpstreamCapsWord(hs.caps, database != []);
    var caps: UInt32 := UpstreamCaps(hs.caps, database != []);
    WithSslWord(caps);
    Response(if tls then WithSsl(caps) else caps, MAX_PACKET_PAYLOAD, UTF8MB4, user,
             AuthResponse(ctx, PluginOf(hs), hs.salt).value, database, PluginOf(hs))
  }

  predicate OffersTls(script: seq<Frame>) {
    && script != [] && ParseGreeting(script[0].payload).Some?
    && Bit(ParseGreeting(script[0].payload).value.caps, 11)
  }

  /** A login that does not go out has failed, and nothing but a TLS request was sent; without TLS on offer not even that. */
  lemma LoginRefused(ctx: Ctx, script: seq<Frame>, user: Octets, database: Octets, tls: bool, tlsOk: bool)
    requires !Sends(ctx, script, tls, tlsOk)
    ensures var r := LoginRun(ctx, script, user, database, tls, tlsOk);
            && !r.ok
            && (forall e :: e in r.log && e.Sent? ==> tls && e.msg.SslRequest?)
            && (script != [] && !OffersTls(script) ==> r.log == [Got(script[0])])
  {
    hide ParseGreeting, Bit, UpstreamCaps, WithSsl, EncodeSslRequest, EncodeResponse, Finish;
  }

  /** What the proxy has sent and read up to and including its login. */
  function Opening(f: Frame, login: Response, tls: bool): seq<Event> {
    var bytes := EncodeResponse(login);
    if tls
    then [Got(f), Sent(Packet.Next(f.id), SslRequest(EncodeSslRequest(login.caps, login.charset))),
          Sent(Packet.Next(Packet.Next(f.id)), Login(bytes))]
    else [Got(f), Sent(Packet.Next(f.id), Login(bytes))]
  }

  /** The TLS request is the head of the login that follows it. */
  lemma SslRequestIsLoginHead(login: Response)
    ensures |EncodeResponse(login)| >= 32 && EncodeSslRequest(login.caps, login.charset) == EncodeResponse(login)[..32]
  {
    hide LE, Bit;
    var head := LE(login.caps, 4) + LE(MAX_PACKET_PAYLOAD, 4) + [login.charset] + Zeros(23);
    assert EncodeResponse(login)[..32] == head;
  }

  lemma RunAfterLogin(ctx: Ctx, script: seq<Frame>, user: Octets, database: Octets, tls: bool, tlsOk: bool)
    requires Sends(ctx, script, tls, tlsOk)
    ensures var hs := ParseGreeting(script[0].payload).value;
            var login := LoginFor(ctx, script, user, database, tls, tlsOk);
            LoginRun(ctx, script, user, database, tls, tlsOk)
            == Then(Opening(script[0], login, tls),
                    Finish(ctx.(secure := ctx.secure || tls), script[1..], PluginOf(hs), hs.salt))
  {
    hide ParseGreeting, Bit, UpstreamCaps, WithSsl, EncodeSslRequest, EncodeResponse, Finish;
    SecureIsNoHash(ctx, tls);
    var f := script[0];
    var login := LoginFor(ctx, script, user, database, tls, tlsOk);
    var sent := Sent(Packet.Next(f.id), SslRequest(EncodeSslRequest(login.caps, login.charset)));
    var last := Sent(if tls then Packet.Next(Packet.Next(f.id)) else Packet.Next(f.id), Login(EncodeResponse(login)));
    assert [Got(f)] + [sent] + [last] == [Got(f), sent, last];
    assert [Got(f)] + [] + [last] == [Got(f), last];
  }

  lemma SecureIsNoHash(ctx: Ctx, tls: bool)
    ensures forall plugin, salt ::
              AuthResponse(ctx.(secure := ctx.secure || tls), plugin, salt) == AuthResponse(ctx, plugin, salt)
  {}

  /** Once the login is out: it succeeds exactly on an OK read by the loop, and everything after it is lawful. */
  lemma LoginDecided(ctx: Ctx, script: seq<Frame>, user: Octets, database: Octets, tls: bool, tlsOk: bool)
    requires Sends(ctx, script, tls, tlsOk)
    ensures var hs := ParseGreeting(script[0].payload).value;
            var r := LoginRun(ctx, script, user, database, tls, tlsOk);
            var open := Opening(script[0], LoginFor(ctx, script, user, database, tls, tlsOk), tls);
            && open <= r.log && (r.ok <==> EndsWithOk(r.log[|open|..]))
            && Lawful(ctx.(secure := ctx.secure || tls), r.log[|open|..], PluginOf(hs), hs.salt, None)
  {
    hide ParseGreeting, Finish, Opening, LoginFor, LoginRun, EndsWithOk, Lawful, AuthResponse, Bit;
    var hs := ParseGreeting(script[0].payload).value;
    var ctx' := ctx.(secure := ctx.secure || tls);
    RunAfterLogin(ctx, script, user, database, tls, tlsOk);
    FinishSucceeds(ctx', script[1..], PluginOf(hs), hs.salt);
    FinishLawful(ctx', script[1..], PluginOf(hs), hs.salt);
    var r := LoginRun(ctx, script, user, database, tls, tlsOk);
    var open := Opening(script[0], LoginFor(ctx, script, user, database, tls, tlsOk), tls);
    assert r.log[|open|..] == Finish(ctx', script[1..], PluginOf(hs), hs.salt).log;
  }

  /** The login's own payload: its auth field is a scramble. */
  ghost predicate ScrambledLogin(ctx: Ctx, bytes: Octets) {
    exists r: Response, salt: Octets :: bytes == EncodeResponse(r) && AuthResponse(ctx, r.plugin, salt) == Some(r.auth)
  }

  /** Every payload of a login without TLS: the login with its scramble, further scrambles, the key request, ciphertexts. */
  lemma LoginConceals(ctx: Ctx, script: seq<Frame>, user: Octets, database: Octets, i: nat)
    requires !ctx.secure && ctx.password != []
    requires var r := LoginRun(ctx, script, user, database, false, true); i < |r.log| && r.log[i].Sent?
    ensures var r := LoginRun(ctx, script, user, database, false, true);
            ScrambledLogin(ctx, Payload(r.log[i].msg)) || Concealed(ctx, Payload(r.log[i].msg))
  {
    hide LoginRun, EncodeResponse, AuthResponse, Lawful, EndsWithOk, ParseGreeting, Concealed, Bit, Payload;
    var r := LoginRun(ctx, script, user, database, false, true);
    assert r.log[i] in r.log;
    if Sends(ctx, script, false, true) {
      LoginDecided(ctx, script, user, database, false, true);
      var login := LoginFor(ctx, script, user, database, false, true);
      var open := Opening(script[0], login, false);
      assert ctx.(secure := ctx.secure || false) == ctx;
      var hs := ParseGreeting(script[0].payload).value;
      if i < |open| {
        assert r.log[i] == open[i];
        LoginPayload(ctx, login, hs.salt);
      } else {
        assert r.log[|open|..][i - |open|] == r.log[i];
        LawfulConceals(ctx, r.log[|open|..], PluginOf(hs), hs.salt, None, i - |open|);
      }
    } else {
      LoginRefused(ctx, script, user, database, false, true);
    }
  }

  lemma LoginPayload(ctx: Ctx, r: Response, salt: Octets)
    requires AuthResponse(ctx, r.plugin, salt) == Some(r.auth)
    ensures ScrambledLogin(ctx, Payload(Login(EncodeResponse(r))))
  {}

  /** What travels in the clear when TLS is asked for: everything up to the TLS request. */
  function InTheClear(log: seq<Event>): seq<Event> {
    if log == [] then []
    else if log[0].Sent? && log[0].msg.SslRequest? then [log[0]]
    else [log[0]] + InTheClear(log[1..])
  }

  /** With TLS asked for, nothing in the clear depends on the password, and only the TLS request is written there. */
  lemma TlsHidesPassword(a: Ctx, b: Ctx, script: seq<Frame>, user: Octets, database: Octets, tlsOk: bool)
    ensures var clear := InTheClear(LoginRun(a, script, user, database, true, tlsOk).log);
            && clear == InTheClear(LoginRun(b, script, user, database, true, tlsOk).log)
            && forall e :: e in clear && e.Sent? ==> e.msg.SslRequest?
  {
    ClearPart(a, script, user, database, tlsOk);
    ClearPart(b, script, user, database, tlsOk);
  }

  /** The greeting, and the TLS request if the server offers TLS. */
  function ClearEvents(script: seq<Frame>, database: Octets): seq<Event> {
    if script == [] then [] else
      match ParseGreeting(script[0].payload)
      case None => [Got(script[0])]
      case Some(hs) =>
        if !Bit(hs.caps, SSL) then [Got(script[0])] else
          UpstreamCapsWord(hs.caps, database != []);
          WithSslWord(UpstreamCaps(hs.caps, database != []));
          [Got(script[0]), Sent(Packet.Next(script[0].id),
                                SslRequest(EncodeSslRequest(WithSsl(UpstreamCaps(hs.caps, database != [])), UTF8MB4)))]
  }

  lemma ClearPart(ctx: Ctx, script: seq<Frame>, user: Octets, database: Octets, tlsOk: bool)
    ensures InTheClear(LoginRun(ctx, script, user, database, true, tlsOk).log) == ClearEvents(script, database)
  {
    hide ParseGreeting, Bit, UpstreamCaps, WithSsl, EncodeSslRequest, EncodeResponse, Finish, AuthResponse;
    var log := LoginRun(ctx, script, user, database, true, tlsOk).log;
    if script != [] {
      assert log[0] == Got(script[0]);
      if |log| >= 2 {
        var e := log[1];
        assert e.Sent? && e.msg.SslRequest?;
        assert InTheClear(log[1..]) == [e];
      } else {
        assert log[1..] == [];
        assert InTheClear(log[1..]) == [];
      }
    }
  }

  lemma WithSslBits(caps: UInt32, k: nat)
    ensures Bit(WithSsl(caps), k) <==> Bit(caps, k) || k == SSL
  {
    hide Bit, Or, Flags;
    BitOr(caps, Flags([SSL]), k);
    FlagBits([SSL], k);
  }

  lemma KnownPlugin(ctx: Ctx, plugin: Octets, salt: Octets)
    requires plugin != [] && AuthResponse(ctx, plugin, salt).Some?
    ensures NulFree(plugin) && |plugin| == 21
    ensures var n := |AuthResponse(ctx, plugin, salt).value|; n == 0 || n == 20 || n == 32
  {
    hide NativeScramble, Sha2Scramble;
  }

  /** The login decodes to the target's user, database and plugin and the scramble of the greeting's nonce; it announces
      TLS exactly when TLS was asked for. */
  lemma LoginDecodes(ctx: Ctx, script: seq<Frame>, user: Octets, database: Octets, tls: bool, tlsOk: bool)
    requires Sends(ctx, script, tls, tlsOk)
    requires NulFree(user) && NulFree(database) && |user| + |database| < 0x8000_0000
    ensures var login := LoginFor(ctx, script, user, database, tls, tlsOk);
            && |EncodeResponse(login)| < 0x8000_0000_0000_0000
            && ParseResponse(EncodeResponse(login)) == Done(login)
            && (Bit(login.caps, 11) <==> tls)
  {
    var hs := ParseGreeting(script[0].payload).value;
    KnownPlugin(ctx, PluginOf(hs), hs.salt);
    hide ParseGreeting, Bit, UpstreamCaps, WithSsl, LE, ParseResponse, AuthResponse;
    var withDB := database != [];
    UpstreamCapsWord(hs.caps, withDB);
    var caps := UpstreamCaps(hs.caps, withDB);
    var login := LoginFor(ctx, script, user, database, tls, tlsOk);
    LoginBits(hs.caps, withDB, tls, login.caps);
    assert |EncodeResponse(login)| < 0x8000_0000_0000_0000;
    ResponseRoundTrip(login);
  }

  /** What a login carries: the account asked for, and a proof of the password for the plugin in force and the greeting's
      nonce. A greeting that names another plugin gets no login. */
  lemma LoginCarries(ctx: Ctx, script: seq<Frame>, user: Octets, database: Octets, tls: bool, tlsOk: bool)
    requires Sends(ctx, script, tls, tlsOk)
    ensures var hs := ParseGreeting(script[0].payload).value;
            var plugin := if hs.plugin == [] then Ascii("mysql_native_password") else hs.plugin;
            var login := LoginFor(ctx, script, user, database, tls, tlsOk);
            && login.user == user && login.database == database && login.plugin == plugin && login.charset == 0x2D
            && Known(plugin) && Proves(ctx, plugin, hs.salt, login.auth)
  {
    hide ParseGreeting, Bit, UpstreamCaps, WithSsl, AuthResponse, Known, Proves;
    Names();
    var hs := ParseGreeting(script[0].payload).value;
    ResponseProves(ctx, PluginOf(hs), hs.salt);
  }

  /** The bits a login is read by. */
  lemma LoginBits(server: UInt32, withDB: bool, tls: bool, caps: UInt32)
    requires UpstreamCaps(server, withDB) < 0x1_0000_0000
    requires caps == if tls then WithSsl(UpstreamCaps(server, withDB)) else UpstreamCaps(server, withDB)
    ensures Bit(caps, PROTOCOL_41) && Bit(caps, SECURE_CONNECTION) && Bit(caps, PLUGIN_AUTH)
    ensures Bit(caps, CONNECT_WITH_DB) <==> withDB
    ensures Bit(caps, SSL) <==> tls
    ensures Bit(caps, DEPRECATE_EOF) <==> Bit(server, DEPRECATE_EOF)
  {
    hide Bit, UpstreamCaps, WithSsl;
    LoginBit(server, withDB, tls, PROTOCOL_41);
    LoginBit(server, withDB, tls, SECURE_CONNECTION);
    LoginBit(server, withDB, tls, PLUGIN_AUTH);
    LoginBit(server, withDB, tls, CONNECT_WITH_DB);
    LoginBit(server, withDB, tls, SSL);
    LoginBit(server, withDB, tls, DEPRECATE_EOF);
  }

  lemma LoginBit(server: UInt32, withDB: bool, tls: bool, k: nat)
    requires UpstreamCaps(server, withDB) < 0x1_0000_0000
    ensures var caps := UpstreamCaps(server, withDB);
            Bit(if tls then WithSsl(caps) else caps, k) <==>
            || (tls && k == SSL) || (k in DESIRED_BITS && Bit(server, k)) || k in MANDATORY_BITS
            || (withDB && k == CONNECT_WITH_DB)
  {
    hide Bit, UpstreamCaps, WithSsl;
    UpstreamCapsBits(server, withDB, k);
    WithSslBits(UpstreamCaps(server, withDB), k);
  }

  // ---------------------------------------------------------------- client leg

  const BAD_DB := 1049
  const UNKNOWN_ERROR := 1105
  const ACCESS_DENIED := 1045

  datatype Route = Unconfigured | Inactive | Active(target: S.ResolvedTarget)

  datatype Reply = OkPacket | ErrPacket(code: nat)

  /** The world outside: how names route, who answers a dial with which packets, and foreign code. */
  datatype World = World(
    lookup: Octets -> Route, dial: S.ResolvedTarget -> Option<seq<Frame>>, tlsOk: bool,
    sha1: Octets -> Octets, sha256: Octets -> Octets, rsa: (Octets, Octets, nat) -> Option<Octets>)

  /** The routing key: the client's database, else its user name. */
  function RoutingKey(r: Response): Octets {
    if r.database != [] then r.database else r.user
  }

  function UpstreamDatabase(rt: S.ResolvedTarget, r: Response): Octets {
    if rt.database != [] then rt.database else r.database
  }

  function ContextFor(w: World, rt: S.ResolvedTarget): Ctx {
    Ctx(w.sha1, w.sha256, w.rsa, rt.password, false)
  }

  /** The upstream login a client's response leads to. */
  function UpstreamLogin(w: World, rt: S.ResolvedTarget, r: Response, script: seq<Frame>): Run {
    LoginRun(ContextFor(w, rt), script, rt.user, UpstreamDatabase(rt, r), rt.sslMode == C.SSL_REQUIRE, w.tlsOk)
  }

  /** Both peers speak the same result-set framing. */
  predicate SameFraming(r: Response, script: seq<Frame>) {
    && script != [] && ParseGreeting(script[0].payload).Some?
    && Bit(r.caps, 24) == Bit(ParseGreeting(script[0].payload).value.caps, 24)
  }

  /** What the client is told, clause by clause. */
  function Verdict(w: World, r: Response): Reply {
    match w.lookup(RoutingKey(r))
    case Unconfigured => ErrPacket(BAD_DB)
    case Inactive => ErrPacket(UNKNOWN_ERROR)
    case Active(rt) =>
      match w.dial(rt)
      case None => ErrPacket(UNKNOWN_ERROR)
      case Some(script) =>
        if !UpstreamLogin(w, rt, r, script).ok then ErrPacket(ACCESS_DENIED)
        else if !SameFraming(r, script) then ErrPacket(UNKNOWN_ERROR)
        else OkPacket
  }

  /** How a handler ends: it returns, or a run-time failure takes the process down with it. */
  datatype Exit = Returned | Crashed

  /** One client connection on the MySQL port. */
  class ClientLeg {
    var replies: seq<(Byte, Reply)>
    var upstreamOpen: bool
    var registered: Option<S.ResolvedTarget>

    constructor ()
      ensures replies == [] && !upstreamOpen && registered == None
    {
      replies, upstreamOpen, registered := [], false, None;
    }

    method Tell(id: Byte, r: Reply)
      modifies this`replies
      ensures replies == old(replies) + [(id, r)]
    {
      replies := replies + [(id, r)];
    }

    /** dispatchMySQL from the client's response on: exactly one verdict, an open upstream only after OK. */
    method DispatchMySQL(w: World, response: Frame) returns (exit: Exit)
      requires |response.payload| < 0x8000_0000_0000_0000 && replies == [] && !upstreamOpen && registered == None
      modifies this
      ensures var p := ParseResponse(response.payload);
              if p.Done? then replies == [(Packet.Next(response.id), Verdict(w, p.value))] else replies == []
      ensures exit == Crashed <==> ParseResponse(response.payload).Panic?
      ensures upstreamOpen <==> registered.Some?
      ensures registered.Some? <==> replies != [] && replies[0].1.OkPacket?
      ensures var p := ParseResponse(response.payload);
              registered.Some? ==> p.Done? && w.lookup(RoutingKey(p.value)) == Active(registered.value)
    {
      hide ParseResponse, ParseGreeting, Bit, LoginRun, UpstreamCaps, WithSsl, And, Flags;
      var p := ParseResponse(response.payload);
      if p.Panic? {
        return Crashed;
      }
      exit := Returned;
      if p.Error? {
        return;
      }
      var r, id := p.value, Packet.Next(response.id);
      var route := w.lookup(RoutingKey(r));
      if route.Unconfigured? {
        Tell(id, ErrPacket(BAD_DB));
        return;
      }
      if route.Inactive? {
        Tell(id, ErrPacket(UNKNOWN_ERROR));
        return;
      }
      var rt := route.target;
      var script := w.dial(rt);
      if script.None? {
        Tell(id, ErrPacket(UNKNOWN_ERROR));
        return;
      }
      upstreamOpen := true;
      var tls, db := rt.sslMode == C.SSL_REQUIRE, UpstreamDatabase(rt, r);
      var link := new Link(script.value);
      var ok, caps := link.Authenticate(ContextFor(w, rt), rt.user, db, tls, w.tlsOk);
      if !ok {
        Tell(id, ErrPacket(ACCESS_DENIED));
        upstreamOpen := false;
        return;
      }
      FramingCheck(r.caps, script.value[0], db, tls, caps);
      if Bit(And(r.caps, Flags(PROXY_BITS)), DEPRECATE_EOF) != Bit(caps, DEPRECATE_EOF) {
        Tell(id, ErrPacket(UNKNOWN_ERROR));
        upstreamOpen := false;
        return;
      }
      Tell(id, OkPacket);
      registered := Some(rt);
    }
  }

  /** What the client is told, on the response's own fields and in the protocol's error numbers. */
  lemma VerdictIs(w: World, r: Response)
    ensures var name := if r.database != [] then r.database else r.user;
            match w.lookup(name)
            case Unconfigured => Verdict(w, r) == ErrPacket(1049)
            case Inactive => Verdict(w, r) == ErrPacket(1105)
            case Active(rt) =>
              match w.dial(rt)
              case None => Verdict(w, r) == ErrPacket(1105)
              case Some(script) =>
                var db := if rt.database != [] then rt.database else r.database;
                var login := LoginRun(Ctx(w.sha1, w.sha256, w.rsa, rt.password, false), script, rt.user, db,
                                      rt.sslMode == Ascii("require"), w.tlsOk);
                && (!login.ok ==> Verdict(w, r) == ErrPacket(1045))
                && (login.ok && !SameFraming(r, script) ==> Verdict(w, r) == ErrPacket(1105))
                && (login.ok && SameFraming(r, script) ==> Verdict(w, r) == OkPacket)
  {
    hide LoginRun, SameFraming;
    assert C.SSL_REQUIRE == Ascii("require");
  }

  /** The capability test compares what the two peers themselves announced. */
  lemma FramingCheck(client: UInt32, greeting: Frame, database: Octets, tls: bool, caps: UInt32)
    requires Negotiated(greeting, database, tls) == Some(caps)
    ensures ParseGreeting(greeting.payload).Some?
    ensures Bit(And(client, Flags(PROXY_BITS)), DEPRECATE_EOF) == Bit(caps, DEPRECATE_EOF) <==>
            Bit(client, DEPRECATE_EOF) == Bit(ParseGreeting(greeting.payload).value.caps, DEPRECATE_EOF)
  {
    hide ParseGreeting, Bit, UpstreamCaps, WithSsl, And, Flags;
    var hs := ParseGreeting(greeting.payload).value;
    UpstreamCapsWord(hs.caps, database != []);
    LoginBits(hs.caps, database != [], tls, caps);
    BitAnd(client, Flags(PROXY_BITS), DEPRECATE_EOF);
    FlagBits(PROXY_BITS, DEPRECATE_EOF);
  }

  /** The client hears OK only after the upstream's own OK was read by the login loop, on a login for the target's user. */
  lemma OkMeansLoggedIn(w: World, r: Response)
    requires Verdict(w, r) == OkPacket
    ensures var route := w.lookup(RoutingKey(r));
            && route.Active? && w.dial(route.target).Some?
            && EndsWithOk(UpstreamLogin(w, route.target, r, w.dial(route.target).value).log)
            && SameFraming(r, w.dial(route.target).value)
  {
    hide LoginRun, EndsWithOk, ParseGreeting, Bit, AuthResponse;
    var rt := w.lookup(RoutingKey(r)).target;
    var script := w.dial(rt).value;
    var ctx, db, tls := ContextFor(w, rt), UpstreamDatabase(rt, r), rt.sslMode == C.SSL_REQUIRE;
    if Sends(ctx, script, tls, w.tlsOk) {
      LoginDecided(ctx, script, rt.user, db, tls, w.tlsOk);
      OkInTail(UpstreamLogin(w, rt, r, script).log, Opening(script[0], LoginFor(ctx, script, rt.user, db, tls, w.tlsOk), tls));
    } else {
      LoginRefused(ctx, script, rt.user, db, tls, w.tlsOk);
    }
  }

  lemma OkInTail(log: seq<Event>, open: seq<Event>)
    requires open <= log && open != [] && EndsWithOk(log[|open|..])
    requires !(open[|open| - 1].Sent? && open[|open| - 1].msg.KeyRequest?)
    ensures EndsWithOk(log)
  {}
}
