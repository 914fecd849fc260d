/** Logging in to an upstream MySQL server, for every script of packets the server may send. */
module MySqlLogin {
  import opened Octets
  import opened Bits
  import opened MySqlHandshake
  import opened Scramble
  import Packet = MySqlPacket

  const NATIVE: Octets :=
    [0x6D, 0x79, 0x73, 0x71, 0x6C, 0x5F, 0x6E, 0x61, 0x74, 0x69, 0x76, 0x65, 0x5F, 0x70, 0x61, 0x73, 0x73,
     0x77, 0x6F, 0x72, 0x64] // "mysql_native_password"
  const SHA2: Octets :=
    [0x63, 0x61, 0x63, 0x68, 0x69, 0x6E, 0x67, 0x5F, 0x73, 0x68, 0x61, 0x32, 0x5F, 0x70, 0x61, 0x73, 0x73,
     0x77, 0x6F, 0x72, 0x64] // "caching_sha2_password"

  const OK: Byte := 0x00
  const ERR: Byte := 0xFF
  const AUTH_SWITCH: Byte := 0xFE
  const MORE_DATA: Byte := 0x01
  const FAST_SUCCESS: Byte := 0x03
  const FULL_AUTH: Byte := 0x04
  const UTF8MB4: Byte := 0x2D

  /** Foreign code as functions: the hashes, and encryption under a key the server sends. OAEP is randomised; its last
      argument says which draw of the random source it uses. */
  datatype Ctx = Ctx(
    sha1: Octets -> Octets, sha256: Octets -> Octets, rsa: (Octets, Octets, nat) -> Option<Octets>,
    password: Octets, secure: bool)

  /** What the proxy writes, kept apart by purpose. */
  datatype Message =
    | SslRequest(bytes: Octets)
    | Login(bytes: Octets)
    | Scrambled(bytes: Octets)
    | EmptyPassword
    | Cleartext(password: Octets)
    | KeyRequest
    | Encrypted(bytes: Octets)

  function Payload(m: Message): Octets
  {
    match m
    case SslRequest(bytes) => bytes
    case Login(bytes) => bytes
    case Scrambled(bytes) => bytes
    case EmptyPassword => [0]
    case Cleartext(password) => password + [0]
    case KeyRequest => [0x02]
    case Encrypted(bytes) => bytes
  }

  /** A reassembled server packet. */
  datatype Frame = Frame(id: Byte, payload: Octets)

  datatype Event = Got(frame: Frame) | Sent(id: Byte, msg: Message)

  datatype Run = Run(log: seq<Event>, ok: bool)

  /** mysqlAuthResponse. */
  function AuthResponse(ctx: Ctx, plugin: Octets, salt: Octets): Option<Octets>
  {
    if plugin == NATIVE || plugin == [] then Some(NativeScramble(ctx.sha1, ctx.password, salt))
    else if plugin == SHA2 then Some(Sha2Scramble(ctx.sha256, ctx.password, salt))
    else None
  }

  lemma Names()
    ensures NATIVE == Ascii("mysql_native_password") && SHA2 == Ascii("caching_sha2_password")
  {}

  /** The plugins a login can use; no name means the native one. */
  predicate Known(plugin: Octets) {
    plugin == Ascii("mysql_native_password") || plugin == [] || plugin == Ascii("caching_sha2_password")
  }

  /** `bytes` prove knowledge of the password to a server that runs `plugin` with this nonce and stores the double hash. */
  predicate Proves(ctx: Ctx, plugin: Octets, salt: Octets, bytes: Octets) {
    if ctx.password == [] then bytes == [] && Known(plugin)
    else if plugin == Ascii("mysql_native_password") || plugin == [] then
      NativeAccepts(ctx.sha1, Digest(ctx.sha1, 20, Digest(ctx.sha1, 20, ctx.password)), salt, bytes)
    else
      && plugin == Ascii("caching_sha2_password")
      && Sha2Accepts(ctx.sha256, Digest(ctx.sha256, 32, Digest(ctx.sha256, 32, ctx.password)), salt, bytes)
  }

  /** Every auth response is a proof for the plugin it answers; other plugins get none. */
  lemma ResponseProves(ctx: Ctx, plugin: Octets, salt: Octets)
    ensures AuthResponse(ctx, plugin, salt).Some? <==> Known(plugin)
    ensures AuthResponse(ctx, plugin, salt).Some? ==> Proves(ctx, plugin, salt, AuthResponse(ctx, plugin, salt).value)
  {
    Names();
    assert NATIVE[0] != SHA2[0];
    hide NativeAccepts, Sha2Accepts, Digest, NativeScramble, Sha2Scramble, Ascii, NATIVE, SHA2;
    if ctx.password != [] {
      ServerAccepts(ctx.sha1, ctx.sha256, ctx.password, salt);
    }
  }

  /** `plain` is `text` under the nonce, repeated. */
  predicate Masked(plain: Octets, text: Octets, salt: Octets) {
    |plain| == |text| && salt != [] && forall i :: 0 <= i < |text| ==> plain[i] == XorNat(text[i], salt[i % |salt|])
  }

  /** What goes into the encryption is the password and a NUL under the nonce. */
  lemma EncryptsMasked(ctx: Ctx, key: Octets, salt: Octets, draw: nat)
    requires Encrypt(ctx, key, salt, draw).Some?
    ensures exists plain :: Masked(plain, ctx.password + [0], salt) && ctx.rsa(key, plain, draw) == Encrypt(ctx, key, salt, draw)
  {
    var plain := Obfuscate(ctx.password + [0], salt);
    assert Masked(plain, ctx.password + [0], salt);
  }

  /** encryptCachingSHA2Password under the key the server sent. */
  function Encrypt(ctx: Ctx, key: Octets, salt: Octets, draw: nat): Option<Octets>
  {
    if salt == [] then None else ctx.rsa(key, Obfuscate(ctx.password + [0], salt), draw)
  }

  /** The plugin and nonce an AuthSwitchRequest names. */
  function SwitchTo(payload: Octets): Option<(Octets, Octets)>
  {
    var (plugin, p) :- ReadCString(payload, 1);
    Some((plugin, TrimNuls(payload[p..])))
  }

  /** One iteration of mysqlFinishAuth: either the login is decided or the loop goes round. */
  datatype Turn =
    | Stop(events: seq<Event>, ok: bool)
    | Go(events: seq<Event>, script: seq<Frame>, plugin: Octets, salt: Octets)

  function FinishTurn(ctx: Ctx, script: seq<Frame>, plugin: Octets, salt: Octets): (t: Turn)
    ensures t.Go? ==> |t.script| < |script|
  {
    if script == [] then Stop([], false) else
      var f, rest := script[0], script[1..];
      var seen, next := [Got(f)], Packet.Next(f.id);
      if f.payload == [] then Stop(seen, false)
      else if f.payload[0] == OK then Stop(seen, true)
      else if f.payload[0] == ERR then Stop(seen, false)
      else if f.payload[0] == AUTH_SWITCH then
        match SwitchTo(f.payload)
        case None => Stop(seen, false)
        case Some((newPlugin, newSalt)) =>
          match AuthResponse(ctx, newPlugin, newSalt)
          case None => Stop(seen, false)
          case Some(bytes) => Go(seen + [Sent(next, Scrambled(bytes))], rest, newPlugin, newSalt)
      else if f.payload[0] == MORE_DATA && plugin == SHA2 then Sha2More(ctx, f, rest, plugin, salt)
      else Stop(seen, false)
  }

  /** mysqlCachingSHA2More. */
  function Sha2More(ctx: Ctx, f: Frame, rest: seq<Frame>, plugin: Octets, salt: Octets): (t: Turn)
    ensures t.Go? ==> |t.script| <= |rest| && t.plugin == plugin && t.salt == salt
    ensures t.events != [] && t.events[0] == Got(f) && (t.Stop? ==> !t.ok)
  {
    var seen, next := [Got(f)], Packet.Next(f.id);
    if |f.payload| < 2 then Stop(seen, false)
    else if f.payload[1] == FAST_SUCCESS then Go(seen, rest, plugin, salt)
    else if f.payload[1] != FULL_AUTH then Stop(seen, false)
    else if ctx.password == [] then Go(seen + [Sent(next, EmptyPassword)], rest, plugin, salt)
    else if ctx.secure then Go(seen + [Sent(next, Cleartext(ctx.password))], rest, plugin, salt)
    else Sha2Rsa(ctx, seen + [Sent(next, KeyRequest)], rest, plugin, salt)
  }

  /** mysqlCachingSHA2RSA, after the key request. The packets still unread number the draws, so none is used twice. */
  function Sha2Rsa(ctx: Ctx, seen: seq<Event>, rest: seq<Frame>, plugin: Octets, salt: Octets): (t: Turn)
    requires seen != []
    ensures t.Go? ==> |t.script| <= |rest| && t.plugin == plugin && t.salt == salt
    ensures t.events != [] && t.events[0] == seen[0] && (t.Stop? ==> !t.ok)
  {
    if rest == [] then Stop(seen, false) else
      var f := rest[0];
      var log := seen + [Got(f)];
      if f.payload == [] || f.payload[0] != MORE_DATA then Stop(log, false) else
        match Encrypt(ctx, f.payload[1..], salt, |rest|)
        case None => Stop(log, false)
        case Some(bytes) => Go(log + [Sent(Packet.Next(f.id), Encrypted(bytes))], rest[1..], plugin, salt)
  }

  function Then(events: seq<Event>, r: Run): Run {
    Run(events + r.log, r.ok)
  }

  function Finish(ctx: Ctx, script: seq<Frame>, plugin: Octets, salt: Octets): Run
    decreases |script|
  {
    match FinishTurn(ctx, script, plugin, salt)
    case Stop(events, ok) => Run(events, ok)
    case Go(events, rest, plugin', salt') => Then(events, Finish(ctx, rest, plugin', salt'))
  }

  /** AuthenticateUpstreamMySQL: `tls` asks for the in-band upgrade, which `tlsOk` says succeeds. */
  function LoginRun(
    ctx: Ctx, script: seq<Frame>, user: Octets, database: Octets, tls: bool, tlsOk: bool): Run
  {
    if script == [] then Run([], false) else
      var f := script[0];
      var seen := [Got(f)];
      match ParseGreeting(f.payload)
      case None => Run(seen, false)
      case Some(hs) =>
        var plugin := if hs.plugin == [] then NATIVE else hs.plugin;
        UpstreamCapsWord(hs.caps, database != []);
        var caps: UInt32 := UpstreamCaps(hs.caps, database != []);
        if tls && !Bit(hs.caps, SSL) then Run(seen, false) else
          WithSslWord(caps);
          var sent := if tls then [Sent(Packet.Next(f.id), SslRequest(EncodeSslRequest(WithSsl(caps), UTF8MB4)))] else [];
          if tls && !tlsOk then Run(seen + sent, false) else
            var ctx' := ctx.(secure := ctx.secure || tls);
            match AuthResponse(ctx', plugin, hs.salt)
            case None => Run(seen + sent, false)
            case Some(auth) =>
              var id := if tls then Packet.Next(Packet.Next(f.id)) else Packet.Next(f.id);
              var r := Response(if tls then WithSsl(caps) else caps, MAX_PACKET_PAYLOAD, UTF8MB4, user, auth, database, plugin);
              Then(seen + sent + [Sent(id, Login(EncodeResponse(r)))], Finish(ctx', script[1..], plugin, hs.salt))
  }

  function WithSsl(caps: UInt32): nat {
    Or(caps, Flags([SSL]))
  }

  lemma WithSslWord(caps: UInt32)
    ensures WithSsl(caps) < 0x1_0000_0000
  {
    hide Or, Flags;
    PowerOf32();
    FlagsBound([SSL], 32);
    OrBound(caps, Flags([SSL]), 32);
  }

  /** The fixed header of a login, sent alone to ask for TLS. */
  function EncodeSslRequest(caps: UInt32, charset: Byte): (b: Octets)
    ensures |b| == 32
  {
    LE(caps, 4) + LE(MAX_PACKET_PAYLOAD, 4) + [charset] + Zeros(23)
  }

  // -------------------------------------------------------------- the driver

  /** A connection: the server's remaining packets and everything exchanged so far. */
  class Link {
    var script: seq<Frame>
    var log: seq<Event>

    constructor (script: seq<Frame>)
      ensures this.script == script && this.log == []
    {
      this.script, this.log := script, [];
    }

    method Receive() returns (r: Option<Frame>)
      modifies this
      ensures old(script) == [] ==> r == None && script == [] && log == old(log)
      ensures old(script) != [] ==>
                r == Some(old(script)[0]) && script == old(script)[1..] && log == old(log) + [Got(old(script)[0])]
    {
      if script == [] {
        return None;
      }
      r := Some(script[0]);
      log := log + [Got(script[0])];
      script := script[1..];
    }

    method Send(id: Byte, m: Message)
      modifies this`log
      ensures log == old(log) + [Sent(id, m)]
    {
      log := log + [Sent(id, m)];
    }

    /** mysqlCachingSHA2More and mysqlCachingSHA2RSA; `id` is the sequence id the reply must carry. */
    method CachingSha2More(ctx: Ctx, f: Frame, id: Byte, plugin: Octets, salt: Octets) returns (ok: bool)
      requires id == Packet.Next(f.id)
      modifies this
      ensures var t := Sha2More(ctx, f, old(script), plugin, salt);
              && t.events != [] && log == old(log) + t.events[1..]
              && ok == t.Go? && (ok ==> script == t.script && plugin == t.plugin && salt == t.salt)
              && (t.Stop? ==> !t.ok)
    {
      hide Encrypt;
      if |f.payload| < 2 {
        return false;
      }
      if f.payload[1] == FAST_SUCCESS {
        return true;
      }
      if f.payload[1] != FULL_AUTH {
        return false;
      }
      if ctx.password == [] {
        Send(id, EmptyPassword);
        return true;
      }
      if ctx.secure {
        Send(id, Cleartext(ctx.password));
        return true;
      }
      Send(id, KeyRequest);
      var key := Receive();
      if key.None? {
        return false;
      }
      if key.value.payload == [] || key.value.payload[0] != MORE_DATA {
        return false;
      }
      var enc := Encrypt(ctx, key.value.payload[1..], salt, |script| + 1);
      if enc.None? {
        return false;
      }
      Send(Packet.Next(key.value.id), Encrypted(enc.value));
      return true;
    }

    /** mysqlFinishAuth: the loop over `seq`, `plugin` and `salt`. */
    method FinishAuth(ctx: Ctx, plugin0: Octets, salt0: Octets) returns (ok: bool)
      modifies this
      ensures log == old(log) + Finish(ctx, old(script), plugin0, salt0).log
      ensures ok == Finish(ctx, old(script), plugin0, salt0).ok
    {
      hide Sha2More, AuthResponse, SwitchTo;
      var plugin, salt := plugin0, salt0;
      ghost var whole := Finish(ctx, script, plugin, salt);
      while true
        invariant old(log) + whole.log == log + Finish(ctx, script, plugin, salt).log
        invariant whole.ok == Finish(ctx, script, plugin, salt).ok
        decreases |script|
      {
        ghost var before, todo := log, script;
        ghost var turn := FinishTurn(ctx, script, plugin, salt);
        var f := Receive();
        if f.None? {
          return false;
        }
        var id, payload := Packet.Next(f.value.id), f.value.payload;
        if payload == [] {
          return false;
        }
        if payload[0] == OK {
          return true;
        } else if payload[0] == ERR {
          return false;
        } else if payload[0] == AUTH_SWITCH {
          var to := SwitchTo(payload);
          if to.None? {
            return false;
          }
          var auth := AuthResponse(ctx, to.value.0, to.value.1);
          if auth.None? {
            return false;
          }
          plugin, salt := to.value.0, to.value.1;
          Send(id, Scrambled(auth.value));
        } else if payload[0] == MORE_DATA && plugin == SHA2 {
          var more := CachingSha2More(ctx, f.value, id, plugin, salt);
          if !more {
            return false;
          }
        } else {
          return false;
        }
        assert log == before + turn.events;
      }
    }

    /** AuthenticateUpstreamMySQL; `caps` are the capabilities of the login it sent. */
    method Authenticate(ctx: Ctx, user: Octets, database: Octets, tls: bool, tlsOk: bool) returns (ok: bool, caps: UInt32)
      modifies this
      ensures log == old(log) + LoginRun(ctx, old(script), user, database, tls, tlsOk).log
      ensures ok == LoginRun(ctx, old(script), user, database, tls, tlsOk).ok
      ensures ok ==> old(script) != [] && Negotiated(old(script)[0], database, tls) == Some(caps)
    {
      hide ParseGreeting, AuthResponse, UpstreamCaps, WithSsl, EncodeSslRequest, EncodeResponse, Finish;
      caps := 0;
      var f := Receive();
      if f.None? {
        return false, caps;
      }
      var greeting := ParseGreeting(f.value.payload);
      if greeting.None? {
        return false, caps;
      }
      var hs := greeting.value;
      var plugin := if hs.plugin == [] then NATIVE else hs.plugin;
      UpstreamCapsWord(hs.caps, database != []);
      caps := UpstreamCaps(hs.caps, database != []);
      var secure, id := ctx.secure, Packet.Next(f.value.id);
      if tls {
        if !Bit(hs.caps, SSL) {
          return false, caps;
        }
        WithSslWord(caps);
        caps := WithSsl(caps);
        Send(id, SslRequest(EncodeSslRequest(caps, UTF8MB4)));
        id := Packet.Next(id);
        if !tlsOk {
          return false, caps;
        }
        secure := true;
      }
      var secured := ctx.(secure := secure);
      var auth := AuthResponse(secured, plugin, hs.salt);
      if auth.None? {
        return false, caps;
      }
      Send(id, Login(EncodeResponse(Response(caps, MAX_PACKET_PAYLOAD, UTF8MB4, user, auth.value, database, plugin))));
      ok := FinishAuth(secured, plugin, hs.salt);
    }
  }

  /** The capabilities a login after this greeting carries. */
  function Negotiated(greeting: Frame, database: Octets, tls: bool): Option<nat> {
    var hs :- ParseGreeting(greeting.payload);
    var caps := UpstreamCaps(hs.caps, database != []);
    UpstreamCapsWord(hs.caps, database != []);
    Some(if tls then WithSsl(caps) else caps)
  }

  // ------------------------------------------- what holds of every script

  /** What may follow the frame just read, given the plugin and nonce in force after it. */
  ghost predicate MessageOk(ctx: Ctx, plugin: Octets, salt: Octets, payload: Octets, m: Message) {
    match m
    case Scrambled(bytes) =>
      && Payload(m) == bytes && payload != [] && payload[0] == 0xFE
      && AuthResponse(ctx, plugin, salt) == Some(bytes) && Proves(ctx, plugin, salt, bytes)
    case EmptyPassword => Payload(m) == [0] && ctx.password == [] && AsksFullAuth(plugin, payload)
    case Cleartext(_) =>
      && Payload(m) == ctx.password + [0]
      && ctx.password != [] && ctx.secure && AsksFullAuth(plugin, payload)
    case KeyRequest => Payload(m) == [0x02] && ctx.password != [] && !ctx.secure && AsksFullAuth(plugin, payload)
    case Encrypted(bytes) =>
      && Payload(m) == bytes && ctx.password != [] && !ctx.secure && plugin == Ascii("caching_sha2_password")
      && payload != [] && payload[0] == 0x01
      && (exists draw :: Encrypt(ctx, payload[1..], salt, draw) == Some(bytes))
      && (exists draw, plain :: ctx.rsa(payload[1..], plain, draw) == Some(bytes) && Masked(plain, ctx.password + [0], salt))
    case _ => false
  }

  predicate AsksFullAuth(plugin: Octets, payload: Octets) {
    plugin == Ascii("caching_sha2_password") && |payload| >= 2 && payload[0] == 0x01 && payload[1] == 0x04
  }

  /** The plugin and nonce in force after reading a frame: an auth switch replaces both. */
  function Switched(f: Frame, plugin: Octets, salt: Octets): (Octets, Octets) {
    if f.payload != [] && f.payload[0] == AUTH_SWITCH && SwitchTo(f.payload).Some?
    then SwitchTo(f.payload).value else (plugin, salt)
  }

  /**
   * A monitor for login traces. Every message answers the frame read just before it, at most one per
   * frame, carries that frame's sequence id plus one, and is of a kind that frame calls for.
   */
  ghost predicate Lawful(ctx: Ctx, log: seq<Event>, plugin: Octets, salt: Octets, last: Option<Frame>)
    decreases |log|
  {
    log != [] ==>
      match log[0]
      case Got(f) =>
        var (plugin', salt') := Switched(f, plugin, salt);
        Lawful(ctx, log[1..], plugin', salt', Some(f))
      case Sent(id, m) =>
        && last.Some? && id == Packet.Next(last.value.id)
        && MessageOk(ctx, plugin, salt, last.value.payload, m)
        && Lawful(ctx, log[1..], plugin, salt, None)
  }

  lemma LawfulGot(ctx: Ctx, f: Frame, rest: seq<Event>, plugin: Octets, salt: Octets, last: Option<Frame>)
    ensures var (plugin', salt') := Switched(f, plugin, salt);
            Lawful(ctx, [Got(f)] + rest, plugin, salt, last) == Lawful(ctx, rest, plugin', salt', Some(f))
  {
    hide MessageOk, Switched;
    assert ([Got(f)] + rest)[1..] == rest;
  }

  lemma LawfulSent(ctx: Ctx, id: Byte, m: Message, rest: seq<Event>, plugin: Octets, salt: Octets, last: Frame)
    requires id == Packet.Next(last.id) && MessageOk(ctx, plugin, salt, last.payload, m)
    requires Lawful(ctx, rest, plugin, salt, None)
    ensures Lawful(ctx, [Sent(id, m)] + rest, plugin, salt, Some(last))
  {
    hide MessageOk, Switched;
    assert ([Sent(id, m)] + rest)[1..] == rest;
  }

  /** A trace is lawful after a read if it is lawful with nothing read: it just owes no reply. */
  lemma {:induction false} LawfulOwesNothing(ctx: Ctx, log: seq<Event>, plugin: Octets, salt: Octets, f: Frame)
    requires Lawful(ctx, log, plugin, salt, None)
    ensures Lawful(ctx, log, plugin, salt, Some(f))
  {
    hide MessageOk, Switched;
  }

  /** Every login trace, whatever the server sends, passes the monitor. */
  lemma {:induction false} FinishLawful(ctx: Ctx, script: seq<Frame>, plugin: Octets, salt: Octets)
    ensures Lawful(ctx, Finish(ctx, script, plugin, salt).log, plugin, salt, None)
    decreases |script|
  {
    hide Lawful, FinishTurn, MessageOk, Switched;
    var t := FinishTurn(ctx, script, plugin, salt);
    var rest := [];
    if t.Go? {
      rest := Finish(ctx, t.script, t.plugin, t.salt).log;
      FinishLawful(ctx, t.script, t.plugin, t.salt);
    } else {
      LawfulEmpty(ctx, plugin, salt);
    }
    TurnLawful(ctx, script, plugin, salt, rest);
    assert t.Stop? ==> t.events + rest == t.events;
  }

  lemma LawfulEmpty(ctx: Ctx, plugin: Octets, salt: Octets)
    ensures Lawful(ctx, [], plugin, salt, None)
  {
  }

  /** One turn keeps the monitor happy, if what follows it does. */
  lemma TurnLawful(ctx: Ctx, script: seq<Frame>, plugin: Octets, salt: Octets, rest: seq<Event>)
    requires var t := FinishTurn(ctx, script, plugin, salt);
             if t.Go? then Lawful(ctx, rest, t.plugin, t.salt, None) else rest == []
    ensures Lawful(ctx, FinishTurn(ctx, script, plugin, salt).events + rest, plugin, salt, None)
  {
    hide Lawful, MessageOk, Sha2More, AuthResponse, SwitchTo, Switched;
    LawfulEmpty(ctx, plugin, salt);
    if script != [] {
      var f := script[0];
      if f.payload != [] && f.payload[0] == MORE_DATA && plugin == SHA2 {
        MoreLawful(ctx, f, script[1..], salt, rest);
      } else {
        var t := FinishTurn(ctx, script, plugin, salt);
        if t.Go? {
          SwitchLawful(ctx, f, plugin, salt, rest);
          assert t.events + rest == [Got(f)] + ([Sent(Packet.Next(f.id), t.events[1].msg)] + rest);
        } else {
          LoneGot(ctx, f, plugin, salt, None);
          assert t.events + rest == [Got(f)];
        }
      }
    } else {
      assert FinishTurn(ctx, script, plugin, salt).events + rest == [];
    }
  }

  lemma LoneGot(ctx: Ctx, f: Frame, plugin: Octets, salt: Octets, last: Option<Frame>)
    ensures Lawful(ctx, [Got(f)], plugin, salt, last)
  {
    hide MessageOk, Switched;
    assert [Got(f)][1..] == [];
  }

  lemma SwitchLawful(ctx: Ctx, f: Frame, plugin: Octets, salt: Octets, rest: seq<Event>)
    requires f.payload != [] && f.payload[0] == AUTH_SWITCH && SwitchTo(f.payload).Some?
    requires var (p, s) := SwitchTo(f.payload).value; AuthResponse(ctx, p, s).Some? && Lawful(ctx, rest, p, s, None)
    ensures var (p, s) := SwitchTo(f.payload).value;
            Lawful(ctx, [Got(f)] + ([Sent(Packet.Next(f.id), Scrambled(AuthResponse(ctx, p, s).value))] + rest),
                   plugin, salt, None)
  {
    hide Lawful, AuthResponse, SwitchTo, Proves, Known;
    var (p, s) := SwitchTo(f.payload).value;
    ResponseProves(ctx, p, s);
    var m := Scrambled(AuthResponse(ctx, p, s).value);
    LawfulSent(ctx, Packet.Next(f.id), m, rest, p, s, f);
    LawfulGot(ctx, f, [Sent(Packet.Next(f.id), m)] + rest, plugin, salt, None);
  }

  /** A frame that is no auth switch, then one answer to it, then the rest. */
  lemma AnswerLawful(ctx: Ctx, f: Frame, m: Message, plugin: Octets, salt: Octets, rest: seq<Event>, last: Option<Frame>)
    requires f.payload != [] && f.payload[0] == MORE_DATA
    requires MessageOk(ctx, plugin, salt, f.payload, m) && Lawful(ctx, rest, plugin, salt, None)
    ensures Lawful(ctx, [Got(f)] + ([Sent(Packet.Next(f.id), m)] + rest), plugin, salt, last)
  {
    hide Lawful, MessageOk;
    LawfulSent(ctx, Packet.Next(f.id), m, rest, plugin, salt, f);
    LawfulGot(ctx, f, [Sent(Packet.Next(f.id), m)] + rest, plugin, salt, last);
  }

  lemma MoreLawful(ctx: Ctx, f: Frame, script: seq<Frame>, salt: Octets, rest: seq<Event>)
    requires f.payload != [] && f.payload[0] == MORE_DATA
    requires var t := Sha2More(ctx, f, script, SHA2, salt);
             if t.Go? then Lawful(ctx, rest, SHA2, salt, None) else rest == []
    ensures Lawful(ctx, Sha2More(ctx, f, script, SHA2, salt).events + rest, SHA2, salt, None)
  {
    hide Lawful, Encrypt, Sha2Rsa;
    var t := Sha2More(ctx, f, script, SHA2, salt);
    var next := Packet.Next(f.id);
    if |f.payload| >= 2 && f.payload[1] == FULL_AUTH {
      if ctx.password == [] {
        AnswerLawful(ctx, f, EmptyPassword, SHA2, salt, rest, None);
        assert t.events + rest == [Got(f)] + ([Sent(next, EmptyPassword)] + rest);
      } else if ctx.secure {
        AnswerLawful(ctx, f, Cleartext(ctx.password), SHA2, salt, rest, None);
        assert t.events + rest == [Got(f)] + ([Sent(next, Cleartext(ctx.password))] + rest);
      } else {
        RsaLawful(ctx, f, script, salt, rest);
      }
    } else if t.Go? {
      LawfulOwesNothing(ctx, rest, SHA2, salt, f);
      LawfulGot(ctx, f, rest, SHA2, salt, None);
    } else {
      LoneGot(ctx, f, SHA2, salt, None);
      assert t.events + rest == [Got(f)];
    }
  }

  lemma RsaLawful(ctx: Ctx, f: Frame, script: seq<Frame>, salt: Octets, rest: seq<Event>)
    requires AsksFullAuth(SHA2, f.payload) && ctx.password != [] && !ctx.secure
    requires var t := Sha2Rsa(ctx, [Got(f)] + [Sent(Packet.Next(f.id), KeyRequest)], script, SHA2, salt);
             if t.Go? then Lawful(ctx, rest, SHA2, salt, None) else rest == []
    ensures Lawful(ctx, Sha2Rsa(ctx, [Got(f)] + [Sent(Packet.Next(f.id), KeyRequest)], script, SHA2, salt).events + rest,
                   SHA2, salt, None)
  {
    hide Lawful, Encrypt;
    var ask := Sent(Packet.Next(f.id), KeyRequest);
    var t := Sha2Rsa(ctx, [Got(f)] + [ask], script, SHA2, salt);
    var tail := rest;
    if script == [] {
      LawfulEmpty(ctx, SHA2, salt);
    } else {
      var k := script[0];
      if t.Go? {
        var m := t.events[3].msg;
        EncryptsMasked(ctx, k.payload[1..], salt, |script|);
        assert Encrypt(ctx, k.payload[1..], salt, |script|) == Some(m.bytes);
        AnswerLawful(ctx, k, m, SHA2, salt, rest, None);
        tail := [Got(k)] + ([Sent(Packet.Next(k.id), m)] + rest);
      } else {
        LoneGot(ctx, k, SHA2, salt, None);
        tail := [Got(k)];
      }
    }
    AnswerLawful(ctx, f, KeyRequest, SHA2, salt, tail, None);
    assert t.events + rest == [Got(f)] + ([ask] + tail);
  }

  // ---------------------------------------------------------------- outcome

  /** The trace ends with an OK packet read by the login loop, not as the answer to a key request. */
  predicate EndsWithOk(log: seq<Event>) {
    var n := |log|;
    && n >= 1 && log[n - 1].Got? && log[n - 1].frame.payload != [] && log[n - 1].frame.payload[0] == OK
    && !(n >= 2 && log[n - 2].Sent? && log[n - 2].msg.KeyRequest?)
  }

  lemma TurnEnds(ctx: Ctx, script: seq<Frame>, plugin: Octets, salt: Octets)
    ensures var t := FinishTurn(ctx, script, plugin, salt);
            && (t.Stop? ==> (t.ok <==> EndsWithOk(t.events)))
            && (t.Go? ==> !EndsWithOk(t.events) && t.events != [])
            && (t.Go? ==> var e := t.events[|t.events| - 1]; !(e.Sent? && e.msg.KeyRequest?))
  {
    hide AuthResponse, SwitchTo, Encrypt;
  }

  /** Login succeeds exactly when the loop reads an OK packet. */
  lemma {:induction false} FinishSucceeds(ctx: Ctx, script: seq<Frame>, plugin: Octets, salt: Octets)
    ensures var r := Finish(ctx, script, plugin, salt); r.ok <==> EndsWithOk(r.log)
    decreases |script|
  {
    hide FinishTurn;
    TurnEnds(ctx, script, plugin, salt);
    var t := FinishTurn(ctx, script, plugin, salt);
    if t.Go? {
      FinishSucceeds(ctx, t.script, t.plugin, t.salt);
      var r := Finish(ctx, t.script, t.plugin, t.salt);
      if r.log == [] {
        assert t.events + r.log == t.events;
      }
    }
  }

  /** An AuthSwitchRequest: 0xFE, the plugin's name, NUL, the nonce and trailing NULs; without a NUL it is none. */
  lemma SwitchToReads(plugin: Octets, nonce: Octets, zeros: nat)
    requires NulFree(plugin) && (nonce == [] || nonce[|nonce| - 1] != 0)
    ensures SwitchTo([0xFE] + (plugin + [0]) + (nonce + Zeros(zeros))) == Some((plugin, nonce))
    ensures SwitchTo([0xFE] + plugin).None?
  {
    var payload := [0xFE] + (plugin + [0]) + (nonce + Zeros(zeros));
    var p := 1 + |plugin| + 1;
    assert payload[1..p] == plugin + [0];
    ReadCStringAt(payload, 1, plugin);
    assert payload[p..] == nonce + Zeros(zeros);
    TrimZeros(nonce, zeros);
    NoCString([0xFE] + plugin);
  }

  lemma {:induction false} TrimZeros(nonce: Octets, zeros: nat)
    requires nonce == [] || nonce[|nonce| - 1] != 0
    ensures TrimNuls(nonce + Zeros(zeros)) == nonce
  {
    var b := nonce + Zeros(zeros);
    if zeros == 0 {
      assert b == nonce;
    } else {
      TrimZeros(nonce, zeros - 1);
      assert b[..|b| - 1] == nonce + Zeros(zeros - 1);
    }
  }

  lemma NoCString(b: Octets)
    requires |b| >= 1 && NulFree(b[1..])
    ensures ReadCString(b, 1).None?
  {
    assert forall i :: 1 <= i < |b| ==> b[i] == b[1..][i - 1];
  }

  /** The server's packets lead to an OK: auth switches name known plugins, caching_sha2 follow-ups come only under that plugin,
      and where the password must be encrypted the next packet brings a key that works. */
  predicate Leads(ctx: Ctx, script: seq<Frame>, plugin: Octets, salt: Octets)
    decreases |script|
  {
    && script != [] && script[0].payload != []
    && var p, rest := script[0].payload, script[1..];
       if p[0] == 0x00 then true
       else if p[0] == 0xFE then
         && SwitchTo(p).Some? && Known(SwitchTo(p).value.0)
         && Leads(ctx, rest, SwitchTo(p).value.0, SwitchTo(p).value.1)
       else
         && p[0] == 0x01 && plugin == Ascii("caching_sha2_password") && |p| >= 2
         && if p[1] == 0x03 then Leads(ctx, rest, plugin, salt)
            else
              && p[1] == 0x04
              && if ctx.password == [] || ctx.secure then Leads(ctx, rest, plugin, salt)
                 else
                   && rest != [] && rest[0].payload != [] && rest[0].payload[0] == 0x01
                   && Encrypt(ctx, rest[0].payload[1..], salt, |rest|).Some?
                   && Leads(ctx, rest[1..], plugin, salt)
  }

  /** The login succeeds on exactly those scripts. */
  lemma {:induction false} SucceedsIffLeads(ctx: Ctx, script: seq<Frame>, plugin: Octets, salt: Octets)
    ensures Finish(ctx, script, plugin, salt).ok <==> Leads(ctx, script, plugin, salt)
    decreases |script|
  {
    Names();
    hide Known, Encrypt, SwitchTo, AuthResponse, Ascii, SHA2, NATIVE;
    if script != [] && script[0].payload != [] && script[0].payload[0] == 0xFE && SwitchTo(script[0].payload).Some? {
      ResponseProves(ctx, SwitchTo(script[0].payload).value.0, SwitchTo(script[0].payload).value.1);
    }
    var t := FinishTurn(ctx, script, plugin, salt);
    if t.Go? {
      SucceedsIffLeads(ctx, t.script, t.plugin, t.salt);
    }
  }

  /** A packet that must be answered: an auth switch to a known plugin, or a request for the password. */
  predicate Owes(f: Frame, plugin: Octets) {
    || AsksFullAuth(plugin, f.payload)
    || (f.payload != [] && f.payload[0] == 0xFE && SwitchTo(f.payload).Some? && Known(SwitchTo(f.payload).value.0))
  }

  /** A second monitor: what must be answered is answered at once. The packet after a key request is the key. */
  predicate Prompt(log: seq<Event>, plugin: Octets, keyAsked: bool)
    decreases |log|
  {
    log != [] ==>
      match log[0]
      case Got(f) =>
        && (!keyAsked && Owes(f, plugin) ==> |log| >= 2 && log[1].Sent?)
        && Prompt(log[1..], Switched(f, plugin, []).0, false)
      case Sent(_, m) => Prompt(log[1..], plugin, m.KeyRequest?)
  }

  lemma PromptGot(f: Frame, rest: seq<Event>, plugin: Octets, keyAsked: bool)
    requires !keyAsked && Owes(f, plugin) ==> rest != [] && rest[0].Sent?
    requires Prompt(rest, Switched(f, plugin, []).0, false)
    ensures Prompt([Got(f)] + rest, plugin, keyAsked)
  {
    hide Owes, Switched;
    assert ([Got(f)] + rest)[1..] == rest;
  }

  lemma PromptSent(id: Byte, m: Message, rest: seq<Event>, plugin: Octets, keyAsked: bool)
    requires Prompt(rest, plugin, m.KeyRequest?)
    ensures Prompt([Sent(id, m)] + rest, plugin, keyAsked)
  {
    assert ([Sent(id, m)] + rest)[1..] == rest;
  }

  lemma SwitchedPlugin(f: Frame, plugin: Octets)
    requires f.payload == [] || f.payload[0] != 0xFE
    ensures Switched(f, plugin, []).0 == plugin
  {}

  /** One turn answers what it must, if what follows does. */
  lemma TurnPrompt(ctx: Ctx, script: seq<Frame>, plugin: Octets, salt: Octets, rest: seq<Event>)
    requires var t := FinishTurn(ctx, script, plugin, salt);
             if t.Go? then Prompt(rest, t.plugin, false) else rest == []
    ensures Prompt(FinishTurn(ctx, script, plugin, salt).events + rest, plugin, false)
  {
    Names();
    var t := FinishTurn(ctx, script, plugin, salt);
    if script == [] {
      assert t.events + rest == [];
    } else {
      var f := script[0];
      if f.payload != [] && f.payload[0] == 0xFE {
        SwitchPrompt(ctx, script, plugin, salt, rest);
      } else if f.payload != [] && f.payload[0] == 0x01 && plugin == SHA2 {
        MorePrompt(ctx, f, script[1..], salt, rest);
      } else {
        assert t.events + rest == [Got(f)] + [];
        assert !Owes(f, plugin);
        SwitchedPlugin(f, plugin);
        PromptGot(f, [], plugin, false);
      }
    }
  }

  lemma SwitchPrompt(ctx: Ctx, script: seq<Frame>, plugin: Octets, salt: Octets, rest: seq<Event>)
    requires script != [] && script[0].payload != [] && script[0].payload[0] == 0xFE
    requires var t := FinishTurn(ctx, script, plugin, salt);
             if t.Go? then Prompt(rest, t.plugin, false) else rest == []
    ensures Prompt(FinishTurn(ctx, script, plugin, salt).events + rest, plugin, false)
  {
    hide Prompt, AuthResponse, SwitchTo, Known, Proves, Sha2More;
    var f, t := script[0], FinishTurn(ctx, script, plugin, salt);
    if SwitchTo(f.payload).Some? {
      ResponseProves(ctx, SwitchTo(f.payload).value.0, SwitchTo(f.payload).value.1);
    }
    if t.Go? {
      var m := t.events[1].msg;
      PromptSent(Packet.Next(f.id), m, rest, t.plugin, false);
      PromptGot(f, [Sent(Packet.Next(f.id), m)] + rest, plugin, false);
      assert t.events + rest == [Got(f)] + ([Sent(Packet.Next(f.id), m)] + rest);
    } else {
      PromptNothing(Switched(f, plugin, []).0);
      PromptGot(f, [], plugin, false);
      assert t.events + rest == [Got(f)] + [];
    }
  }

  lemma PromptNothing(plugin: Octets)
    ensures Prompt([], plugin, false) && Prompt([], plugin, true)
  {}

  lemma MorePrompt(ctx: Ctx, f: Frame, script: seq<Frame>, salt: Octets, rest: seq<Event>)
    requires f.payload != [] && f.payload[0] == 0x01
    requires var t := Sha2More(ctx, f, script, SHA2, salt);
             if t.Go? then Prompt(rest, SHA2, false) else rest == []
    ensures Prompt(Sha2More(ctx, f, script, SHA2, salt).events + rest, SHA2, false)
  {
    Names();
    hide Prompt, Encrypt, SwitchTo, Known, Ascii;
    var t, next := Sha2More(ctx, f, script, SHA2, salt), Packet.Next(f.id);
    SwitchedPlugin(f, SHA2);
    PromptNothing(SHA2);
    if |t.events| == 1 {
      assert t.events + rest == [Got(f)] + rest;
      PromptGot(f, rest, SHA2, false);
    } else {
      var m := t.events[1].msg;
      var tail := rest;
      if m.KeyRequest? {
        tail := KeyPrompt(ctx, f, script, salt, rest);
      }
      assert t.events + rest == [Got(f)] + ([Sent(next, m)] + tail);
      PromptSent(next, m, tail, SHA2, false);
      PromptGot(f, [Sent(next, m)] + tail, SHA2, false);
    }
  }

  lemma KeyPrompt(ctx: Ctx, f: Frame, script: seq<Frame>, salt: Octets, rest: seq<Event>) returns (tail: seq<Event>)
    requires var t := Sha2Rsa(ctx, [Got(f)] + [Sent(Packet.Next(f.id), KeyRequest)], script, SHA2, salt);
             if t.Go? then Prompt(rest, SHA2, false) else rest == []
    ensures Prompt(tail, SHA2, true)
    ensures Sha2Rsa(ctx, [Got(f)] + [Sent(Packet.Next(f.id), KeyRequest)], script, SHA2, salt).events + rest
         == [Got(f)] + ([Sent(Packet.Next(f.id), KeyRequest)] + tail)
  {
    hide Prompt, Encrypt, SwitchTo, Known;
    var t := Sha2Rsa(ctx, [Got(f)] + [Sent(Packet.Next(f.id), KeyRequest)], script, SHA2, salt);
    if script == [] {
      tail := [];
      PromptNothing(SHA2);
    } else {
      var k := script[0];
      if t.Go? {
        var m := t.events[3].msg;
        tail := [Got(k)] + ([Sent(Packet.Next(k.id), m)] + rest);
        PromptSent(Packet.Next(k.id), m, rest, SHA2, false);
        SwitchedPlugin(k, SHA2);
        PromptGot(k, [Sent(Packet.Next(k.id), m)] + rest, SHA2, true);
      } else {
        tail := [Got(k)] + [];
        PromptNothing(Switched(k, SHA2, []).0);
        PromptGot(k, [], SHA2, true);
      }
    }
  }

  /** Every login trace answers at once what must be answered. */
  lemma {:induction false} FinishPrompt(ctx: Ctx, script: seq<Frame>, plugin: Octets, salt: Octets)
    ensures Prompt(Finish(ctx, script, plugin, salt).log, plugin, false)
    decreases |script|
  {
    hide Prompt, FinishTurn;
    var t := FinishTurn(ctx, script, plugin, salt);
    var rest := [];
    if t.Go? {
      rest := Finish(ctx, t.script, t.plugin, t.salt).log;
      FinishPrompt(ctx, t.script, t.plugin, t.salt);
    }
    TurnPrompt(ctx, script, plugin, salt, rest);
    assert t.Stop? ==> t.events + rest == t.events;
  }

  // --------------------------------------------------------- the password

  /** Two contexts whose passwords cannot be told apart through the hashes and the encryption. */
  ghost predicate Indistinguishable(a: Ctx, b: Ctx) {
    && !a.secure && !b.secure && a.password != [] && b.password != []
    && (forall plugin, salt :: AuthResponse(a, plugin, salt) == AuthResponse(b, plugin, salt))
    && (forall key, salt, draw :: Encrypt(a, key, salt, draw) == Encrypt(b, key, salt, draw))
  }

  /** On an unencrypted link the password reaches the wire only through the hashes and the encryption. */
  lemma {:induction false} PasswordOnlyThroughCrypto(a: Ctx, b: Ctx, script: seq<Frame>, plugin: Octets, salt: Octets)
    requires Indistinguishable(a, b)
    ensures Finish(a, script, plugin, salt) == Finish(b, script, plugin, salt)
    decreases |script|
  {
    hide AuthResponse, Encrypt, SwitchTo;
    var t := FinishTurn(a, script, plugin, salt);
    assert t == FinishTurn(b, script, plugin, salt);
    if t.Go? {
      PasswordOnlyThroughCrypto(a, b, t.script, t.plugin, t.salt);
    }
  }

  /** Bytes that carry the password at most through a hash or the encryption. */
  ghost predicate Concealed(ctx: Ctx, bytes: Octets) {
    || (exists plugin, salt :: AuthResponse(ctx, plugin, salt) == Some(bytes))
    || bytes == [0x02]
    || (exists key, salt, draw :: Encrypt(ctx, key, salt, draw) == Some(bytes))
  }

  /** On the wire: every payload the login loop writes on an unencrypted link is a scramble, the key request or a ciphertext. */
  lemma {:induction false} LawfulConceals(
    ctx: Ctx, log: seq<Event>, plugin: Octets, salt: Octets, last: Option<Frame>, i: nat)
    requires Lawful(ctx, log, plugin, salt, last) && !ctx.secure && ctx.password != []
    requires i < |log| && log[i].Sent?
    ensures Concealed(ctx, Payload(log[i].msg))
    decreases |log|
  {
    hide AuthResponse, Encrypt, Switched;
    if i > 0 {
      var next := log[1..];
      match log[0]
      case Got(f) =>
        var (p, s) := Switched(f, plugin, salt);
        LawfulConceals(ctx, next, p, s, Some(f), i - 1);
      case Sent(id, m) =>
        LawfulConceals(ctx, next, plugin, salt, None, i - 1);
    }
  }

  /** The whole login, greeting included, with no TLS upgrade. */
  lemma LoginHidesPassword(a: Ctx, b: Ctx, script: seq<Frame>, user: Octets, database: Octets)
    requires Indistinguishable(a, b)
    ensures LoginRun(a, script, user, database, false, true) == LoginRun(b, script, user, database, false, true)
  {
    hide AuthResponse, Encrypt, Finish, ParseGreeting, EncodeResponse, UpstreamCaps, WithSsl;
    if script != [] {
      var hs := ParseGreeting(script[0].payload);
      assert a.(secure := false) == a && b.(secure := false) == b;
      if hs.Some? {
        var plugin := if hs.value.plugin == [] then NATIVE else hs.value.plugin;
        PasswordOnlyThroughCrypto(a, b, script[1..], plugin, hs.value.salt);
      }
    }
  }
}
