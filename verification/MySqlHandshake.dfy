/** MySQL handshake packets: length-encoded integers, HandshakeV10, HandshakeResponse41, capabilities. */
module MySqlHandshake {
  import opened Octets
  import opened Bits

  const LONG_PASSWORD := 0
  const LONG_FLAG := 2
  const CONNECT_WITH_DB := 3
  const PROTOCOL_41 := 9
  const SSL := 11
  const TRANSACTIONS := 13
  const SECURE_CONNECTION := 15
  const PLUGIN_AUTH := 19
  const LENENC_CLIENT_DATA := 21
  const DEPRECATE_EOF := 24

  const PROTOCOL_VERSION_10: Byte := 0x0A
  const MAX_PACKET_PAYLOAD: UInt32 := 0xFF_FFFF

  // ------------------------------------------------- length-encoded integers

  function AppendLenencInt(b: Octets, i: UInt64): Octets
  {
    if i < 0xFB then b + [i]
    else if i <= 0xFFFF then b + [0xFC] + LE(i, 2)
    else if i <= 0xFF_FFFF then b + [0xFD] + LE(i, 3)
    else b + [0xFE] + LE(i, 8)
  }

  function WordAt(b: Octets, pos: nat, k: nat): (n: nat)
    requires pos + k <= |b|
    ensures n < Pow256(k)
  {
    EncodeDecodeLE(b[pos..pos + k]);
    FromLE(b[pos..pos + k])
  }

  function ReadLenencInt(b: Octets, pos: nat): (r: Option<(UInt64, nat)>)
    ensures r.Some? ==> pos < r.value.1 <= |b|
  {
    Powers();
    if pos >= |b| then None else
      var first := b[pos];
      if first < 0xFB then Some((first, pos + 1))
      else if first == 0xFC then
        if pos + 3 > |b| then None else Some((WordAt(b, pos + 1, 2), pos + 3))
      else if first == 0xFD then
        if pos + 4 > |b| then None else Some((WordAt(b, pos + 1, 3), pos + 4))
      else if first == 0xFE then
        if pos + 9 > |b| then None else Some((WordAt(b, pos + 1, 8), pos + 9))
      else None
  }

  lemma WordReadBack(b: Octets, pos: nat, n: nat, k: nat)
    requires pos + k <= |b| && n < Pow256(k) && b[pos..pos + k] == LE(n, k)
    ensures WordAt(b, pos, k) == n
  {
    DecodeEncodeLE(n, k);
  }

  /** Every 64-bit value is read back from where it was appended, whatever surrounds it. */
  lemma LenencRoundTrip(b: Octets, i: UInt64, rest: Octets)
    ensures ReadLenencInt(AppendLenencInt(b, i) + rest, |b|) == Some((i, |AppendLenencInt(b, i)|))
  {
    hide LE, WordAt;
    Powers();
    var out := AppendLenencInt(b, i);
    var s := out + rest;
    var p := |b| + 1;
    if 0xFB <= i <= 0xFFFF {
      assert s[p..p + 2] == LE(i, 2);
      WordReadBack(s, p, i, 2);
    } else if 0xFFFF < i <= 0xFF_FFFF {
      assert s[p..p + 3] == LE(i, 3);
      WordReadBack(s, p, i, 3);
    } else if i > 0xFF_FFFF {
      assert s[p..p + 8] == LE(i, 8);
      WordReadBack(s, p, i, 8);
    }
  }

  // ------------------------------------------------------------ HandshakeV10

  datatype Greeting = Greeting(
    version: Octets, connectionId: UInt32, salt: Octets, caps: UInt32, charset: Byte,
    status: nat, plugin: Octets)

  /** bytes.TrimRight(b, "\x00"). */
  function TrimNuls(b: Octets): (r: Octets)
    ensures r <= b
    ensures r != [] ==> r[|r| - 1] != 0
  {
    if b != [] && b[|b| - 1] == 0 then TrimNuls(b[..|b| - 1]) else b
  }

  function Zeros(n: nat): (z: Octets)
    ensures |z| == n
  {
    seq(n, _ => 0)
  }

  function Padded(salt: Octets): (s: Octets)
    ensures |s| >= 20
  {
    if |salt| < 20 then salt + Zeros(20 - |salt|) else salt
  }

  /** Connection id, salt part 1, filler, capabilities, charset, status, auth length, reserved bytes. */
  function FixedBytes(
    id: UInt32, part1: Octets, low: nat, charset: Byte, status: nat, high: nat, authLen: Byte, after: Octets)
    : Octets
  {
    LE(id, 4) + (part1 + ([0] + (LE(low, 2) + ([charset] + (LE(status, 2) + (LE(high, 2)
    + ([authLen] + (Zeros(10) + after))))))))
  }

  function EncodeGreeting(g: Greeting): Octets
  {
    var salt := Padded(g.salt);
    var plugged := Bit(g.caps, PLUGIN_AUTH);
    var part2 := salt[8..20] + [0] + if plugged then g.plugin + [0] else [];
    [PROTOCOL_VERSION_10] + ((g.version + [0])
    + FixedBytes(g.connectionId, salt[..8], g.caps % 0x1_0000, g.charset, g.status, g.caps / 0x1_0000,
                 if plugged then 21 else 0, part2))
  }

  /** The fixed-position fields after the version string; short handshakes may stop early. */
  function ParseFixed(b: Octets, pos: nat): (r: Option<(UInt32, Octets, UInt32, Byte, nat, Byte, nat)>)
    ensures r.Some? ==> |r.value.1| == 8 && r.value.6 <= |b|
  {
    Powers();
    if pos + 15 > |b| then None else
      var connectionId := WordAt(b, pos, 4);
      var part1 := b[pos + 4..pos + 12];
      var low := WordAt(b, pos + 13, 2);
      var p := pos + 15;
      var (charset, p1) := if p < |b| then (b[p], p + 1) else (0, p);
      var (status, p2) := if p1 + 2 <= |b| then (WordAt(b, p1, 2), p1 + 2) else (0, p1);
      var (high, p3) := if p2 + 2 <= |b| then (WordAt(b, p2, 2), p2 + 2) else (0, p2);
      var (authLen, p4) := if p3 < |b| then (b[p3], p3 + 1) else (0, p3);
      var p5 := if p4 + 10 <= |b| then p4 + 10 else p4;
      Some((connectionId, part1, low + high * 0x1_0000, charset, status, authLen, p5))
  }

  /** The second half of the salt: at least 13 bytes, or what is left, without trailing NULs. */
  function Part2Length(b: Octets, pos: nat, authLen: Byte): (n: nat)
    requires pos <= |b|
    ensures pos + n <= |b|
  {
    var want: int := if authLen - 8 > 13 then authLen - 8 else 13;
    if pos + want > |b| then |b| - pos else want
  }

  function ParseGreeting(b: Octets): Option<Greeting>
  {
    if b == [] || b[0] != PROTOCOL_VERSION_10 then None else
      var (version, pos) :- ReadCString(b, 1);
      var (connectionId, part1, caps, charset, status, authLen, p) :- ParseFixed(b, pos);
      var n := if Bit(caps, SECURE_CONNECTION) then Part2Length(b, p, authLen) else 0;
      var salt := part1 + TrimNuls(b[p..p + n]);
      Some(Greeting(version, connectionId, salt, caps, charset, status, ParsePluginName(b, p + n, caps)))
  }

  function ParsePluginName(b: Octets, pos: nat, caps: UInt32): Octets
    requires pos <= |b|
  {
    if !Bit(caps, PLUGIN_AUTH) || pos >= |b| then []
    else match ReadCString(b, pos)
         case Some((name, _)) => name
         case None => TrimNuls(b[pos..])
  }

  lemma FixedFields(
    b: Octets, pos: nat, id: UInt32, part1: Octets, low: nat, charset: Byte, status: nat, high: nat,
    authLen: Byte, after: Octets)
    requires |part1| == 8 && low < 0x1_0000 && status < 0x1_0000 && high < 0x1_0000 && pos <= |b|
    requires b[pos..] == FixedBytes(id, part1, low, charset, status, high, authLen, after)
    ensures |b| == pos + 31 + |after|
    ensures ParseFixed(b, pos)
         == Some((id, part1, low + high * 0x1_0000, charset, status, authLen, pos + 31))
    ensures b[pos + 31..] == after
  {
    hide LE, WordAt, Zeros, ParseFixed;
    Powers();
    var t8 := [authLen] + (Zeros(10) + after);
    var t7 := LE(high, 2) + t8;
    var t6 := LE(status, 2) + t7;
    var t5 := [charset] + t6;
    var t4 := LE(low, 2) + t5;
    var t3 := [0] + t4;
    Peel(b, pos, LE(id, 4), part1 + t3);
    WordReadBack(b, pos, id, 4);
    Peel(b, pos + 4, part1, t3);
    Peel(b, pos + 12, [0], t4);
    Peel(b, pos + 13, LE(low, 2), t5);
    WordReadBack(b, pos + 13, low, 2);
    Peel(b, pos + 15, [charset], t6);
    Peel(b, pos + 16, LE(status, 2), t7);
    WordReadBack(b, pos + 16, status, 2);
    Peel(b, pos + 18, LE(high, 2), t8);
    WordReadBack(b, pos + 18, high, 2);
    Peel(b, pos + 20, [authLen], Zeros(10) + after);
    Peel(b, pos + 21, Zeros(10), after);
    FullHandshake(b, pos);
  }

  /** With all fields present, none of the early-stop defaults applies. */
  lemma FullHandshake(b: Octets, pos: nat)
    requires pos + 31 <= |b|
    ensures ParseFixed(b, pos)
         == Some((WordAt(b, pos, 4), b[pos + 4..pos + 12], WordAt(b, pos + 13, 2) + WordAt(b, pos + 18, 2) * 0x1_0000,
                  b[pos + 15], WordAt(b, pos + 16, 2), b[pos + 20], pos + 31))
  {
    hide WordAt;
  }

  lemma {:induction false} TrimOne(s: Octets)
    ensures TrimNuls(s + [0]) == TrimNuls(s)
    ensures s != [] ==> (TrimNuls(s) == s <==> s[|s| - 1] != 0)
  {
    assert (s + [0])[..|s|] == s;
  }

  /** Where each part of an encoded greeting sits. */
  lemma GreetingBytes(g: Greeting, low: nat, high: nat, authLen: Byte, after: Octets)
    requires |g.salt| == 20 && g.status < 0x1_0000 && low == g.caps % 0x1_0000 && high == g.caps / 0x1_0000
    requires authLen == if Bit(g.caps, PLUGIN_AUTH) then 21 else 0
    requires after == g.salt[8..20] + [0] + if Bit(g.caps, PLUGIN_AUTH) then g.plugin + [0] else []
    ensures EncodeGreeting(g)
         == [0x0A]
            + ((g.version + [0]) + FixedBytes(g.connectionId, g.salt[..8], low, g.charset, g.status, high, authLen, after))
  {
    hide LE, Zeros, Bit;
  }

  /** The parser's stages put together. */
  lemma Assemble(
    b: Octets, version: Octets, pos: nat, id: UInt32, part1: Octets, caps: UInt32, charset: Byte, status: nat,
    authLen: Byte, p: nat, n: nat)
    requires b != [] && b[0] == 0x0A && p + n <= |b|
    requires ReadCString(b, 1) == Some((version, pos))
    requires ParseFixed(b, pos) == Some((id, part1, caps, charset, status, authLen, p))
    requires Bit(caps, 15) && n == Part2Length(b, p, authLen)
    ensures ParseGreeting(b) == Some(Greeting(version, id, part1 + TrimNuls(b[p..p + n]), caps, charset, status,
                                              ParsePluginName(b, p + n, caps)))
  {
    hide Bit, ParseFixed, ReadCString, TrimNuls, ParsePluginName, Part2Length;
  }

  lemma PluginNameAt(b: Octets, pos: nat, caps: UInt32, plugin: Octets)
    requires pos <= |b| && NulFree(plugin)
    requires b[pos..] == if Bit(caps, 19) then plugin + [0] else []
    ensures ParsePluginName(b, pos, caps) == if Bit(caps, 19) then plugin else []
  {
    hide Bit, ReadCString;
    if Bit(caps, 19) {
      assert b[pos..pos + |plugin| + 1] == b[pos..];
      ReadCStringAt(b, pos, plugin);
    }
  }

  /**
   * A full server greeting: the second half of the salt fills the announced length, less the eight bytes before it,
   * but never fewer than thirteen, and loses its trailing NULs.
   */
  lemma GreetingReads(
    b: Octets, version: Octets, id: UInt32, part1: Octets, caps: UInt32, charset: Byte, status: nat, authLen: Byte,
    part2: Octets, plugin: Octets)
    requires NulFree(version) && NulFree(plugin) && |part1| == 8 && status < 0x1_0000 && Bit(caps, 15)
    requires |part2| == if authLen > 21 then authLen - 8 else 13
    requires b == [0x0A] + ((version + [0])
                  + FixedBytes(id, part1, caps % 0x1_0000, charset, status, caps / 0x1_0000, authLen,
                               part2 + if Bit(caps, 19) then plugin + [0] else []))
    ensures ParseGreeting(b) == Some(Greeting(version, id, part1 + TrimNuls(part2), caps, charset, status,
                                              if Bit(caps, 19) then plugin else []))
  {
    hide *;
    var pos := 1 + |version| + 1;
    var p, n := pos + 31, |part2|;
    var low, high := caps % 0x1_0000, caps / 0x1_0000;
    var name := if Bit(caps, 19) then plugin + [0] else [];
    assert low + high * 0x1_0000 == caps;
    StartsWith(b, version + [0], FixedBytes(id, part1, low, charset, status, high, authLen, part2 + name));
    ReadCStringAt(b, 1, version);
    FixedFields(b, pos, id, part1, low, charset, status, high, authLen, part2 + name);
    Peel(b, p, part2, name);
    Part2Fits(b, p, authLen);
    Assemble(b, version, pos, id, part1, caps, charset, status, authLen, p, n);
    PluginNameAt(b, p + n, caps, plugin);
  }

  lemma Part2Fits(b: Octets, p: nat, authLen: Byte)
    requires p + (if authLen > 21 then authLen - 8 else 13) <= |b|
    ensures Part2Length(b, p, authLen) == if authLen > 21 then authLen - 8 else 13
  {
  }

  /**
   * The greeting read back: every field survives, and the salt comes back as its first eight bytes
   * plus the rest without trailing NULs.
   */
  lemma GreetingRoundTrip(g: Greeting)
    requires NulFree(g.version) && NulFree(g.plugin) && |g.salt| == 20 && g.status < 0x1_0000
    requires Bit(g.caps, SECURE_CONNECTION)
    ensures ParseGreeting(EncodeGreeting(g)) ==
            Some(g.(salt := g.salt[..8] + TrimNuls(g.salt[8..]),
                    plugin := if Bit(g.caps, PLUGIN_AUTH) then g.plugin else []))
  {
    hide Bit, FixedBytes, ParseGreeting, EncodeGreeting, TrimNuls, ParseFixed, ReadCString, Part2Length, ParsePluginName;
    var b := EncodeGreeting(g);
    var authLen := if Bit(g.caps, PLUGIN_AUTH) then 21 else 0;
    var part2 := g.salt[8..20] + [0];
    GreetingBytes(g, g.caps % 0x1_0000, g.caps / 0x1_0000, authLen,
                  part2 + if Bit(g.caps, PLUGIN_AUTH) then g.plugin + [0] else []);
    GreetingReads(b, g.version, g.connectionId, g.salt[..8], g.caps, g.charset, g.status, authLen, part2, g.plugin);
    TrimOne(g.salt[8..]);
    assert g.salt[8..20] == g.salt[8..];
  }

  /** The salt survives the greeting exactly when it does not end in a NUL. */
  lemma SaltSurvives(g: Greeting)
    requires NulFree(g.version) && NulFree(g.plugin) && |g.salt| == 20 && g.status < 0x1_0000
    requires Bit(g.caps, SECURE_CONNECTION)
    ensures ParseGreeting(EncodeGreeting(g)).Some?
    ensures ParseGreeting(EncodeGreeting(g)).value.salt == g.salt <==> g.salt[19] != 0
  {
    hide Bit, ParseGreeting, EncodeGreeting, TrimNuls;
    GreetingRoundTrip(g);
    var tail := g.salt[8..];
    TrimOne(tail);
    var back := ParseGreeting(EncodeGreeting(g)).value.salt;
    assert g.salt == g.salt[..8] + tail;
    assert back == g.salt[..8] + TrimNuls(tail);
    assert back[8..] == TrimNuls(tail) && g.salt[8..] == tail;
  }

  /** newMySQLSalt's loop: NULs are replaced in place, so no byte of the salt can be trimmed. */
  method NormaliseSalt(salt: array<Byte>)
    modifies salt
    ensures forall i :: 0 <= i < salt.Length ==> salt[i] != 0
    ensures forall i :: 0 <= i < salt.Length ==> salt[i] == if old(salt[i]) == 0 then 1 else old(salt[i])
  {
    for i := 0 to salt.Length
      invariant forall j :: 0 <= j < i ==> salt[j] == if old(salt[j]) == 0 then 1 else old(salt[j])
      invariant forall j :: i <= j < salt.Length ==> salt[j] == old(salt[j])
    {
      if salt[i] == 0 {
        salt[i] := 1;
      }
    }
  }

  // ----------------------------------------------------- HandshakeResponse41

  datatype Response = Response(
    caps: UInt32, maxPacket: UInt32, charset: Byte, user: Octets, auth: Octets, database: Octets, plugin: Octets)

  function EncodeResponse(r: Response): Octets
  {
    LE(r.caps, 4) + LE(MAX_PACKET_PAYLOAD, 4) + [r.charset] + Zeros(23) + (r.user + [0])
    + ([|r.auth| % 256] + r.auth)
    + (if Bit(r.caps, CONNECT_WITH_DB) then r.database + [0] else [])
    + (if Bit(r.caps, PLUGIN_AUTH) then r.plugin + [0] else [])
  }

  /** A Go slice expression may fail at run time; that is neither a value nor an error. */
  datatype Parsed<+T> = Done(value: T) | Error | Panic

  /** Go's 64-bit `int(n)` and `pos + int(n)`. */
  function GoSum(pos: nat, n: UInt64): Int64
    requires pos < 0x8000_0000_0000_0000
  {
    ToInt64((pos + n) % 0x1_0000_0000_0000_0000)
  }

  /** The auth response in whichever of three encodings the capabilities select. */
  function ParseAuth(b: Octets, pos: nat, caps: UInt32): (r: Parsed<(Octets, nat)>)
    requires pos <= |b| < 0x8000_0000_0000_0000
    ensures r.Done? ==> pos <= r.value.1 <= |b|
  {
    if Bit(caps, LENENC_CLIENT_DATA) then
      match ReadLenencInt(b, pos)
      case None => Error
      case Some((n, p)) =>
        var end := GoSum(p, n);
        if end > |b| then Error
        else if end < p then Panic
        else Done((b[p..end], end))
    else if Bit(caps, SECURE_CONNECTION) then
      if pos >= |b| then Error else
        var end := pos + 1 + b[pos] as int;
        if end > |b| then Error else Done((b[pos + 1..end], end))
    else
      match ReadCString(b, pos)
      case None => Error
      case Some((s, p)) => Done((s, p))
  }

  function ParseTail(b: Octets, pos: nat, r: Response): Parsed<Response>
    requires pos <= |b|
  {
    if Bit(r.caps, CONNECT_WITH_DB) then
      match ReadCString(b, pos)
      case None => Error
      case Some((db, p)) => Done(r.(database := db, plugin := ResponsePlugin(b, p, r.caps)))
    else Done(r.(plugin := ResponsePlugin(b, pos, r.caps)))
  }

  function ResponsePlugin(b: Octets, pos: nat, caps: UInt32): Octets
  {
    if !Bit(caps, PLUGIN_AUTH) then []
    else match ReadCString(b, pos)
         case Some((name, _)) => name
         case None => []
  }

  function ParseResponse(b: Octets): Parsed<Response>
    requires |b| < 0x8000_0000_0000_0000
  {
    Powers();
    if |b| < 32 then Error else
      var caps := WordAt(b, 0, 4);
      if !Bit(caps, PROTOCOL_41) then Error else
        match ReadCString(b, 32)
        case None => Error
        case Some((user, pos)) =>
          match ParseAuth(b, pos, caps)
          case Error => Error
          case Panic => Panic
          case Done((auth, p)) => ParseTail(b, p, Response(caps, WordAt(b, 4, 4), b[8], user, auth, [], []))
  }

  /** The slice behind the length-encoded branch is in range unless pos + n leaves the 63-bit range. */
  lemma AuthPanics(b: Octets, pos: nat, caps: UInt32)
    requires pos <= |b| < 0x8000_0000_0000_0000
    ensures ParseAuth(b, pos, caps).Panic? <==>
            && Bit(caps, LENENC_CLIENT_DATA)
            && ReadLenencInt(b, pos).Some?
            && ReadLenencInt(b, pos).value.1 + ReadLenencInt(b, pos).value.0 >= 0x8000_0000_0000_0000
  {
    hide Bit, ReadLenencInt, ReadCString;
  }

  /** Exactly the responses on which the parser fails at run time: an announced auth length whose end leaves the 63-bit range. */
  lemma ResponsePanics(b: Octets)
    requires |b| < 0x8000_0000_0000_0000
    ensures ParseResponse(b).Panic? <==>
            && |b| >= 32 && Bit(WordAt(b, 0, 4), PROTOCOL_41) && Bit(WordAt(b, 0, 4), LENENC_CLIENT_DATA)
            && ReadCString(b, 32).Some?
            && var pos := ReadCString(b, 32).value.1;
               && ReadLenencInt(b, pos).Some?
               && ReadLenencInt(b, pos).value.1 + ReadLenencInt(b, pos).value.0 >= 0x8000_0000_0000_0000
  {
    hide Bit, ReadLenencInt, WordAt, ParseAuth, ParseTail;
    if |b| >= 32 && ReadCString(b, 32).Some? {
      AuthPanics(b, ReadCString(b, 32).value.1, WordAt(b, 0, 4));
      TailNeverPanics(b);
    }
  }

  lemma TailNeverPanics(b: Octets)
    ensures forall p: nat, r: Response :: p <= |b| ==> !ParseTail(b, p, r).Panic?
  {
    hide Bit, ReadCString, ResponsePlugin;
  }

  /** Such responses: the two capabilities, an empty user name, and any length from 2^63 on. */
  lemma ResponseThatPanics(n: UInt64)
    requires n >= 0x8000_0000_0000_0000
    ensures var caps := Flags([PROTOCOL_41, LENENC_CLIENT_DATA]);
            var b := AppendLenencInt(LE(caps, 4) + (Zeros(28) + [0]), n);
            |b| < 0x8000_0000_0000_0000 && ParseResponse(b).Panic?
  {
    hide Bit, LE, WordAt, ParseResponse, Flags, Zeros, ReadLenencInt, ReadCString;
    var caps := Flags([PROTOCOL_41, LENENC_CLIENT_DATA]);
    FlagBits([PROTOCOL_41, LENENC_CLIENT_DATA], PROTOCOL_41);
    FlagBits([PROTOCOL_41, LENENC_CLIENT_DATA], LENENC_CLIENT_DATA);
    PowerOf32();
    FlagsBound([PROTOCOL_41, LENENC_CLIENT_DATA], 32);
    var head := LE(caps, 4) + (Zeros(28) + [0]);
    var b := AppendLenencInt(head, n);
    LenencRoundTrip(head, n, []);
    assert b + [] == b;
    Powers();
    assert b[0..4] == LE(caps, 4);
    WordReadBack(b, 0, caps, 4);
    assert b[32..33] == [] + [0];
    ReadCStringAt(b, 32, []);
    ResponsePanics(b);
  }

  predicate AuthFits(caps: UInt32, auth: Octets) {
    if Bit(caps, LENENC_CLIENT_DATA) then |auth| < 0xFB
    else Bit(caps, SECURE_CONNECTION) && |auth| < 256
  }

  lemma AuthReadBack(b: Octets, pos: nat, caps: UInt32, auth: Octets, end: nat)
    requires pos <= |b| < 0x8000_0000_0000_0000 && AuthFits(caps, auth) && end == pos + 1 + |auth| <= |b|
    requires b[pos..end] == [|auth|] + auth
    ensures ParseAuth(b, pos, caps) == Done((auth, end))
  {
    hide Bit;
    assert b[pos] == b[pos..end][0] == |auth|;
    assert b[pos + 1..end] == b[pos..end][1..] == auth;
  }

  predicate Sendable(r: Response) {
    && Bit(r.caps, PROTOCOL_41) && AuthFits(r.caps, r.auth)
    && NulFree(r.user) && NulFree(r.database) && NulFree(r.plugin)
  }

  /** The fields a login carries: those its capabilities announce. */
  function Carried(r: Response): Response {
    r.(maxPacket := MAX_PACKET_PAYLOAD,
       database := if Bit(r.caps, CONNECT_WITH_DB) then r.database else [],
       plugin := if Bit(r.caps, PLUGIN_AUTH) then r.plugin else [])
  }

  lemma TailReadBack(b: Octets, pos: nat, r: Response, s: Response)
    requires pos <= |b| && NulFree(r.database) && NulFree(r.plugin) && s.caps == r.caps
    requires s.database == s.plugin == []
    requires b[pos..] == (if Bit(r.caps, CONNECT_WITH_DB) then r.database + [0] else [])
                       + (if Bit(r.caps, PLUGIN_AUTH) then r.plugin + [0] else [])
    ensures ParseTail(b, pos, s) == Done(s.(database := Carried(r).database, plugin := Carried(r).plugin))
  {
    hide Bit, ReadCString, ResponsePlugin;
    var db := if Bit(r.caps, CONNECT_WITH_DB) then r.database + [0] else [];
    var name := if Bit(r.caps, PLUGIN_AUTH) then r.plugin + [0] else [];
    Peel(b, pos, db, name);
    if Bit(r.caps, CONNECT_WITH_DB) {
      ReadCStringAt(b, pos, r.database);
    }
    PluginReadBack(b, pos + |db|, r.caps, r.plugin);
  }

  lemma PluginReadBack(b: Octets, pos: nat, caps: UInt32, plugin: Octets)
    requires pos <= |b| && NulFree(plugin)
    requires b[pos..] == if Bit(caps, PLUGIN_AUTH) then plugin + [0] else []
    ensures ResponsePlugin(b, pos, caps) == if Bit(caps, PLUGIN_AUTH) then plugin else []
  {
    hide Bit, ReadCString;
    if Bit(caps, PLUGIN_AUTH) {
      assert b[pos..pos + |plugin| + 1] == b[pos..];
      ReadCStringAt(b, pos, plugin);
    }
  }

  /** The fields a login announces by capability bits. */
  function Optional(r: Response): Octets {
    (if Bit(r.caps, CONNECT_WITH_DB) then r.database + [0] else [])
    + (if Bit(r.caps, PLUGIN_AUTH) then r.plugin + [0] else [])
  }

  lemma ResponseBytes(r: Response)
    requires |r.auth| < 256
    ensures EncodeResponse(r)
         == LE(r.caps, 4)
            + (LE(MAX_PACKET_PAYLOAD, 4) + ([r.charset] + (Zeros(23) + ((r.user + [0]) + (([|r.auth|] + r.auth) + Optional(r))))))
  {
    hide LE, Zeros, Bit;
  }

  /** Where the fields of a login sit. */
  lemma ResponseFields(r: Response, pos: nat, end: nat)
    requires |r.auth| < 256 && pos == 32 + |r.user| + 1 && end == pos + 1 + |r.auth|
    ensures var b := EncodeResponse(r);
            && |b| == end + |Optional(r)|
            && b[0..4] == LE(r.caps, 4) && b[4..8] == LE(MAX_PACKET_PAYLOAD, 4) && b[8] == r.charset
            && b[32..pos] == r.user + [0] && b[pos..end] == [|r.auth|] + r.auth && b[end..] == Optional(r)
  {
    ResponseBytes(r);
    hide *;
    var b := EncodeResponse(r);
    var auth := [|r.auth|] + r.auth;
    HeadFields(b, LE(r.caps, 4), LE(MAX_PACKET_PAYLOAD, 4), r.charset, Zeros(23), (r.user + [0]) + (auth + Optional(r)));
    Peel(b, 32, r.user + [0], auth + Optional(r));
    Peel(b, pos, auth, Optional(r));
  }

  lemma HeadFields(b: Octets, caps: Octets, max: Octets, charset: Byte, zeros: Octets, rest: Octets)
    requires |caps| == |max| == 4 && |zeros| == 23 && b == caps + (max + ([charset] + (zeros + rest)))
    ensures |b| == 32 + |rest|
    ensures b[0..4] == caps && b[4..8] == max && b[8] == charset && b[32..] == rest
  {
    assert b[0..] == b;
    Peel(b, 0, caps, max + ([charset] + (zeros + rest)));
    Peel(b, 4, max, [charset] + (zeros + rest));
    Peel(b, 8, [charset], zeros + rest);
    Peel(b, 9, zeros, rest);
  }

  /** Every login whose auth fits its length byte is read back field for field. */
  lemma ResponseRoundTrip(r: Response)
    requires Sendable(r) && |EncodeResponse(r)| < 0x8000_0000_0000_0000
    ensures ParseResponse(EncodeResponse(r)) == Done(Carried(r))
  {
    hide LE, WordAt, Zeros, Bit, ParseAuth, ParseTail, ReadCString, Pow256, EncodeResponse;
    Powers();
    var b := EncodeResponse(r);
    var pos := 32 + |r.user| + 1;
    var end := pos + 1 + |r.auth|;
    ResponseFields(r, pos, end);
    WordReadBack(b, 0, r.caps, 4);
    WordReadBack(b, 4, MAX_PACKET_PAYLOAD, 4);
    ReadCStringAt(b, 32, r.user);
    AuthReadBack(b, pos, r.caps, r.auth, end);
    TailReadBack(b, end, r, Response(r.caps, MAX_PACKET_PAYLOAD, r.charset, r.user, r.auth, [], []));
  }

  // ------------------------------------------------------------ capabilities

  const DESIRED_BITS: seq<nat> :=
    [LONG_PASSWORD, LONG_FLAG, PROTOCOL_41, TRANSACTIONS, SECURE_CONNECTION, PLUGIN_AUTH,
     LENENC_CLIENT_DATA, DEPRECATE_EOF]

  const MANDATORY_BITS: seq<nat> := [PROTOCOL_41, SECURE_CONNECTION, PLUGIN_AUTH]

  /** What the proxy offers a connecting client. */
  const PROXY_BITS: seq<nat> :=
    [LONG_PASSWORD, LONG_FLAG, PROTOCOL_41, TRANSACTIONS, SECURE_CONNECTION, PLUGIN_AUTH,
     LENENC_CLIENT_DATA, CONNECT_WITH_DB, DEPRECATE_EOF]

  function UpstreamCaps(server: UInt32, withDB: bool): nat
  {
    var caps := Or(And(Flags(DESIRED_BITS), server), Flags(MANDATORY_BITS));
    if withDB then Or(caps, Flags([CONNECT_WITH_DB])) else caps
  }

  /** Bit by bit: the desired set cut to the server's, plus the mandatory bits and the database bit. */
  lemma UpstreamCapsBits(server: UInt32, withDB: bool, k: nat)
    ensures Bit(UpstreamCaps(server, withDB), k) <==>
            || (k in DESIRED_BITS && Bit(server, k))
            || k in MANDATORY_BITS
            || (withDB && k == CONNECT_WITH_DB)
  {
    hide Bit, And, Or, Flags;
    var cut := And(Flags(DESIRED_BITS), server);
    var caps := Or(cut, Flags(MANDATORY_BITS));
    FlagBits(DESIRED_BITS, k);
    BitAnd(Flags(DESIRED_BITS), server, k);
    FlagBits(MANDATORY_BITS, k);
    BitOr(cut, Flags(MANDATORY_BITS), k);
    FlagBits([CONNECT_WITH_DB], k);
    BitOr(caps, Flags([CONNECT_WITH_DB]), k);
  }

  lemma UpstreamCapsWord(server: UInt32, withDB: bool)
    ensures UpstreamCaps(server, withDB) < 0x1_0000_0000
  {
    hide Bit, And, Or, Flags;
    var cut := And(Flags(DESIRED_BITS), server);
    var caps := Or(cut, Flags(MANDATORY_BITS));
    PowerOf32();
    FlagsBound(MANDATORY_BITS, 32);
    FlagsBound([CONNECT_WITH_DB], 32);
    OrBound(cut, Flags(MANDATORY_BITS), 32);
    OrBound(caps, Flags([CONNECT_WITH_DB]), 32);
  }

  lemma PowerOf32()
    ensures Pow2(32) == 0x1_0000_0000
  {
    assert Pow2(8) == 256;
    assert Pow2(16) == 65536;
    assert Pow2(24) == 0x100_0000;
  }

  /** Every login the proxy builds, with any of the scramble sizes, parses back field for field. */
  lemma LoginRoundTrip(server: UInt32, charset: Byte, user: Octets, auth: Octets, database: Octets, plugin: Octets)
    requires NulFree(user) && NulFree(database) && NulFree(plugin)
    requires |auth| == 0 || |auth| == 20 || |auth| == 32
    requires |user| + |database| + |plugin| < 0x1_0000_0000
    ensures UpstreamCaps(server, database != []) < 0x1_0000_0000
    ensures var caps := UpstreamCaps(server, database != []);
            var r := Response(caps, MAX_PACKET_PAYLOAD, charset, user, auth, database, plugin);
            |EncodeResponse(r)| < 0x8000_0000_0000_0000 && ParseResponse(EncodeResponse(r)) == Done(r)
  {
    hide Bit, ParseResponse, UpstreamCaps, LE;
    UpstreamCapsWord(server, database != []);
    var caps := UpstreamCaps(server, database != []);
    UpstreamCapsBits(server, database != [], PROTOCOL_41);
    UpstreamCapsBits(server, database != [], SECURE_CONNECTION);
    UpstreamCapsBits(server, database != [], PLUGIN_AUTH);
    UpstreamCapsBits(server, database != [], CONNECT_WITH_DB);
    var r := Response(caps, MAX_PACKET_PAYLOAD, charset, user, auth, database, plugin);
    ResponseRoundTrip(r);
  }

  // ---------------------------------------------------------------- the bytes

  /** The upstream capabilities by bit number of the MySQL protocol. */
  lemma UpstreamBitNumbers(server: UInt32, withDB: bool, k: nat)
    ensures Bit(UpstreamCaps(server, withDB), k) <==>
            || (k in {0, 2, 9, 13, 15, 19, 21, 24} && Bit(server, k)) || k in {9, 15, 19} || (withDB && k == 3)
  {
    UpstreamCapsBits(server, withDB, k);
    hide Bit, UpstreamCaps;
  }

  /** What the proxy offers its own clients. */
  lemma ProxyBitNumbers(k: nat)
    ensures Bit(Flags(PROXY_BITS), k) <==> k in {0, 2, 3, 9, 13, 15, 19, 21, 24}
  {
    FlagBits(PROXY_BITS, k);
    hide Bit, Flags;
  }

  /** Length-encoded integers: one byte below 251, else a marker and two, three or eight bytes. */
  lemma LenencLayout(i: UInt64)
    ensures var x := AppendLenencInt([], i);
            if i < 251 then x == [i]
            else if i < 0x1_0000 then x == [0xFC, i % 256, i / 256]
            else if i < 0x100_0000 then x == [0xFD, i % 256, i / 256 % 256, i / 0x1_0000]
            else |x| == 9 && x[0] == 0xFE && Number64(x[1..]) == i
  {
    hide LE, Number64;
    var x := AppendLenencInt([], i);
    if i < 0x1_0000 {
      TwoBytes(i);
    } else if i < 0x100_0000 {
      ThreeBytes(i);
    } else {
      SpellsWord64(LE64(i), i);
      assert x[1..] == LE64(i);
    }
  }

  lemma TwoBytes(n: nat)
    requires n < 0x1_0000
    ensures LE(n, 2) == [n % 256, n / 256]
  {
    assert LE(n, 2) == [n % 256, n / 256 % 256];
  }

  lemma Word16(n: nat)
    requires n < 0x1_0000
    ensures Number16(LE(n, 2)) == n
  {
    hide LE;
    TwoBytes(n);
  }

  /** A login's bytes. */
  lemma LoginLayout(r: Response)
    requires |r.auth| < 256
    ensures var b, n, m := EncodeResponse(r), |r.user|, |r.auth|;
            && |b| >= 34 + n + m
            && Number32(b[0..4]) == r.caps && b[4..8] == [0xFF, 0xFF, 0xFF, 0x00] && b[8] == r.charset
            && (forall i :: 9 <= i < 32 ==> b[i] == 0)
            && b[32..32 + n] == r.user && b[32 + n] == 0
            && b[33 + n] == m && b[34 + n..34 + n + m] == r.auth
            && b[34 + n + m..] == (if Bit(r.caps, 3) then r.database + [0] else [])
                                  + (if Bit(r.caps, 19) then r.plugin + [0] else [])
  {
    hide LE, Bit, Number32;
    var b, n, m := EncodeResponse(r), |r.user|, |r.auth|;
    var pos, end := 33 + n, 34 + n + m;
    ResponseFields(r, pos, end);
    SpellsWord32(b[0..4], r.caps);
    MaxWord();
    ResponseBytes(r);
    ReservedZeros(b, LE(r.caps, 4), LE(MAX_PACKET_PAYLOAD, 4), r.charset, (r.user + [0]) + (([m] + r.auth) + Optional(r)));
    hide EncodeResponse;
    assert b[32..pos][..n] == r.user && b[32..pos][n] == 0;
    assert b[32..32 + n] == b[32..pos][..n];
    assert b[pos..end][0] == m && b[pos..end][1..] == r.auth;
    assert b[pos + 1..end] == b[pos..end][1..];
  }

  lemma MaxWord()
    ensures LE(MAX_PACKET_PAYLOAD, 4) == [0xFF, 0xFF, 0xFF, 0x00]
  {
    SpellsWord32([0xFF, 0xFF, 0xFF, 0x00], MAX_PACKET_PAYLOAD);
  }

  lemma ReservedZeros(b: Octets, caps: Octets, max: Octets, charset: Byte, rest: Octets)
    requires |caps| == |max| == 4 && b == caps + (max + ([charset] + (Zeros(23) + rest)))
    ensures forall i :: 9 <= i < 32 ==> b[i] == 0
  {
    forall i | 9 <= i < 32
      ensures b[i] == 0
    {
      assert b[i] == Zeros(23)[i - 9];
    }
  }

  /** A greeting's bytes after the protocol number and the version. */
  lemma GreetingSpelled(g: Greeting)
    requires |g.salt| == 20 && g.status < 0x1_0000
    ensures var b, p := EncodeGreeting(g), |g.version| + 2;
            && |b| >= p + 44 && b[0] == 0x0A && b[1..p] == g.version + [0]
            && Number32(b[p..p + 4]) == g.connectionId && b[p + 4..p + 12] == g.salt[..8] && b[p + 12] == 0
            && Number16(b[p + 13..p + 15]) + 0x1_0000 * Number16(b[p + 18..p + 20]) == g.caps
            && b[p + 15] == g.charset && Number16(b[p + 16..p + 18]) == g.status
            && b[p + 20] == (if Bit(g.caps, 19) then 21 else 0)
            && b[p + 31..p + 43] == g.salt[8..] && b[p + 43] == 0
            && b[p + 44..] == if Bit(g.caps, 19) then g.plugin + [0] else []
  {
    hide EncodeGreeting, Bit, FixedBytes, Number16, Number32;
    var low, high := g.caps % 0x1_0000, g.caps / 0x1_0000;
    var authLen := if Bit(g.caps, 19) then 21 else 0;
    var name := if Bit(g.caps, 19) then g.plugin + [0] else [];
    assert g.salt[8..20] == g.salt[8..];
    GreetingBytes(g, low, high, authLen, g.salt[8..] + [0] + name);
    GreetingParts(EncodeGreeting(g), g.version, g.connectionId, g.salt[..8], low, g.charset, g.status, high, authLen,
                  g.salt[8..], name);
  }

  lemma GreetingParts(
    b: Octets, version: Octets, id: UInt32, part1: Octets, low: nat, charset: Byte, status: nat, high: nat, authLen: Byte,
    part2: Octets, name: Octets)
    requires |part1| == 8 && |part2| == 12 && low < 0x1_0000 && status < 0x1_0000 && high < 0x1_0000
    requires b == [0x0A] + ((version + [0])
                  + FixedBytes(id, part1, low, charset, status, high, authLen, part2 + [0] + name))
    ensures var p := |version| + 2;
            && |b| >= p + 44 && b[0] == 0x0A && b[1..p] == version + [0]
            && Number32(b[p..p + 4]) == id && b[p + 4..p + 12] == part1 && b[p + 12] == 0
            && Number16(b[p + 13..p + 15]) == low && b[p + 15] == charset && Number16(b[p + 16..p + 18]) == status
            && Number16(b[p + 18..p + 20]) == high && b[p + 20] == authLen
            && b[p + 31..p + 43] == part2 && b[p + 43] == 0 && b[p + 44..] == name
  {
    hide *;
    var p := |version| + 2;
    var after := part2 + [0] + name;
    StartsWith(b, version + [0], FixedBytes(id, part1, low, charset, status, high, authLen, after));
    FixedSpelled(b, p, id, part1, low, charset, status, high, authLen, after);
    SaltTail(b, p + 31, part2, name);
  }

  lemma StartsWith(b: Octets, version: Octets, fixed: Octets)
    requires b == [0x0A] + (version + fixed)
    ensures |b| >= 1 + |version| && b[0] == 0x0A && b[1..1 + |version|] == version && b[1 + |version|..] == fixed
  {
    assert b[0..] == b;
    Peel(b, 0, [0x0A], version + fixed);
    Peel(b, 1, version, fixed);
  }

  lemma SaltTail(b: Octets, q: nat, salt: Octets, name: Octets)
    requires q <= |b| && |salt| == 12 && b[q..] == salt + [0] + name
    ensures |b| >= q + 13 && b[q..q + 12] == salt && b[q + 12] == 0 && b[q + 13..] == name
  {
    assert salt + [0] + name == salt + ([0] + name);
    Peel(b, q, salt, [0] + name);
    Peel(b, q + 12, [0], name);
  }

  lemma FixedSpelled(
    b: Octets, p: nat, id: UInt32, part1: Octets, low: nat, charset: Byte, status: nat, high: nat, authLen: Byte, after: Octets)
    requires |part1| == 8 && low < 0x1_0000 && status < 0x1_0000 && high < 0x1_0000 && p <= |b|
    requires b[p..] == FixedBytes(id, part1, low, charset, status, high, authLen, after)
    ensures |b| >= p + 31 && Number32(b[p..p + 4]) == id && b[p + 4..p + 12] == part1 && b[p + 12] == 0
    ensures Number16(b[p + 13..p + 15]) == low && b[p + 15] == charset && Number16(b[p + 16..p + 18]) == status
    ensures Number16(b[p + 18..p + 20]) == high && b[p + 20] == authLen && b[p + 31..] == after
  {
    hide LE, Number32, Number16, Zeros;
    var t8 := Zeros(10) + after;
    var t7 := [authLen] + t8;
    var t6 := LE(high, 2) + t7;
    var t5 := LE(status, 2) + t6;
    var t4 := [charset] + t5;
    var t3 := LE(low, 2) + t4;
    var t2 := [0] + t3;
    var t1 := part1 + t2;
    Peel(b, p, LE(id, 4), t1);
    Peel(b, p + 4, part1, t2);
    Peel(b, p + 12, [0], t3);
    Peel(b, p + 13, LE(low, 2), t4);
    Peel(b, p + 15, [charset], t5);
    Peel(b, p + 16, LE(status, 2), t6);
    Peel(b, p + 18, LE(high, 2), t7);
    Peel(b, p + 20, [authLen], t8);
    Peel(b, p + 21, Zeros(10), after);
    SpellsWord32(LE(id, 4), id);
    Word16(low);
    Word16(status);
    Word16(high);
  }
}
