/** Configuration: its records, the identifier rule, and the validator. */
module Config {
  import opened Octets
  import opened Variables

  const POSTGRES: Octets := [0x70, 0x6F, 0x73, 0x74, 0x67, 0x72, 0x65, 0x73] // "postgres"
  const MYSQL: Octets := [0x6D, 0x79, 0x73, 0x71, 0x6C] // "mysql"
  const MONGODB: Octets := [0x6D, 0x6F, 0x6E, 0x67, 0x6F, 0x64, 0x62] // "mongodb"
  const SSL_DISABLE: Octets := [0x64, 0x69, 0x73, 0x61, 0x62, 0x6C, 0x65] // "disable"
  const SSL_REQUIRE: Octets := [0x72, 0x65, 0x71, 0x75, 0x69, 0x72, 0x65] // "require"

  datatype ForwardTarget = ForwardTarget(host: Octets, port: int)

  datatype Target = Target(
    name: Octets, host: Octets, port: int, forwardTo: Octets, user: Octets, password: Octets,
    database: Octets, authSource: Octets, sslMode: Octets)

  datatype Database = Database(adapter: Octets, virtualName: Octets, targets: seq<Target>)

  datatype Config = Config(
    listenPorts: map<Octets, int>, forwardTargets: map<Octets, ForwardTarget>, databases: seq<Database>)

  // ------------------------------------------------------------ identifiers

  predicate HeadByte(c: Byte) {
    0x30 <= c <= 0x39 || 0x41 <= c <= 0x5A || 0x61 <= c <= 0x7A || c == 0x5F
  }

  predicate TailByte(c: Byte) {
    HeadByte(c) || c == DOLLAR || c == 0x2D
  }

  /** identRE: a letter, digit or underscore, then up to 62 of those, "$" or "-". */
  predicate ValidIdentifier(s: Octets) {
    1 <= |s| <= 63 && HeadByte(s[0]) && forall i :: 1 <= i < |s| ==> TailByte(s[i])
  }

  predicate WordByte(c: Byte) {
    'A' as int <= c <= 'Z' as int || 'a' as int <= c <= 'z' as int || '0' as int <= c <= '9' as int || c == '_' as int
  }

  /** The rule in characters: letters, digits and "_" to start with, then also "$" and "-"; at most 63 bytes. */
  lemma IdentifierShape(s: Octets)
    ensures ValidIdentifier(s) <==>
            && 1 <= |s| <= 63 && WordByte(s[0])
            && forall i :: 0 <= i < |s| ==> WordByte(s[i]) || s[i] == '$' as int || s[i] == '-' as int
  {}

  /** `s[i..j]` is a maximal run of dollar signs (possibly empty). */
  ghost predicate MaximalRun(s: Octets, i: int, j: int) {
    && 0 <= i <= j <= |s|
    && (forall k :: i <= k < j ==> s[k] == DOLLAR)
    && (i > 0 ==> s[i - 1] != DOLLAR)
    && (j < |s| ==> s[j] != DOLLAR)
  }

  ghost predicate EvenRuns(s: Octets) {
    forall i, j :: MaximalRun(s, i, j) ==> (j - i) % 2 == 0
  }

  /** Skipping a non-dollar byte, or a pair of dollars, does not change the parity of any run. */
  lemma EvenRunsSkip(s: Octets, n: nat)
    requires s != []
    requires (n == 1 && s[0] != DOLLAR) || (n == 2 && |s| >= 2 && s[0] == s[1] == DOLLAR)
    ensures EvenRuns(s) <==> EvenRuns(s[n..])
  {
    var t := s[n..];
    if EvenRuns(s) {
      forall i, j | MaximalRun(t, i, j) ensures (j - i) % 2 == 0 {
        var i' := if n == 2 && i == 0 then 0 else i + n;
        assert forall k :: i <= k < j ==> s[k + n] == t[k];
        forall k | i' <= k < j + n ensures s[k] == DOLLAR {
          if k >= n { assert s[k] == t[k - n]; }
        }
        assert MaximalRun(s, i', j + n);
      }
    }
    if EvenRuns(t) {
      forall i, j | MaximalRun(s, i, j) ensures (j - i) % 2 == 0 {
        if j >= n {
          var i' := if i < n then 0 else i - n;
          assert forall k :: i' <= k < j - n ==> t[k] == s[k + n];
          assert MaximalRun(t, i', j - n);
          assert n == 2 ==> i == 0 || i > 2;
        } else {
          assert i == j;
        }
      }
    }
  }

  predicate BraceFree(s: Octets) {
    Free(s, OPEN)
  }

  /** Without braces, a template is well formed exactly when its dollars come in pairs. */
  lemma {:induction false} BraceFreeParse(s: Octets)
    requires BraceFree(s)
    ensures Parse(s).Some? <==> EvenRuns(s)
    ensures Parse(s).Some? ==> Names(Parse(s).value) == []
    decreases |s|
  {
    if s == [] {
      assert forall i, j :: MaximalRun(s, i, j) ==> i == j;
    } else if s[0] != DOLLAR {
      EvenRunsSkip(s, 1);
      BraceFreeParse(s[1..]);
      if Parse(s).Some? {
        LitHasNoName(s[0], Parse(s[1..]).value);
      }
    } else if |s| >= 2 && s[1] == DOLLAR {
      EvenRunsSkip(s, 2);
      BraceFreeParse(s[2..]);
      if Parse(s).Some? {
        LitHasNoName(DOLLAR, Parse(s[2..]).value);
      }
    } else {
      assert |s| >= 2 ==> s[1] in s;
      assert MaximalRun(s, 0, 1);
    }
  }

  /** The text a brace-free template resolves to: no longer, same first byte, no new bytes. */
  lemma {:induction false} BraceFreeText(s: Octets, vars: Vars)
    requires BraceFree(s) && Parse(s).Some?
    ensures var text := Denote(Parse(s).value, vars);
            && |text| <= |s|
            && (s != [] ==> text != [] && text[0] == s[0])
            && forall c :: c in text ==> c in s
    decreases |s|
  {
    if s != [] {
      var n := if s[0] != DOLLAR then 1 else 2;
      assert s[0] == DOLLAR ==> |s| >= 2 && s[1] in s;
      BraceFreeText(s[n..], vars);
      var ps := Parse(s).value;
      assert ps[1..] == Parse(s[n..]).value;
    }
  }

  /** A valid identifier used as a database template resolves exactly when its dollar runs are even. */
  lemma IdentifierResolves(s: Octets, vars: Vars)
    requires ValidIdentifier(s)
    ensures Meaning(s, vars).Resolved? <==> EvenRuns(s)
    ensures Meaning(s, vars).Resolved? ==> ValidIdentifier(Meaning(s, vars).text)
    ensures !Meaning(s, vars).Resolved? ==> Meaning(s, vars) == Malformed
  {
    assert forall c :: c in s ==> TailByte(c);
    BraceFreeParse(s);
    if Parse(s).Some? {
      BraceFreeText(s, vars);
      var text := Denote(Parse(s).value, vars);
      forall i | 1 <= i < |text| ensures TailByte(text[i]) {
        assert text[i] in text;
      }
    }
  }

  lemma {:induction false} DollarFreeText(s: Octets, vars: Vars)
    requires Free(s, DOLLAR)
    ensures Parse(s).Some? && Names(Parse(s).value) == [] && Denote(Parse(s).value, vars) == s
    decreases |s|
  {
    if s != [] {
      assert s[0] in s;
      DollarFreeText(s[1..], vars);
      LitHasNoName(s[0], Parse(s[1..]).value);
      assert Parse(s).value[1..] == Parse(s[1..]).value;
    }
  }

  /** A plain name is its own resolution whatever the variables. */
  lemma DollarFreeResolvesToItself(s: Octets, vars: Vars)
    requires Free(s, DOLLAR)
    ensures Meaning(s, vars) == Resolved(s)
  {
    DollarFreeText(s, vars);
  }

  /** "a$b" passes the identifier rule yet can never be made current. */
  lemma ValidatedNameThatNeverResolves(vars: Vars)
    ensures ValidIdentifier([0x61, DOLLAR, 0x62])
    ensures Meaning([0x61, DOLLAR, 0x62], vars) == Malformed
  {
    var s: Octets := [0x61, DOLLAR, 0x62];
    assert MaximalRun(s, 1, 2);
    IdentifierResolves(s, vars);
  }

  // -------------------------------------------------------------- validator

  predicate SupportedAdapter(a: Octets) {
    a == MONGODB || a == MYSQL || a == POSTGRES
  }

  predicate SupportedSSLMode(m: Octets) {
    m == SSL_DISABLE || m == SSL_REQUIRE
  }

  predicate PortInRange(p: int) {
    1 <= p <= 65535
  }

  predicate PortsOk(ports: map<Octets, int>) {
    && (forall a :: a in ports ==> SupportedAdapter(a) && PortInRange(ports[a]))
    && (forall a, b :: a in ports && b in ports && a != b ==> ports[a] != ports[b])
  }

  predicate ForwardsOk(fwd: map<Octets, ForwardTarget>) {
    forall f :: f in fwd ==> f != [] && fwd[f].host != [] && PortInRange(fwd[f].port)
  }

  /** Everything required of one target taken alone. */
  predicate TargetOk(t: Target, fwd: map<Octets, ForwardTarget>) {
    var inline := t.host != [] || t.port != 0;
    && t.name != []
    && (inline <==> t.forwardTo == [])
    && (inline ==> t.host != [] && PortInRange(t.port))
    && (!inline ==> t.forwardTo in fwd)
    && t.user != [] && t.password != []
    && (t.sslMode != [] ==> SupportedSSLMode(t.sslMode))
    && (t.authSource != [] ==> ValidIdentifier(t.authSource))
    && (t.database != [] && Dedup(Names(Scan(t.database))) == [] ==> ValidIdentifier(t.database))
  }

  predicate DistinctNames(ts: seq<Target>) {
    forall i, j :: 0 <= i < j < |ts| ==> ts[i].name != ts[j].name
  }

  predicate DatabaseOk(d: Database, cfg: Config) {
    && d.virtualName != [] && ValidIdentifier(d.virtualName)
    && SupportedAdapter(d.adapter) && d.adapter in cfg.listenPorts
    && d.targets != [] && DistinctNames(d.targets)
    && (forall i :: 0 <= i < |d.targets| ==> TargetOk(d.targets[i], cfg.forwardTargets))
  }

  predicate DistinctDatabases(ds: seq<Database>) {
    forall i, j :: 0 <= i < j < |ds| ==> ds[i].virtualName != ds[j].virtualName
  }

  /** The configuration rules, stated without reference to the order they are checked in. */
  predicate Accepts(cfg: Config) {
    && cfg.listenPorts != map[] && PortsOk(cfg.listenPorts)
    && ForwardsOk(cfg.forwardTargets)
    && cfg.databases != [] && DistinctDatabases(cfg.databases)
    && (forall i :: 0 <= i < |cfg.databases| ==> DatabaseOk(cfg.databases[i], cfg))
  }

  method CheckPorts(ports: map<Octets, int>) returns (ok: bool)
    ensures ok <==> PortsOk(ports)
  {
    var seen: map<int, Octets> := map[];
    var todo := ports.Keys;
    while todo != {}
      invariant todo <= ports.Keys
      invariant forall a :: a in ports && a !in todo ==> SupportedAdapter(a) && PortInRange(ports[a])
      invariant forall a :: a in ports && a !in todo ==> ports[a] in seen
      invariant forall p :: p in seen ==> seen[p] in ports && seen[p] !in todo && ports[seen[p]] == p
      invariant forall a, b :: a in ports && b in ports && a !in todo && b !in todo && a != b ==> ports[a] != ports[b]
      decreases |todo|
    {
      var a :| a in todo;
      var p := ports[a];
      if !SupportedAdapter(a) || p < 1 || p > 65535 || p in seen {
        return false;
      }
      seen := seen[p := a];
      todo := todo - {a};
    }
    ok := true;
  }

  method CheckForwards(fwd: map<Octets, ForwardTarget>) returns (ok: bool)
    ensures ok <==> ForwardsOk(fwd)
  {
    var todo := fwd.Keys;
    while todo != {}
      invariant todo <= fwd.Keys
      invariant forall f :: f in fwd && f !in todo ==> f != [] && fwd[f].host != [] && PortInRange(fwd[f].port)
      decreases |todo|
    {
      var f :| f in todo;
      if f == [] || fwd[f].host == [] || fwd[f].port < 1 || fwd[f].port > 65535 {
        return false;
      }
      todo := todo - {f};
    }
    ok := true;
  }

  /** The per-target rules in the order the validator applies them. */
  method CheckTarget(t: Target, fwd: map<Octets, ForwardTarget>) returns (ok: bool)
    ensures ok <==> TargetOk(t, fwd)
  {
    hide Dedup, Names, Scan, ValidIdentifier;
    if t.name == [] {
      return false;
    }
    var inline := t.host != [] || t.port != 0;
    var forward := t.forwardTo != [];
    if inline == forward {
      return false;
    }
    if inline {
      if t.host == [] || t.port < 1 || t.port > 65535 {
        return false;
      }
    } else if t.forwardTo !in fwd {
      return false;
    }
    if t.user == [] || t.password == [] {
      return false;
    }
    if t.sslMode != [] && !SupportedSSLMode(t.sslMode) {
      return false;
    }
    if t.authSource != [] && !ValidIdentifier(t.authSource) {
      return false;
    }
    var required := RequiredVars(t.database);
    ok := !(t.database != [] && |required| == 0 && !ValidIdentifier(t.database));
  }

  method CheckTargets(ts: seq<Target>, fwd: map<Octets, ForwardTarget>) returns (ok: bool)
    ensures ok <==> DistinctNames(ts) && forall i :: 0 <= i < |ts| ==> TargetOk(ts[i], fwd)
  {
    hide TargetOk;
    var seen: set<Octets> := {};
    for j := 0 to |ts|
      invariant forall n :: n in seen <==> exists i :: 0 <= i < j && ts[i].name == n
      invariant DistinctNames(ts[..j])
      invariant forall i :: 0 <= i < j ==> TargetOk(ts[i], fwd)
    {
      if ts[j].name in seen {
        return false;
      }
      seen := seen + {ts[j].name};
      var good := CheckTarget(ts[j], fwd);
      if !good {
        return false;
      }
    }
    assert ts[..|ts|] == ts;
    ok := true;
  }

  /** Validate: accepts exactly the configurations that satisfy every rule. */
  method Validate(cfg: Config) returns (ok: bool)
    ensures ok <==> Accepts(cfg)
  {
    hide TargetOk, ValidIdentifier, PortsOk, ForwardsOk;
    if |cfg.listenPorts| == 0 {
      return false;
    }
    var ports := CheckPorts(cfg.listenPorts);
    if !ports {
      return false;
    }
    var forwards := CheckForwards(cfg.forwardTargets);
    if !forwards || |cfg.databases| == 0 {
      return false;
    }
    var ds := cfg.databases;
    var seen: set<Octets> := {};
    for i := 0 to |ds|
      invariant forall n :: n in seen <==> exists k :: 0 <= k < i && ds[k].virtualName == n
      invariant DistinctDatabases(ds[..i])
      invariant forall k :: 0 <= k < i ==> DatabaseOk(ds[k], cfg)
    {
      var d := ds[i];
      if d.virtualName == [] || !ValidIdentifier(d.virtualName) || d.virtualName in seen {
        return false;
      }
      seen := seen + {d.virtualName};
      if d.adapter == [] || !SupportedAdapter(d.adapter) || d.adapter !in cfg.listenPorts || |d.targets| == 0 {
        return false;
      }
      var targets := CheckTargets(d.targets, cfg.forwardTargets);
      if !targets {
        return false;
      }
    }
    assert ds[..|ds|] == ds;
    ok := true;
  }

  // ------------------------------------------------ what an accepted configuration gives

  function ResolveEndpoint(t: Target, fwd: map<Octets, ForwardTarget>): (Octets, int)
  {
    if t.host != [] then (t.host, t.port)
    else if t.forwardTo in fwd then (fwd[t.forwardTo].host, fwd[t.forwardTo].port)
    else ([], 0)
  }

  function UsedAdapters(cfg: Config): set<Octets> {
    set d | d in cfg.databases && d.adapter != [] :: d.adapter
  }

  /** Every target of an accepted configuration has somewhere to dial. */
  lemma AcceptedEndpoints(cfg: Config, d: Database, t: Target)
    requires Accepts(cfg) && d in cfg.databases && t in d.targets
    ensures var (host, port) := ResolveEndpoint(t, cfg.forwardTargets); host != [] && PortInRange(port)
    ensures var (host, port) := ResolveEndpoint(t, cfg.forwardTargets);
            if t.forwardTo == [] then host == t.host && port == t.port
            else && t.forwardTo in cfg.forwardTargets
                 && host == cfg.forwardTargets[t.forwardTo].host && port == cfg.forwardTargets[t.forwardTo].port
  {
    hide ValidIdentifier, PortsOk;
    assert DatabaseOk(d, cfg);
    assert TargetOk(t, cfg.forwardTargets);
  }

  /** Every adapter in use has its own listen port, so New's listener loop cannot fail. */
  lemma AcceptedListeners(cfg: Config, a: Octets, b: Octets)
    requires Accepts(cfg) && a in UsedAdapters(cfg) && b in UsedAdapters(cfg)
    ensures a in cfg.listenPorts && b in cfg.listenPorts && PortInRange(cfg.listenPorts[a])
    ensures a != b ==> cfg.listenPorts[a] != cfg.listenPorts[b]
  {
    hide ValidIdentifier, TargetOk;
    var d :| d in cfg.databases && d.adapter == a;
    var e :| e in cfg.databases && e.adapter == b;
    assert DatabaseOk(d, cfg) && DatabaseOk(e, cfg);
  }

  /** Every configured database has a listener, and two share one exactly when they speak the same protocol. */
  lemma ListenersServe(cfg: Config, d: Database, e: Database)
    requires Accepts(cfg) && d in cfg.databases && e in cfg.databases
    ensures d.adapter in UsedAdapters(cfg) && d.adapter in cfg.listenPorts && e.adapter in cfg.listenPorts
    ensures PortInRange(cfg.listenPorts[d.adapter])
    ensures cfg.listenPorts[d.adapter] == cfg.listenPorts[e.adapter] <==> d.adapter == e.adapter
  {
    assert DatabaseOk(d, cfg) && DatabaseOk(e, cfg);
    AcceptedListeners(cfg, d.adapter, e.adapter);
  }

  lemma Texts()
    ensures POSTGRES == Ascii("postgres") && MYSQL == Ascii("mysql") && MONGODB == Ascii("mongodb")
    ensures SSL_DISABLE == Ascii("disable") && SSL_REQUIRE == Ascii("require")
  {}

  /** What acceptance rules out, in the configuration's own words. */
  lemma AcceptedRules(cfg: Config, d: Database, t: Target)
    requires Accepts(cfg) && d in cfg.databases && t in d.targets
    ensures d.adapter in {Ascii("postgres"), Ascii("mysql"), Ascii("mongodb")} && d.adapter in cfg.listenPorts
    ensures t.name != [] && t.user != [] && t.password != []
    ensures t.sslMode in {[], Ascii("disable"), Ascii("require")}
    ensures t.authSource == [] || ValidIdentifier(t.authSource)
    ensures ValidIdentifier(d.virtualName) && (t.forwardTo == [] <==> t.host != [])
    ensures t.forwardTo != [] ==> t.forwardTo in cfg.forwardTargets && t.port == 0
  {
    Texts();
    assert DatabaseOk(d, cfg);
    assert TargetOk(t, cfg.forwardTargets);
    hide ValidIdentifier, Ascii;
  }

  /** When an accepted target can ever resolve: its template is well formed; without variables, its runs of "$" are even. */
  lemma AcceptedTemplateResolves(t: Target, fwd: map<Octets, ForwardTarget>)
    requires TargetOk(t, fwd)
    ensures (exists vars: Vars :: Meaning(t.database, vars).Resolved?) <==> Parse(t.database).Some?
    ensures t.database != [] && Dedup(Names(Scan(t.database))) == [] ==>
              ((exists vars: Vars :: Meaning(t.database, vars).Resolved?) <==> EvenRuns(t.database))
  {
    hide Meaning, Parse, EvenRuns, Scan, Names, Dedup, ValidIdentifier;
    ResolvableIffWellFormed(t.database);
    if t.database != [] && Dedup(Names(Scan(t.database))) == [] {
      forall vars: Vars
        ensures Meaning(t.database, vars).Resolved? <==> EvenRuns(t.database)
      {
        IdentifierResolves(t.database, vars);
      }
      var none: Vars := map[];
      assert EvenRuns(t.database) ==> Meaning(t.database, none).Resolved?;
    }
  }

  /** "${A}$" names a variable, so the identifier rule does not apply to it, and it resolves under no variables. */
  lemma TemplateThatNeverResolves(vars: Vars)
    ensures Dedup(Names(Scan([DOLLAR, OPEN, 0x41, CLOSE, DOLLAR]))) != []
    ensures Meaning([DOLLAR, OPEN, 0x41, CLOSE, DOLLAR], vars) == Malformed
  {
    var s := [DOLLAR, OPEN, 0x41, CLOSE, DOLLAR];
    assert FindByte(s, 2, CLOSE) == Some(3);
    assert s[4..] == [DOLLAR];
    assert s[2..3] == [0x41];
    assert Parse([DOLLAR]).None?;
    VarHasName([0x41], Scan([DOLLAR]));
    assert Names(Scan(s))[0] in Names(Scan(s));
    assert Names(Scan(s))[0] in Dedup(Names(Scan(s)));
  }
}
