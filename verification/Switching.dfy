/** What a switch plans and commits, as values: the reference the routing classes are held to. */
module Switching {
  import opened Octets
  import opened Variables
  import C = Config

  /** A target with its template and endpoint resolved: what handlers dial. */
  datatype ResolvedTarget = ResolvedTarget(
    name: Octets, host: Octets, port: int, user: Octets, password: Octets, database: Octets,
    sslMode: Octets, authSource: Octets)

  type Forwards = map<Octets, C.ForwardTarget>

  /** The byName map: a later target of the same name replaces an earlier one. */
  function FindTarget(ts: seq<C.Target>, name: Octets): (r: Option<C.Target>)
    ensures r.Some? ==> r.value in ts && r.value.name == name
    ensures r.None? <==> forall t :: t in ts ==> t.name != name
  {
    if ts == [] then None
    else if ts[|ts| - 1].name == name then Some(ts[|ts| - 1])
    else FindTarget(ts[..|ts| - 1], name)
  }

  /** The last target of the name is the one that counts. */
  lemma {:induction false} FindTargetIsLast(ts: seq<C.Target>, name: Octets) returns (i: nat)
    requires FindTarget(ts, name).Some?
    ensures i < |ts| && ts[i] == FindTarget(ts, name).value && ts[i].name == name
    ensures forall j :: i < j < |ts| ==> ts[j].name != name
  {
    var last := |ts| - 1;
    if ts[last].name == name {
      i := last;
    } else {
      i := FindTargetIsLast(ts[..last], name);
      assert forall j :: i < j < last ==> ts[..last][j].name != name;
    }
  }

  predicate HasTarget(d: C.Database, name: Octets) {
    FindTarget(d.targets, name).Some?
  }

  datatype Planned = Planned(rt: ResolvedTarget) | MissingVars(names: seq<Octets>) | Unresolvable

  /** Database.ResolveTarget. */
  function ResolveTarget(d: C.Database, fwd: Forwards, name: Octets, vars: Vars): (r: Planned)
    ensures r.Planned? ==> r.rt.name == name && HasTarget(d, name) && Realises(r.rt, FindTarget(d.targets, name).value, fwd, vars)
    ensures r.Planned? && r.rt.database != [] ==> C.ValidIdentifier(r.rt.database)
  {
    match FindTarget(d.targets, name)
    case None => Unresolvable
    case Some(t) =>
      match Meaning(t.database, vars)
      case Missing(names) => MissingVars(names)
      case Malformed => Unresolvable
      case Resolved(db) =>
        if db != [] && !C.ValidIdentifier(db) then Unresolvable else
          var (host, port) := C.ResolveEndpoint(t, fwd);
          Planned(ResolvedTarget(t.name, host, port, t.user, t.password, db, t.sslMode, t.authSource))
  }

  /** `rt` is target `t`, field for field, with its template and endpoint resolved. */
  predicate Realises(rt: ResolvedTarget, t: C.Target, fwd: Forwards, vars: Vars) {
    && rt.name == t.name && rt.user == t.user && rt.password == t.password
    && rt.sslMode == t.sslMode && rt.authSource == t.authSource
    && Meaning(t.database, vars) == Resolved(rt.database)
    && (t.host != [] ==> rt.host == t.host && rt.port == t.port)
    && (t.host == [] && t.forwardTo in fwd ==> rt.host == fwd[t.forwardTo].host && rt.port == fwd[t.forwardTo].port)
    && (t.host == [] && t.forwardTo !in fwd ==> rt.host == [] && rt.port == 0)
  }

  /** What planning a target yields, case by case. */
  lemma PlanIs(d: C.Database, fwd: Forwards, name: Octets, vars: Vars)
    ensures var r := ResolveTarget(d, fwd, name, vars);
            match FindTarget(d.targets, name)
            case None => r == Unresolvable
            case Some(t) =>
              && (r.MissingVars? <==> Meaning(t.database, vars).Missing?)
              && (r.MissingVars? ==> Meaning(t.database, vars) == Missing(r.names))
              && (r.Planned? <==> Meaning(t.database, vars).Resolved?
                                  && (Meaning(t.database, vars).text == [] || C.ValidIdentifier(Meaning(t.database, vars).text)))
              && (r.Planned? ==> Realises(r.rt, t, fwd, vars))
  {
    hide Meaning, C.ValidIdentifier;
  }

  type Databases = map<Octets, C.Database>

  predicate PlanOk(d: C.Database, fwd: Forwards, target: Octets, vars: Vars) {
    HasTarget(d, target) ==> ResolveTarget(d, fwd, target, vars).Planned?
  }

  /** A switch goes through when some database declares the target and all that do can resolve it. */
  predicate Succeeds(ds: Databases, fwd: Forwards, target: Octets, vars: Vars) {
    && (exists n :: n in ds && HasTarget(ds[n], target))
    && (forall n :: n in ds ==> PlanOk(ds[n], fwd, target, vars))
  }

  /** The target a database should be on: the resolution if it declares the name, otherwise none. */
  function Expected(d: C.Database, fwd: Forwards, target: Octets, vars: Vars): Option<ResolvedTarget>
  {
    if !HasTarget(d, target) then None
    else match ResolveTarget(d, fwd, target, vars)
         case Planned(rt) => Some(rt)
         case _ => None
  }

  /** The routing state: each database's current target and the global target and variables. */
  datatype State = State(current: map<Octets, Option<ResolvedTarget>>, target: Octets, vars: Vars)

  datatype SwitchResult = SwitchResult(
    virtualName: Octets, previous: Octets, previousDatabase: Octets, current: Octets, currentDatabase: Octets,
    closedConns: nat, skipped: bool)

  function Name(rt: Option<ResolvedTarget>): Octets {
    if rt.Some? then rt.value.name else []
  }

  function DatabaseOf(rt: Option<ResolvedTarget>): Octets {
    if rt.Some? then rt.value.database else []
  }

  /** The report for one database moved from `before` to `after`. */
  function Report(name: Octets, before: Option<ResolvedTarget>, after: Option<ResolvedTarget>, closed: nat): SwitchResult {
    SwitchResult(name, Name(before), DatabaseOf(before), Name(after), DatabaseOf(after), closed, after.None?)
  }

  datatype Call = Call(target: Octets, vars: Vars)

  function Step(ds: Databases, fwd: Forwards, s: State, c: Call): State
  {
    if Succeeds(ds, fwd, c.target, c.vars)
    then State(map n | n in ds :: Expected(ds[n], fwd, c.target, c.vars), c.target, c.vars)
    else s
  }

  function Run(ds: Databases, fwd: Forwards, s: State, calls: seq<Call>): State
    decreases |calls|
  {
    if calls == [] then s else Run(ds, fwd, Step(ds, fwd, s, calls[0]), calls[1..])
  }

  /** Every database is where the global target and variables put it. */
  predicate Agrees(ds: Databases, fwd: Forwards, s: State) {
    s.current.Keys == ds.Keys && forall n :: n in ds ==> s.current[n] == Expected(ds[n], fwd, s.target, s.vars)
  }

  lemma {:induction false} RunAgrees(ds: Databases, fwd: Forwards, s: State, calls: seq<Call>)
    requires Agrees(ds, fwd, s)
    ensures Agrees(ds, fwd, Run(ds, fwd, s, calls))
    decreases |calls|
  {
    hide Succeeds, Expected;
    if calls != [] {
      RunAgrees(ds, fwd, Step(ds, fwd, s, calls[0]), calls[1..]);
    }
  }

  /** The successful calls of a run, in order. */
  function Successes(ds: Databases, fwd: Forwards, calls: seq<Call>): seq<Call>
  {
    if calls == [] then []
    else (if Succeeds(ds, fwd, calls[0].target, calls[0].vars) then [calls[0]] else []) + Successes(ds, fwd, calls[1..])
  }

  /** A failed call does nothing, and a successful one leaves nothing of the state before it. */
  lemma StepForgets(ds: Databases, fwd: Forwards, s: State, c: Call, d: Call)
    ensures !Succeeds(ds, fwd, c.target, c.vars) ==> Step(ds, fwd, s, c) == s
    ensures Succeeds(ds, fwd, d.target, d.vars) ==> Step(ds, fwd, Step(ds, fwd, s, c), d) == Step(ds, fwd, s, d)
  {
    hide Succeeds, Expected;
  }

  /** A run ends where its last successful call alone would have put it; the rest leave no trace. */
  lemma {:induction false} RunIsLastSuccess(ds: Databases, fwd: Forwards, s: State, calls: seq<Call>)
    ensures var good := Successes(ds, fwd, calls);
            Run(ds, fwd, s, calls) == if good == [] then s else Step(ds, fwd, s, good[|good| - 1])
    ensures var good := Successes(ds, fwd, calls);
            good != [] ==> Succeeds(ds, fwd, good[|good| - 1].target, good[|good| - 1].vars)
    decreases |calls|
  {
    hide Succeeds, Step;
    if calls != [] {
      var t := Step(ds, fwd, s, calls[0]);
      RunIsLastSuccess(ds, fwd, t, calls[1..]);
      var later := Successes(ds, fwd, calls[1..]);
      StepForgets(ds, fwd, s, calls[0], if later == [] then calls[0] else later[|later| - 1]);
    }
  }

  lemma {:induction false} RunAppend(ds: Databases, fwd: Forwards, s: State, a: seq<Call>, c: Call)
    ensures Run(ds, fwd, s, a + [c]) == Step(ds, fwd, Run(ds, fwd, s, a), c)
    decreases |a|
  {
    hide Step;
    if a == [] {
      assert (a + [c])[1..] == [];
    } else {
      RunAppend(ds, fwd, Step(ds, fwd, s, a[0]), a[1..], c);
      assert (a + [c])[1..] == a[1..] + [c];
    }
  }

  /** The report a successful call makes about one database after a run. */
  function ReportAfter(ds: Databases, fwd: Forwards, s: State, before: seq<Call>, c: Call, n: Octets, closed: nat): SwitchResult
    requires n in ds && Agrees(ds, fwd, s)
  {
    RunAgrees(ds, fwd, s, before);
    Report(n, Run(ds, fwd, s, before).current[n], Expected(ds[n], fwd, c.target, c.vars), closed)
  }

  /** Consecutive reports chain: what one call calls current, the next success calls previous. */
  lemma ReportsChain(ds: Databases, fwd: Forwards, s: State, a: seq<Call>, c: Call, failed: seq<Call>, d: Call, n: Octets,
                     k: nat, l: nat)
    requires n in ds && Agrees(ds, fwd, s)
    requires Succeeds(ds, fwd, c.target, c.vars) && Successes(ds, fwd, failed) == []
    ensures var first := ReportAfter(ds, fwd, s, a, c, n, k);
            var second := ReportAfter(ds, fwd, s, a + [c] + failed, d, n, l);
            second.previous == first.current && second.previousDatabase == first.currentDatabase
  {
    hide Succeeds, Expected;
    RunAppend(ds, fwd, s, a, c);
    RunConcat(ds, fwd, s, a + [c], failed);
    RunIsLastSuccess(ds, fwd, Run(ds, fwd, s, a + [c]), failed);
  }

  /** The fields of a report: where the database was, where it is now, how many connections it dropped. */
  predicate Describes(r: SwitchResult, n: Octets, before: Option<ResolvedTarget>, after: Option<ResolvedTarget>, closed: nat) {
    && r.virtualName == n && r.closedConns == closed
    && (before.None? ==> r.previous == [] && r.previousDatabase == [])
    && (before.Some? ==> r.previous == before.value.name && r.previousDatabase == before.value.database)
    && (after.None? ==> r.skipped && r.current == [] && r.currentDatabase == [])
    && (after.Some? ==> !r.skipped && r.current == after.value.name && r.currentDatabase == after.value.database)
  }

  lemma ReportDescribes(n: Octets, before: Option<ResolvedTarget>, after: Option<ResolvedTarget>, closed: nat)
    ensures Describes(Report(n, before, after, closed), n, before, after, closed)
  {}

  /** What a successful call reports of a database: on the target it asked for, with the template's text as its database, or
      skipped exactly if it does not declare the target. */
  lemma ReportSays(ds: Databases, fwd: Forwards, s: State, before: seq<Call>, c: Call, n: Octets, closed: nat)
    requires n in ds && Agrees(ds, fwd, s) && Succeeds(ds, fwd, c.target, c.vars)
    ensures var r := ReportAfter(ds, fwd, s, before, c, n, closed);
            && r.virtualName == n && r.closedConns == closed && (r.skipped <==> !HasTarget(ds[n], c.target))
            && r.current == (if r.skipped then [] else c.target)
            && (r.currentDatabase != [] ==> C.ValidIdentifier(r.currentDatabase))
            && (!r.skipped ==> Meaning(FindTarget(ds[n].targets, c.target).value.database, c.vars) == Resolved(r.currentDatabase))
  {
    assert PlanOk(ds[n], fwd, c.target, c.vars);
    PlanIs(ds[n], fwd, c.target, c.vars);
    hide Succeeds, Agrees, Run, C.ValidIdentifier, Meaning, ResolveTarget, FindTarget;
  }

  /** The database's template resolves to nothing or to an identifier. */
  predicate Resolvable(d: C.Database, target: Octets, vars: Vars) {
    match FindTarget(d.targets, target)
    case None => false
    case Some(t) =>
      match Meaning(t.database, vars)
      case Resolved(text) => text == [] || C.ValidIdentifier(text)
      case _ => false
  }

  /** When a call goes through, on the configuration's own terms. */
  lemma SucceedsIff(ds: Databases, fwd: Forwards, target: Octets, vars: Vars)
    ensures Succeeds(ds, fwd, target, vars) <==>
            && (exists n :: n in ds && FindTarget(ds[n].targets, target).Some?)
            && (forall n :: n in ds && FindTarget(ds[n].targets, target).Some? ==> Resolvable(ds[n], target, vars))
  {
    forall n | n in ds
      ensures HasTarget(ds[n], target) <==> FindTarget(ds[n].targets, target).Some?
      ensures PlanOk(ds[n], fwd, target, vars) <==>
              (FindTarget(ds[n].targets, target).Some? ==> Resolvable(ds[n], target, vars))
    {
      PlanOkIs(ds[n], fwd, target, vars);
    }
    hide PlanOk, HasTarget, FindTarget, Resolvable;
    if n :| n in ds && FindTarget(ds[n].targets, target).Some? {
      assert HasTarget(ds[n], target);
    }
  }

  lemma PlanOkIs(d: C.Database, fwd: Forwards, target: Octets, vars: Vars)
    ensures PlanOk(d, fwd, target, vars) <==> (FindTarget(d.targets, target).Some? ==> Resolvable(d, target, vars))
  {
    PlanIs(d, fwd, target, vars);
    hide ResolveTarget, FindTarget, Meaning, C.ValidIdentifier;
  }

  /** After any serial run with a success in it: the globals are the last success's, and a database has a target exactly if it
      declares that name, namely the declared one, field for field, as the variables resolve it. */
  lemma CurrentAfterRun(ds: Databases, fwd: Forwards, s: State, calls: seq<Call>, n: Octets)
    requires n in ds && Successes(ds, fwd, calls) != []
    ensures var t := Run(ds, fwd, s, calls);
            var good := Successes(ds, fwd, calls);
            && t.target == good[|good| - 1].target && t.vars == good[|good| - 1].vars
            && n in t.current
            && (t.current[n].Some? <==> FindTarget(ds[n].targets, t.target).Some?)
            && (t.current[n].Some? ==> Realises(t.current[n].value, FindTarget(ds[n].targets, t.target).value, fwd, t.vars))
  {
    RunIsLastSuccess(ds, fwd, s, calls);
    var good := Successes(ds, fwd, calls);
    var c := good[|good| - 1];
    assert PlanOk(ds[n], fwd, c.target, c.vars);
    PlanIs(ds[n], fwd, c.target, c.vars);
    hide Run, ResolveTarget, FindTarget, Realises, Successes, Meaning, C.ValidIdentifier;
  }

  lemma {:induction false} RunConcat(ds: Databases, fwd: Forwards, s: State, a: seq<Call>, b: seq<Call>)
    ensures Run(ds, fwd, s, a + b) == Run(ds, fwd, Run(ds, fwd, s, a), b)
    decreases |a|
  {
    hide Step;
    if a == [] {
      assert a + b == b;
    } else {
      RunConcat(ds, fwd, Step(ds, fwd, s, a[0]), a[1..], b);
      assert (a + b)[1..] == a[1..] + b;
    }
  }

  /** The databases of a configuration, by virtual name. */
  function ByName(ds: seq<C.Database>): Databases
  {
    if ds == [] then map[] else
      var d := ds[|ds| - 1];
      ByName(ds[..|ds| - 1])[d.virtualName := d]
  }

  /** Of databases with one name the last counts. */
  lemma {:induction false} ByNameIsLast(ds: seq<C.Database>, n: Octets) returns (i: nat)
    requires n in ByName(ds)
    ensures i < |ds| && ds[i] == ByName(ds)[n] && ds[i].virtualName == n
    ensures forall j :: i < j < |ds| ==> ds[j].virtualName != n
  {
    var last := |ds| - 1;
    if ds[last].virtualName == n {
      i := last;
    } else {
      i := ByNameIsLast(ds[..last], n);
      assert forall j :: i < j < last ==> ds[..last][j].virtualName != n;
    }
  }

  /** Every configured name is served. */
  lemma {:induction false} ByNameHasAll(ds: seq<C.Database>, i: nat)
    requires i < |ds|
    ensures ds[i].virtualName in ByName(ds)
  {
    if i < |ds| - 1 {
      ByNameHasAll(ds[..|ds| - 1], i);
    }
  }

  /** On an accepted configuration nothing is shadowed: every database and every target is reached by its own name. */
  lemma EveryTargetReachable(cfg: C.Config, i: nat, k: nat)
    requires C.Accepts(cfg) && i < |cfg.databases| && k < |cfg.databases[i].targets|
    ensures var d := cfg.databases[i];
            && d.virtualName in ByName(cfg.databases) && ByName(cfg.databases)[d.virtualName] == d
            && FindTarget(d.targets, d.targets[k].name) == Some(d.targets[k])
  {
    hide C.TargetOk, C.ValidIdentifier, C.PortsOk, ByName, FindTarget;
    var d := cfg.databases[i];
    assert C.DatabaseOk(d, cfg);
    ByNameHasAll(cfg.databases, i);
    var j := ByNameIsLast(cfg.databases, d.virtualName);
    assert i == j;
    assert d.targets[k] in d.targets;
    var l := FindTargetIsLast(d.targets, d.targets[k].name);
    assert k == l;
  }

  /** On an accepted configuration, whatever becomes current can be dialled. */
  lemma CurrentIsDialable(cfg: C.Config, n: Octets, target: Octets, vars: Vars)
    requires C.Accepts(cfg) && n in ByName(cfg.databases)
    ensures var rt := Expected(ByName(cfg.databases)[n], cfg.forwardTargets, target, vars);
            rt.Some? ==> rt.value.host != [] && C.PortInRange(rt.value.port) && rt.value.user != []
  {
    hide C.ValidIdentifier, Meaning, ByName;
    var i := ByNameIsLast(cfg.databases, n);
    var d := ByName(cfg.databases)[n];
    assert d in cfg.databases;
    var rt := Expected(d, cfg.forwardTargets, target, vars);
    if rt.Some? {
      var t := FindTarget(d.targets, target).value;
      C.AcceptedEndpoints(cfg, d, t);
      assert C.DatabaseOk(d, cfg);
      assert C.TargetOk(t, cfg.forwardTargets);
    }
  }
}
