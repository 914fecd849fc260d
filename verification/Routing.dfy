/** Connections, the per-database registry, and the server that switches them all: serial execution. */
module Routing {
  import opened Octets
  import opened Variables
  import opened Switching
  import C = Config

  type Currents = map<Octets, Option<ResolvedTarget>>

  /** A registered (client, upstream) pair with a once-only close. */
  class Conn {
    const resolved: ResolvedTarget
    var database: Database?
    var done: bool
    /** How many times the guarded close body has run. */
    ghost var closes: nat

    ghost predicate Valid()
      reads this
    {
      closes == if done then 1 else 0
    }

    constructor (rt: ResolvedTarget)
      ensures resolved == rt && database == null && !done && Valid()
    {
      resolved, database, done, closes := rt, null, false, 0;
    }

    /** Close: the first call closes and deregisters, every later call does nothing. */
    method Close()
      requires Valid()
      modifies this`done, this`closes, (if database == null then {} else {database})`conns
      ensures Valid() && done
      ensures database != null && !old(done) ==> database.conns == old(database.conns) - {this}
      ensures database != null && old(done) ==> database.conns == old(database.conns)
    {
      if !done {
        done := true;
        closes := closes + 1;
        if database != null {
          database.Deregister(this);
        }
      }
    }
  }

  /** The routing state of one logical database. */
  class Database {
    const cfg: C.Database
    const fwd: Forwards
    var current: Option<ResolvedTarget>
    var conns: set<Conn>

    /** Registered connections belong here and are open. */
    ghost predicate Valid()
      reads this, conns
    {
      forall c :: c in conns ==> c.Valid() && !c.done && c.database == this
    }

    constructor (cfg: C.Database, fwd: Forwards)
      ensures this.cfg == cfg && this.fwd == fwd && current == None && conns == {} && Valid()
    {
      this.cfg, this.fwd, current, conns := cfg, fwd, None, {};
    }

    method Register(c: Conn)
      requires Valid() && c.Valid() && !c.done && c.database == null
      modifies this`conns, c`database
      ensures Valid() && conns == old(conns) + {c} && c.database == this
    {
      c.database := this;
      conns := conns + {c};
    }

    method Deregister(c: Conn)
      modifies this`conns
      ensures conns == old(conns) - {c}
    {
      conns := conns - {c};
    }

    /** dropAll: snapshot the registry, then close every connection of the snapshot. */
    method DropAll() returns (closed: nat)
      requires Valid()
      modifies this`conns, conns
      ensures Valid() && conns == {} && closed == |old(conns)|
      ensures forall c :: c in old(conns) ==> c.Valid() && c.done && c.database == old(c.database)
    {
      var snapshot := conns;
      var todo := snapshot;
      while todo != {}
        invariant todo <= snapshot && conns == todo
        invariant forall c :: c in snapshot ==> c.Valid() && c.database == this && (c.done <==> c !in todo)
        modifies this`conns, snapshot
        decreases |todo|
      {
        var c :| c in todo;
        c.Close();
        todo := todo - {c};
      }
      closed := |snapshot|;
    }

    /** Apply: store the new target, then drop every connection opened under the old one. */
    method Apply(rt: ResolvedTarget) returns (prev: Option<ResolvedTarget>, closed: nat)
      requires Valid()
      modifies this, conns
      ensures Valid() && current == Some(rt) && conns == {} && closed == |old(conns)| && prev == old(current)
      ensures forall c :: c in old(conns) ==> c.Valid() && c.done && c.database == old(c.database)
    {
      prev := current;
      current := Some(rt);
      closed := DropAll();
    }

    /** Clear: the same with no target. */
    method Clear() returns (prev: Option<ResolvedTarget>, closed: nat)
      requires Valid()
      modifies this, conns
      ensures Valid() && current == None && conns == {} && closed == |old(conns)| && prev == old(current)
      ensures forall c :: c in old(conns) ==> c.Valid() && c.done && c.database == old(c.database)
    {
      prev := current;
      current := None;
      closed := DropAll();
    }

    /** One database's commit: Apply its plan, or Clear it when it does not declare the target. */
    method Move(plan: Option<ResolvedTarget>) returns (prev: Option<ResolvedTarget>, closed: nat)
      requires Valid()
      modifies this, conns
      ensures Valid() && current == plan && conns == {} && closed == |old(conns)| && prev == old(current)
      ensures forall c :: c in old(conns) ==> c.Valid() && c.done && c.database == old(c.database)
    {
      match plan
      case Some(rt) => prev, closed := Apply(rt);
      case None => prev, closed := Clear();
    }
  }

  datatype Outcome =
    | Switched(results: seq<SwitchResult>)
    | PlanFailed(virtualName: Octets, missing: seq<Octets>)
    | NotDeclared

  /** Closed, each exactly once. */
  ghost predicate AllClosed(cs: set<Conn>)
    reads cs
  {
    forall c :: c in cs ==> c.done && c.closes == 1
  }

  /** Exactly one report for each database of `names`: what it moved from and to, and how many connections it dropped. */
  ghost predicate Reported(
    results: seq<SwitchResult>, was: Currents, now: Currents, had: map<Octets, set<Conn>>, names: set<Octets>)
    requires names <= was.Keys && names <= now.Keys && names <= had.Keys
  {
    && |results| == |names|
    && forall n :: n in names ==> exists k :: 0 <= k < |results| && Describes(results[k], n, was[n], now[n], |had[n]|)
  }

  lemma ReportedStep(
    results: seq<SwitchResult>, was: Currents, now: Currents, had: map<Octets, set<Conn>>, names: set<Octets>, n: Octets)
    requires names <= was.Keys && names <= now.Keys && names <= had.Keys
    requires n in was && n in now && n in had && n !in names
    requires Reported(results, was, now, had, names)
    ensures Reported(results + [Report(n, was[n], now[n], |had[n]|)], was, now, had, names + {n})
  {
    ReportDescribes(n, was[n], now[n], |had[n]|);
    hide Report, Describes;
    var more := results + [Report(n, was[n], now[n], |had[n]|)];
    forall m | m in names + {n}
      ensures exists k :: 0 <= k < |more| && Describes(more[k], m, was[m], now[m], |had[m]|)
    {
      if m == n {
        assert Describes(more[|results|], n, was[n], now[n], |had[n]|);
      } else {
        var k :| 0 <= k < |results| && Describes(results[k], m, was[m], now[m], |had[m]|);
        assert more[k] == results[k];
      }
    }
  }

  ghost function Union(had: map<Octets, set<Conn>>, names: set<Octets>): set<Conn>
    requires names <= had.Keys
  {
    set n, c | n in names && c in had[n] :: c
  }

  lemma OneMore(keys: set<Octets>, todo: set<Octets>, n: Octets)
    requires todo <= keys && n in todo
    ensures keys - todo + {n} == keys - (todo - {n}) && |todo - {n}| < |todo|
  {}

  lemma LoopNames(had: map<Octets, set<Conn>>, keys: set<Octets>, todo: set<Octets>, n: Octets)
    requires todo <= keys == had.Keys && n in todo
    ensures keys - todo + {n} == keys - (todo - {n}) && |todo - {n}| < |todo|
    ensures Union(had, keys - todo) + had[n] == Union(had, keys - (todo - {n}))
  {
    assert keys - todo + {n} == keys - (todo - {n});
  }

  lemma Updated<T>(was: map<Octets, T>, now: map<Octets, T>, n: Octets, v: T)
    requires was.Keys == now.Keys && n in was && now[n] == v && forall k :: k in was && k != n ==> now[k] == was[k]
    ensures now == was[n := v]
  {}

  /** `now` where the loop has been, `was` where it has yet to go. */
  ghost function Mixed<T>(was: map<Octets, T>, now: map<Octets, T>, todo: set<Octets>): (m: map<Octets, T>)
    requires was.Keys == now.Keys
    ensures m.Keys == was.Keys
  {
    map n | n in was :: if n in todo then was[n] else now[n]
  }

  lemma MixedEnds<T>(was: map<Octets, T>, now: map<Octets, T>)
    requires was.Keys == now.Keys
    ensures Mixed(was, now, was.Keys) == was && Mixed(was, now, {}) == now
  {}

  lemma MixedStep<T>(was: map<Octets, T>, now: map<Octets, T>, todo: set<Octets>, n: Octets)
    requires was.Keys == now.Keys && n in was && n in todo
    ensures Mixed(was, now, todo)[n] == was[n]
    ensures Mixed(was, now, todo)[n := now[n]] == Mixed(was, now, todo - {n})
  {}

  /** The error a failed switch returns names a database that cannot resolve the target, with its missing variables. */
  predicate Explains(o: Outcome, ds: Databases, fwd: Forwards, target: Octets, vars: Vars) {
    match o
    case Switched(_) => false
    case NotDeclared => forall n :: n in ds ==> !HasTarget(ds[n], target)
    case PlanFailed(n, missing) =>
      && n in ds && HasTarget(ds[n], target)
      && match ResolveTarget(ds[n], fwd, target, vars)
         case Planned(_) => false
         case MissingVars(names) => missing == names
         case Unresolvable => missing == []
  }

  class Server {
    const databases: map<Octets, Database>
    const fwd: Forwards
    var currentTarget: Octets
    var currentVars: Vars
    var closed: bool

    /** Names map to distinct databases, each sound on its own. */
    ghost predicate Valid()
      reads databases.Values, Conns()
    {
      && (forall n :: n in databases ==> databases[n].Valid() && databases[n].fwd == fwd)
      && (forall m, n :: m in databases && n in databases && m != n ==> databases[m] != databases[n])
    }

    /** Every registered connection of every database. */
    ghost function Conns(): set<Conn>
      reads databases.Values
    {
      set n, c | n in databases && c in databases[n].conns :: c
    }

    ghost function Configs(): Databases
    {
      map n | n in databases :: databases[n].cfg
    }

    ghost function Currents(): (m: Currents)
      reads databases.Values
      ensures m.Keys == databases.Keys
    {
      map n | n in databases :: databases[n].current
    }

    ghost function Registered(): (m: map<Octets, set<Conn>>)
      reads databases.Values
      ensures m.Keys == databases.Keys
    {
      map n | n in databases :: databases[n].conns
    }

    /** The abstract routing state. */
    ghost function View(): State
      reads this, databases.Values
    {
      State(Currents(), currentTarget, currentVars)
    }

    constructor (databases: map<Octets, Database>, fwd: Forwards, vars: Vars)
      requires forall n :: n in databases ==> databases[n].Valid() && databases[n].fwd == fwd
      requires forall m, n :: m in databases && n in databases && m != n ==> databases[m] != databases[n]
      ensures this.databases == databases && this.fwd == fwd && currentVars == vars && !closed && Valid()
    {
      this.databases, this.fwd, currentTarget, currentVars, closed := databases, fwd, [], vars, false;
    }

    /** lookupDatabase: routing never crosses adapters. */
    method LookupDatabase(adapter: Octets, name: Octets) returns (d: Database?)
      ensures d != null <==> name in databases && databases[name].cfg.adapter == adapter
      ensures d != null ==> d == databases[name] && d.cfg.adapter == adapter
    {
      if name !in databases || databases[name].cfg.adapter != adapter {
        return null;
      }
      d := databases[name];
    }

    /** Phase 1 of SwitchAll: resolve everywhere, touch nothing. */
    method Plan(target: Octets, vars: Vars) returns (fail: Option<Outcome>, plans: map<Octets, Option<ResolvedTarget>>)
      ensures fail.None? <==> Succeeds(Configs(), fwd, target, vars)
      ensures fail.None? ==> plans.Keys == databases.Keys
      ensures fail.None? ==> forall n :: n in databases ==> plans[n] == Expected(databases[n].cfg, fwd, target, vars)
      ensures fail.Some? ==> Explains(fail.value, Configs(), fwd, target, vars)
    {
      hide *;
      ghost var ds := Configs();
      ConfigsAt();
      plans := map[];
      var declared := 0;
      var todo := databases.Keys;
      assert plans.Keys == {};
      PlanStart(ds, fwd, target, vars);
      while todo != {}
        invariant todo <= ds.Keys
        invariant plans.Keys == ds.Keys - todo && PlannedSoFar(plans, ds, fwd, target, vars)
        invariant declared != 0 <==> Declared(plans.Keys, ds, target)
        decreases |todo|
      {
        var name :| name in todo;
        var d := databases[name].cfg;
        OneMore(ds.Keys, todo, name);
        PlanStep(plans, ds, fwd, target, vars, name);
        if !HasTarget(d, target) {
          plans := plans[name := None];
        } else {
          declared := declared + 1;
          var r := ResolveTarget(d, fwd, target, vars);
          if !r.Planned? {
            NotPlanned(ds, fwd, target, vars, name);
            return Some(PlanFailed(name, if r.MissingVars? then r.names else [])), plans;
          }
          plans := plans[name := Some(r.rt)];
        }
        todo := todo - {name};
      }
      PlanEnd(plans, ds, fwd, target, vars);
      if declared == 0 {
        return Some(NotDeclared), plans;
      }
      fail := None;
    }

    /** One iteration of phase 2; `closed` are connections closed so far, which stay so. */
    method MoveDatabase(name: Octets, plan: Option<ResolvedTarget>, ghost closed: set<Conn>) returns (r: SwitchResult)
      requires Valid() && name in databases && AllClosed(closed)
      modifies databases[name], databases[name].conns
      ensures Valid() && databases[name].current == plan && databases[name].conns == {}
      ensures forall n :: n in databases && n != name ==>
                databases[n].current == old(databases[n].current) && databases[n].conns == old(databases[n].conns)
      ensures r == Report(name, old(databases[name].current), plan, |old(databases[name].conns)|)
      ensures AllClosed(closed + old(databases[name].conns))
    {
      hide Report;
      ghost var d := databases[name];
      assert closed !! d.conns;
      var prev, n := databases[name].Move(plan);
      r := Report(name, prev, plan, n);
      assert forall n :: n in databases && n != name ==> databases[n].conns !! old(d.conns);
    }

    /** The same iteration on the server's maps. */
    method MoveOne(name: Octets, plan: Option<ResolvedTarget>, ghost closed: set<Conn>) returns (r: SwitchResult)
      requires Valid() && name in databases && AllClosed(closed)
      modifies databases[name], databases[name].conns
      ensures Valid()
      ensures Currents() == old(Currents())[name := plan] && Registered() == old(Registered())[name := {}]
      ensures r == Report(name, old(databases[name].current), plan, |old(databases[name].conns)|)
      ensures AllClosed(closed + old(databases[name].conns))
    {
      hide *;
      ghost var was, had := Currents(), Registered();
      ViewsAt();
      r := MoveDatabase(name, plan, closed);
      ViewsAt();
      Updated(was, Currents(), name, plan);
      Updated(had, Registered(), name, {});
    }

    /** Phase 2 of SwitchAll: move every database to its plan, close what was registered, report each one once. */
    method Commit(plans: map<Octets, Option<ResolvedTarget>>) returns (results: seq<SwitchResult>)
      requires Valid() && plans.Keys == databases.Keys
      modifies databases.Values, Conns()
      ensures Valid() && Currents() == plans && Conns() == {}
      ensures Reported(results, old(Currents()), plans, old(Registered()), databases.Keys)
      ensures AllClosed(old(Conns()))
    {
      hide *;
      ghost var was, had, all := Currents(), Registered(), Conns();
      ghost var none: map<Octets, set<Conn>> := map n | n in databases :: {};
      CommitStart(plans, none);
      var todo := databases.Keys;
      results := [];
      ghost var closed: set<Conn> := {};
      while todo != {}
        invariant todo <= databases.Keys && Valid()
        invariant Currents() == Mixed(was, plans, todo) && Registered() == Mixed(had, none, todo)
        invariant Reported(results, was, plans, had, databases.Keys - todo)
        invariant closed == Union(had, databases.Keys - todo) && AllClosed(closed)
        modifies databases.Values, all
        decreases |todo|
      {
        var name :| name in todo;
        MixedStep(was, plans, todo, name);
        MixedStep(had, none, todo, name);
        ViewsAt();
        assert databases[name] in databases.Values;
        var r := MoveOne(name, plans[name], closed);
        ReportedStep(results, was, plans, had, databases.Keys - todo, name);
        results := results + [r];
        closed := closed + had[name];
        LoopNames(had, databases.Keys, todo, name);
        todo := todo - {name};
      }
      assert databases.Keys - todo == databases.Keys;
      CommitEnd(none);
    }

    /** Commit, then publish the new global target and variables. */
    method Install(plans: Currents, target: Octets, vars: Vars) returns (results: seq<SwitchResult>)
      requires Valid() && plans.Keys == databases.Keys
      modifies this, databases.Values, Conns()
      ensures Valid() && View() == State(plans, target, vars) && Currents() == plans && closed == old(closed)
      ensures Reported(results, old(Currents()), plans, old(Registered()), databases.Keys)
      ensures Conns() == {} && AllClosed(old(Conns()))
    {
      hide Valid, Reported, AllClosed, Currents, Registered;
      results := Commit(plans);
      currentTarget, currentVars := target, vars;
    }

    /** SwitchAll: plan every database, then commit, or touch nothing. */
    method SwitchAll(target: Octets, vars: Vars) returns (o: Outcome)
      requires Valid()
      modifies this, databases.Values, Conns()
      ensures Valid() && View() == Step(Configs(), fwd, old(View()), Call(target, vars)) && closed == old(closed)
      ensures o.Switched? <==> Succeeds(Configs(), fwd, target, vars)
      ensures o.Switched? ==>
                && Reported(o.results, old(Currents()), Currents(), old(Registered()), databases.Keys)
                && Conns() == {} && AllClosed(old(Conns()))
      ensures !o.Switched? ==> Explains(o, Configs(), fwd, target, vars)
      ensures !o.Switched? ==> Registered() == old(Registered())
    {
      hide Valid, Succeeds, Step, Explains, Reported, AllClosed, View, Currents, Registered, Configs, Expected;
      ghost var before := View();
      var fail, plans := Plan(target, vars);
      if fail.Some? {
        StepFails(Configs(), fwd, before, Call(target, vars));
        ExplainsFails(fail.value, Configs(), fwd, target, vars);
        return fail.value;
      }
      ConfigsAt();
      StepSucceeds(Configs(), fwd, before, Call(target, vars), plans);
      var results := Install(plans, target, vars);
      o := Switched(results);
    }

    /** One database's share of Shutdown. */
    method DropOne(name: Octets, ghost closed: set<Conn>)
      requires Valid() && name in databases && AllClosed(closed)
      modifies databases[name], databases[name].conns
      ensures Valid() && databases[name].conns == {}
      ensures forall n :: n in databases ==> databases[n].current == old(databases[n].current)
      ensures forall n :: n in databases && n != name ==> databases[n].conns == old(databases[n].conns)
      ensures AllClosed(closed + old(databases[name].conns))
    {
      ghost var d := databases[name];
      assert closed !! d.conns;
      var _ := databases[name].DropAll();
      assert forall n :: n in databases && n != name ==> databases[n].conns !! old(d.conns);
    }

    /** The same on the server's maps. */
    method DropDatabase(name: Octets, ghost closed: set<Conn>)
      requires Valid() && name in databases && AllClosed(closed)
      modifies databases[name], databases[name].conns
      ensures Valid() && Currents() == old(Currents()) && Registered() == old(Registered())[name := {}]
      ensures AllClosed(closed + old(databases[name].conns))
    {
      hide *;
      ghost var was, had := Currents(), Registered();
      ViewsAt();
      DropOne(name, closed);
      ViewsAt();
      Updated(was, Currents(), name, was[name]);
      Updated(had, Registered(), name, {});
    }

    /** The drop loop of Shutdown. */
    method DropEverything()
      requires Valid()
      modifies databases.Values, Conns()
      ensures Valid() && Currents() == old(Currents()) && Conns() == {} && AllClosed(old(Conns()))
    {
      hide *;
      ghost var was, had, all := Currents(), Registered(), Conns();
      ghost var none: map<Octets, set<Conn>> := map n | n in databases :: {};
      CommitStart(was, none);
      var todo := databases.Keys;
      ghost var shut: set<Conn> := {};
      while todo != {}
        invariant todo <= databases.Keys && Valid()
        invariant Currents() == was && Registered() == Mixed(had, none, todo)
        invariant shut == Union(had, databases.Keys - todo) && AllClosed(shut)
        modifies databases.Values, all
        decreases |todo|
      {
        var name :| name in todo;
        MixedStep(had, none, todo, name);
        ViewsAt();
        assert databases[name] in databases.Values;
        DropDatabase(name, shut);
        shut := shut + had[name];
        LoopNames(had, databases.Keys, todo, name);
        todo := todo - {name};
      }
      assert databases.Keys - todo == databases.Keys;
      CommitEnd(none);
    }

    /** Shutdown: the first call closes every registered connection and keeps every target; later calls do nothing. */
    method Shutdown()
      requires Valid()
      modifies this`closed, databases.Values, Conns()
      ensures Valid() && closed && View() == old(View())
      ensures old(closed) ==> Registered() == old(Registered())
      ensures !old(closed) ==> Conns() == {} && AllClosed(old(Conns()))
    {
      hide Valid, AllClosed, Currents, Registered;
      if closed {
        return;
      }
      closed := true;
      DropEverything();
    }

    lemma CommitStart(plans: Currents, none: map<Octets, set<Conn>>)
      requires plans.Keys == databases.Keys && none == map n | n in databases :: {}
      ensures var keys := databases.Keys; var was := Currents(); var had := Registered();
              && was.Keys == had.Keys == none.Keys == keys
              && Mixed(was, plans, keys) == was && Mixed(had, none, keys) == had
              && Mixed(was, plans, {}) == plans && Mixed(had, none, {}) == none
              && Reported([], was, plans, had, keys - keys)
              && Union(had, keys - keys) == {} && Union(had, keys) == Conns() && AllClosed({})
              && forall n :: n in keys ==> had[n] <= Conns()
    {
      MixedEnds(Currents(), plans);
      MixedEnds(Registered(), none);
      ViewsAt();
    }

    lemma CommitEnd(none: map<Octets, set<Conn>>)
      requires Registered() == none == map n | n in databases :: {}
      ensures Conns() == {}
    {
      forall c | c in Conns()
        ensures false
      {
        ViewsAt();
      }
    }

    lemma ViewsAt()
      ensures forall n :: n in databases ==> Currents()[n] == databases[n].current
      ensures forall n :: n in databases ==> Registered()[n] == databases[n].conns <= Conns()
      ensures forall c :: c in Conns() ==> exists n :: n in databases && c in Registered()[n]
    {}

    lemma ConfigsAt()
      ensures Configs().Keys == databases.Keys && forall n :: n in databases ==> Configs()[n] == databases[n].cfg
    {}
  }

  /** The plans made so far are the expected ones. */
  ghost predicate PlannedSoFar(plans: Currents, ds: Databases, fwd: Forwards, target: Octets, vars: Vars) {
    forall n :: n in plans ==> n in ds && PlanOk(ds[n], fwd, target, vars) && plans[n] == Expected(ds[n], fwd, target, vars)
  }

  ghost predicate Declared(names: set<Octets>, ds: Databases, target: Octets) {
    exists n :: n in names && n in ds && HasTarget(ds[n], target)
  }

  lemma PlanStart(ds: Databases, fwd: Forwards, target: Octets, vars: Vars)
    ensures PlannedSoFar(map[], ds, fwd, target, vars) && !Declared({}, ds, target)
  {}

  lemma PlanStep(plans: Currents, ds: Databases, fwd: Forwards, target: Octets, vars: Vars, n: Octets)
    requires n in ds && n !in plans && PlannedSoFar(plans, ds, fwd, target, vars)
    ensures plans[n := None].Keys == plans.Keys + {n}
    ensures !HasTarget(ds[n], target) ==>
              && PlannedSoFar(plans[n := None], ds, fwd, target, vars)
              && (Declared(plans.Keys + {n}, ds, target) <==> Declared(plans.Keys, ds, target))
    ensures HasTarget(ds[n], target) ==> Declared(plans.Keys + {n}, ds, target)
    ensures var r := ResolveTarget(ds[n], fwd, target, vars);
            HasTarget(ds[n], target) && r.Planned? ==>
              && PlannedSoFar(plans[n := Some(r.rt)], ds, fwd, target, vars)
              && plans[n := Some(r.rt)].Keys == plans.Keys + {n}
  {
    hide HasTarget, ResolveTarget, Realises, C.ValidIdentifier, FindTarget;
  }

  lemma PlanEnd(plans: Currents, ds: Databases, fwd: Forwards, target: Octets, vars: Vars)
    requires plans.Keys == ds.Keys && PlannedSoFar(plans, ds, fwd, target, vars)
    ensures Succeeds(ds, fwd, target, vars) <==> Declared(plans.Keys, ds, target)
    ensures !Declared(plans.Keys, ds, target) ==> Explains(NotDeclared, ds, fwd, target, vars)
    ensures forall n :: n in ds ==> plans[n] == Expected(ds[n], fwd, target, vars)
  {
    hide HasTarget, ResolveTarget, Expected, PlanOk;
  }

  lemma NotPlanned(ds: Databases, fwd: Forwards, target: Octets, vars: Vars, n: Octets)
    requires n in ds && HasTarget(ds[n], target) && !ResolveTarget(ds[n], fwd, target, vars).Planned?
    ensures !Succeeds(ds, fwd, target, vars)
    ensures var r := ResolveTarget(ds[n], fwd, target, vars);
            Explains(PlanFailed(n, if r.MissingVars? then r.names else []), ds, fwd, target, vars)
  {
    assert !PlanOk(ds[n], fwd, target, vars);
  }

  lemma StepFails(ds: Databases, fwd: Forwards, s: State, c: Call)
    requires !Succeeds(ds, fwd, c.target, c.vars)
    ensures Step(ds, fwd, s, c) == s
  {}

  lemma StepSucceeds(ds: Databases, fwd: Forwards, s: State, c: Call, plans: Currents)
    requires Succeeds(ds, fwd, c.target, c.vars) && plans.Keys == ds.Keys
    requires forall n :: n in ds ==> plans[n] == Expected(ds[n], fwd, c.target, c.vars)
    ensures Step(ds, fwd, s, c) == State(plans, c.target, c.vars)
  {}

  lemma ExplainsFails(o: Outcome, ds: Databases, fwd: Forwards, target: Octets, vars: Vars)
    requires Explains(o, ds, fwd, target, vars)
    ensures !o.Switched?
  {}

  lemma ByNameStep(ds: seq<C.Database>, i: nat)
    requires i < |ds|
    ensures ByName(ds[..i + 1]) == ByName(ds[..i])[ds[i].virtualName := ds[i]]
  {
    assert ds[..i + 1][..i] == ds[..i];
  }

  /** One fresh Database per virtual name. */
  method BuildDatabases(cfg: C.Config) returns (databases: map<Octets, Database>)
    ensures databases.Keys == ByName(cfg.databases).Keys
    ensures forall n :: n in databases ==>
              && fresh(databases[n]) && databases[n].conns == {}
              && databases[n].cfg == ByName(cfg.databases)[n] && databases[n].fwd == cfg.forwardTargets
    ensures forall m, n :: m in databases && n in databases && m != n ==> databases[m] != databases[n]
  {
    hide *;
    databases := map[];
    assert ByName(cfg.databases[..0]) == map[] by { ByNameEmpty(cfg.databases); }
    for i := 0 to |cfg.databases|
      invariant databases.Keys == ByName(cfg.databases[..i]).Keys
      invariant forall n :: n in databases ==>
                  && fresh(databases[n]) && databases[n].conns == {}
                  && databases[n].cfg == ByName(cfg.databases[..i])[n] && databases[n].fwd == cfg.forwardTargets
      invariant forall m, n :: m in databases && n in databases && m != n ==> databases[m] != databases[n]
    {
      var d := cfg.databases[i];
      ByNameStep(cfg.databases, i);
      var db := new Database(d, cfg.forwardTargets);
      databases := databases[d.virtualName := db];
    }
    assert cfg.databases[..|cfg.databases|] == cfg.databases;
  }

  lemma ByNameEmpty(ds: seq<C.Database>)
    ensures ByName(ds[..0]) == map[]
  {}

  /** The listen port of every adapter in use; none when one of them has no port. */
  method BindPorts(cfg: C.Config) returns (ports: Option<map<Octets, int>>)
    ensures ports.None? <==> exists a :: a in C.UsedAdapters(cfg) && a !in cfg.listenPorts
    ensures ports.Some? ==> ports.value == map a | a in C.UsedAdapters(cfg) :: cfg.listenPorts[a]
    ensures C.Accepts(cfg) ==> ports.Some?
  {
    if C.Accepts(cfg) {
      forall a | a in C.UsedAdapters(cfg)
        ensures a in cfg.listenPorts
      {
        C.AcceptedListeners(cfg, a, a);
      }
    }
    hide *;
    var addrs: map<Octets, int> := map[];
    var todo := C.UsedAdapters(cfg);
    while todo != {}
      invariant todo <= C.UsedAdapters(cfg) && addrs.Keys == C.UsedAdapters(cfg) - todo
      invariant forall a :: a in addrs ==> a in cfg.listenPorts && addrs[a] == cfg.listenPorts[a]
      decreases |todo|
    {
      var a :| a in todo;
      if a !in cfg.listenPorts {
        return None;
      }
      addrs := addrs[a := cfg.listenPorts[a]];
      todo := todo - {a};
    }
    ports := Some(addrs);
  }

  lemma StepAgrees(ds: Databases, fwd: Forwards, s: State, c: Call)
    requires Succeeds(ds, fwd, c.target, c.vars)
    ensures Agrees(ds, fwd, Step(ds, fwd, s, c))
    ensures Step(ds, fwd, s, c).target == c.target && Step(ds, fwd, s, c).vars == c.vars
  {}

  /** New: one database per configured name, one listener per adapter in use, then the first switch. */
  method New(cfg: C.Config, target: Octets, vars: Vars) returns (s: Server?)
    ensures s != null ==>
              && Succeeds(ByName(cfg.databases), cfg.forwardTargets, target, vars)
              && forall a :: a in C.UsedAdapters(cfg) ==> a in cfg.listenPorts
    ensures s == null && Succeeds(ByName(cfg.databases), cfg.forwardTargets, target, vars) ==>
              !C.Accepts(cfg) && exists a :: a in C.UsedAdapters(cfg) && a !in cfg.listenPorts
    ensures s != null ==>
              && fresh(s) && s.Valid() && !s.closed && s.Conns() == {}
              && s.fwd == cfg.forwardTargets && s.Configs() == ByName(cfg.databases)
              && s.currentTarget == target && s.currentVars == vars
              && Agrees(s.Configs(), s.fwd, s.View())
  {
    hide Succeeds, Agrees, ByName, Step, C.Accepts, C.UsedAdapters, Explains, Reported;
    var databases := BuildDatabases(cfg);
    var ports := BindPorts(cfg);
    if ports.None? {
      return null;
    }
    var server := new Server(databases, cfg.forwardTargets, vars);
    assert server.Configs() == ByName(cfg.databases);
    ghost var before := server.View();
    var o := server.SwitchAll(target, vars);
    if !o.Switched? {
      return null;
    }
    StepAgrees(server.Configs(), server.fwd, before, Call(target, vars));
    s := server;
  }
}
