/** Connection handlers and switches running concurrently on one database, one atomic action at a time. */
module Interleaving {
  import opened Octets

  /** A resolved target, by identity. */
  type Target = nat

  /** Threads: the handler of connection `h`, or the switch `w`. */
  datatype Thread = H(h: nat) | S(w: nat)

  /** Where the body guarded by closeOnce stands. */
  datatype Phase =
    | Ends     // about to close both sockets
    | Want     // waiting for the registry mutex
    | Held     // holds it, about to delete the connection
    | Cleared  // deleted, about to unlock
    | Leave    // about to mark the once done and return

  /** sync.Once: while Running, other callers wait. */
  datatype Once = Fresh | Running(owner: Thread, at: Phase) | Done

  datatype HandlerPc =
    | Idle | Loaded | Dialled          // before Current, before and after dial and auth
    | Locked | Inserted                // inside Register, holding the mutex
    | Piping | Closing | Ended

  /** A handler and the connection it owns. `version` counts the stores seen by its load; `regAt` is 0 until it registers. */
  datatype Handler = Handler(pc: HandlerPc, target: Option<Target>, version: nat, regAt: nat, once: Once, runs: nat)

  /** Apply stores a target, Clear stores none, Shutdown's DropAll stores nothing. */
  datatype Plan = Store(value: Option<Target>) | DropOnly

  datatype SwitcherPc =
    | Begin | Stored
    | Holding | Snapped                // inside the mutex, before and after the snapshot
    | Looping | Dropping(c: nat) | Finished

  datatype Switcher = Switcher(pc: SwitcherPc, plan: Plan, version: nat, snapAt: nat, taken: set<nat>, left: set<nat>)

  /** `log` is every value `current` has held; `clock` orders insertions and snapshots. */
  datatype State = State(
    log: seq<Option<Target>>, mu: Option<Thread>, conns: set<nat>, clock: nat, hs: seq<Handler>, ss: seq<Switcher>)

  datatype Action = Accept | Use(plan: Plan) | HandlerStep(h: nat, ok: bool) | SwitcherStep(w: nat, pick: nat)

  const INITIAL := State([None], None, {}, 0, [], [])

  function NewHandler(): Handler {
    Handler(Idle, None, 0, 0, Fresh, 0)
  }

  // ---------------------------------------------------------------- steps

  /** Conn.Close by thread `t` can move: it waits while another thread runs the body, and for the mutex inside it. */
  predicate CanClose(s: State, t: Thread, c: nat)
    requires c < |s.hs|
  {
    match s.hs[c].once
    case Fresh => true
    case Done => true
    case Running(owner, at) => owner == t && (at == Want ==> s.mu.None?)
  }

  function SetOnce(s: State, c: nat, once: Once): State
    requires c < |s.hs|
  {
    s.(hs := s.hs[c := s.hs[c].(once := once)])
  }

  /** One action of Conn.Close, and whether the call has returned. */
  function CloseNext(s: State, t: Thread, c: nat): (State, bool)
    requires c < |s.hs|
  {
    match s.hs[c].once
    case Done => (s, true)
    case Fresh => (SetOnce(s, c, Running(t, Ends)), false)
    case Running(_, Ends) =>
      (s.(hs := s.hs[c := s.hs[c].(once := Running(t, Want), runs := s.hs[c].runs + 1)]), false)
    case Running(_, Want) => (SetOnce(s, c, Running(t, Held)).(mu := Some(t)), false)
    case Running(_, Held) => (SetOnce(s, c, Running(t, Cleared)).(conns := s.conns - {c}), false)
    case Running(_, Cleared) => (SetOnce(s, c, Running(t, Leave)).(mu := None), false)
    case Running(_, Leave) => (SetOnce(s, c, Done), true)
  }

  function SetHandler(s: State, h: nat, pc: HandlerPc): State
    requires h < |s.hs|
  {
    s.(hs := s.hs[h := s.hs[h].(pc := pc)])
  }

  function SetSwitcher(s: State, w: nat, pc: SwitcherPc): State
    requires w < |s.ss|
  {
    s.(ss := s.ss[w := s.ss[w].(pc := pc)])
  }

  predicate Enabled(s: State, a: Action) {
    match a
    case Accept => true
    case Use(_) => true
    case HandlerStep(h, _) =>
      && h < |s.hs|
      && (match s.hs[h].pc
          case Dialled => s.mu.None?
          case Closing => CanClose(s, H(h), h)
          case Ended => false
          case _ => true)
    case SwitcherStep(w, pick) =>
      && w < |s.ss|
      && (match s.ss[w].pc
          case Stored => s.mu.None?
          case Looping => s.ss[w].left == {} || pick in s.ss[w].left
          case Dropping(c) => c < |s.hs| && CanClose(s, S(w), c)
          case Finished => false
          case _ => true)
  }

  function HandlerNext(s: State, h: nat, ok: bool): State
    requires Enabled(s, HandlerStep(h, ok)) && s.log != []
  {
    var x := s.hs[h];
    match x.pc
    case Idle =>
      var current := s.log[|s.log| - 1];
      if current.None? then SetHandler(s, h, Ended)
      else s.(hs := s.hs[h := x.(pc := Loaded, target := current, version := |s.log|)])
    case Loaded => SetHandler(s, h, if ok then Dialled else Ended)
    case Dialled => SetHandler(s, h, Locked).(mu := Some(H(h)))
    case Locked =>
      s.(hs := s.hs[h := x.(pc := Inserted, regAt := s.clock + 1)], conns := s.conns + {h}, clock := s.clock + 1)
    case Inserted => SetHandler(s, h, Piping).(mu := None)
    case Piping => SetHandler(s, h, Closing)
    case Closing =>
      var (s', returned) := CloseNext(s, H(h), h);
      if returned then SetHandler(s', h, Ended) else s'
    case Ended => s
  }

  function SwitcherNext(s: State, w: nat, pick: nat): State
    requires Enabled(s, SwitcherStep(w, pick))
  {
    var x := s.ss[w];
    match x.pc
    case Begin =>
      (match x.plan
       case Store(v) => s.(log := s.log + [v], ss := s.ss[w := x.(pc := Stored, version := |s.log| + 1)])
       case DropOnly => s.(ss := s.ss[w := x.(pc := Stored, version := |s.log|)]))
    case Stored => SetSwitcher(s, w, Holding).(mu := Some(S(w)))
    case Holding =>
      s.(clock := s.clock + 1,
         ss := s.ss[w := x.(pc := Snapped, snapAt := s.clock + 1, taken := s.conns, left := s.conns)])
    case Snapped => SetSwitcher(s, w, Looping).(mu := None)
    case Looping =>
      if x.left == {} then SetSwitcher(s, w, Finished)
      else s.(ss := s.ss[w := x.(pc := Dropping(pick), left := x.left - {pick})])
    case Dropping(c) =>
      var (s', returned) := CloseNext(s, S(w), c);
      if returned then SetSwitcher(s', w, Looping) else s'
    case Finished => s
  }

  function Next(s: State, a: Action): State
    requires Enabled(s, a) && s.log != []
  {
    match a
    case Accept => s.(hs := s.hs + [NewHandler()])
    case Use(plan) => s.(ss := s.ss + [Switcher(Begin, plan, 0, 0, {}, {})])
    case HandlerStep(h, ok) => HandlerNext(s, h, ok)
    case SwitcherStep(w, pick) => SwitcherNext(s, w, pick)
  }

  // ---------------------------------------------------------------- what every step keeps

  /** The connection has left the registry for good. */
  predicate Removed(once: Once) {
    once.Done? || (once.Running? && (once.at == Cleared || once.at == Leave))
  }

  predicate InMutex(once: Once) {
    once.Running? && (once.at == Held || once.at == Cleared)
  }

  function Ran(once: Once): nat {
    if once.Fresh? || (once.Running? && once.at == Ends) then 0 else 1
  }

  predicate HandlerOk(x: Handler, h: nat, conns: set<nat>, clock: nat, log: seq<Option<Target>>) {
    && (x.pc.Inserted? || x.pc.Piping? || x.pc.Closing? ==> x.regAt > 0)
    && (x.pc.Idle? || x.pc.Loaded? || x.pc.Dialled? || x.pc.Locked? ==> x.regAt == 0)
    && (x.pc.Ended? && x.regAt > 0 ==> x.once.Done?)
    && (x.regAt == 0 ==> x.once.Fresh?)
    && x.regAt <= clock
    && x.runs == Ran(x.once)
    && (h in conns <==> x.regAt > 0 && !Removed(x.once))
    && (x.pc.Idle? ==> x.version == 0)
    && (x.regAt > 0 || x.pc.Loaded? || x.pc.Dialled? || x.pc.Locked? ==> x.version > 0)
    && x.version <= |log| && (x.version > 0 ==> x.target == log[x.version - 1] && x.target.Some?)
  }

  predicate HandlersOk(s: State) {
    && s.log != []
    && (forall c :: c in s.conns ==> c < |s.hs|)
    && forall h :: 0 <= h < |s.hs| ==> HandlerOk(s.hs[h], h, s.conns, s.clock, s.log)
  }

  /** The body of a close is run by a thread that is closing that connection. */
  predicate OwnerOk(s: State, c: nat)
    requires c < |s.hs|
  {
    s.hs[c].once.Running? ==>
      match s.hs[c].once.owner
      case H(h) => h == c && s.hs[c].pc.Closing?
      case S(w) => w < |s.ss| && s.ss[w].pc == Dropping(c)
  }

  predicate OwnersOk(s: State) {
    forall c :: 0 <= c < |s.hs| ==> OwnerOk(s, c)
  }

  /** `t` is at a point of its code where it holds the mutex. */
  predicate Holds(s: State, t: Thread) {
    match t
    case H(h) =>
      && h < |s.hs|
      && (s.hs[h].pc.Locked? || s.hs[h].pc.Inserted?
          || (s.hs[h].pc.Closing? && InMutex(s.hs[h].once) && s.hs[h].once.owner == t))
    case S(w) =>
      && w < |s.ss|
      && (s.ss[w].pc.Holding? || s.ss[w].pc.Snapped?
          || (s.ss[w].pc.Dropping? && s.ss[w].pc.c < |s.hs|
              && InMutex(s.hs[s.ss[w].pc.c].once) && s.hs[s.ss[w].pc.c].once.owner == t))
  }

  /** The mutex says exactly who holds it. */
  ghost predicate MutexOk(s: State) {
    forall t :: Holds(s, t) <==> s.mu == Some(t)
  }

  predicate SwitcherOk(x: Switcher, hs: seq<Handler>, clock: nat, log: seq<Option<Target>>) {
    && x.version <= |log|
    && (x.pc.Begin? || (x.version > 0 && (x.plan.Store? ==> log[x.version - 1] == x.plan.value)))
    && (x.pc.Begin? || x.pc.Stored? || x.pc.Holding? ==> x.taken == {} && x.snapAt == 0)
    && x.snapAt <= clock && x.left <= x.taken
    && (x.pc.Finished? ==> x.left == {})
    && (x.pc.Dropping? ==> x.pc.c in x.taken && x.pc.c !in x.left)
    && (forall c :: c in x.taken ==> c < |hs| && 0 < hs[c].regAt <= x.snapAt)
    && (forall c :: c in x.taken ==> c in x.left || x.pc == Dropping(c) || hs[c].once.Done?)
    && (forall c :: 0 <= c < |hs| && 0 < hs[c].regAt <= x.snapAt ==> c in x.taken || Removed(hs[c].once))
  }

  predicate SwitchersOk(s: State) {
    forall w :: 0 <= w < |s.ss| ==> SwitcherOk(s.ss[w], s.hs, s.clock, s.log)
  }

  ghost predicate Inv(s: State) {
    HandlersOk(s) && OwnersOk(s) && MutexOk(s) && SwitchersOk(s)
  }

  // Only `t` changes its standing towards the mutex.
  lemma MutexStep(s: State, s': State, t: Thread)
    requires MutexOk(s)
    requires forall u :: u != t ==> (Holds(s', u) <==> Holds(s, u))
    requires if s.mu == Some(t) || s.mu.None? then s'.mu == (if Holds(s', t) then Some(t) else None)
             else s'.mu == s.mu && !Holds(s', t)
    ensures MutexOk(s')
  {
    forall u
      ensures Holds(s', u) <==> s'.mu == Some(u)
    {
      assert Holds(s, u) <==> s.mu == Some(u);
      assert Holds(s, t) <==> s.mu == Some(t);
    }
  }

  /** How the connections can change: registration happens once, now; closing is never undone. */
  predicate Later(hs: seq<Handler>, hs': seq<Handler>, clock: nat) {
    && |hs| <= |hs'|
    && (forall c :: 0 <= c < |hs| ==>
          && (hs'[c].regAt == hs[c].regAt || (hs[c].regAt == 0 && hs'[c].regAt > clock))
          && (hs[c].once.Done? ==> hs'[c].once.Done?) && (Removed(hs[c].once) ==> Removed(hs'[c].once)))
    && forall c :: |hs| <= c < |hs'| ==> hs'[c].regAt == 0
  }

  lemma SwitcherStays(x: Switcher, s: State, s': State)
    requires SwitcherOk(x, s.hs, s.clock, s.log) && Later(s.hs, s'.hs, s.clock)
    requires s.clock <= s'.clock && s.log <= s'.log
    ensures SwitcherOk(x, s'.hs, s'.clock, s'.log)
  {
    hide Removed;
  }

  lemma HandlerStays(x: Handler, h: nat, s: State, s': State)
    requires HandlerOk(x, h, s.conns, s.clock, s.log)
    requires h in s'.conns <==> h in s.conns
    requires s.clock <= s'.clock && s.log <= s'.log
    ensures HandlerOk(x, h, s'.conns, s'.clock, s'.log)
  {
    hide Removed, Ran;
  }

  /** `t` has called Close on `c`. */
  predicate Closes(s: State, t: Thread, c: nat) {
    && c < |s.hs|
    && match t
       case H(h) => h == c && s.hs[c].pc.Closing?
       case S(w) => w < |s.ss| && s.ss[w].pc == Dropping(c)
  }

  /** One action of Close touches one connection, whose body moves one phase on. */
  lemma CloseShape(s: State, t: Thread, c: nat)
    requires HandlersOk(s) && SwitchersOk(s) && Closes(s, t, c) && CanClose(s, t, c)
    ensures var (s', returned) := CloseNext(s, t, c);
            && s'.log == s.log && s'.clock == s.clock && s'.ss == s.ss
            && |s'.hs| == |s.hs| && (forall d :: 0 <= d < |s.hs| && d != c ==> s'.hs[d] == s.hs[d])
            && s'.hs[c].pc == s.hs[c].pc
            && (forall d :: d != c ==> (d in s'.conns <==> d in s.conns))
            && HandlerOk(s'.hs[c], c, s'.conns, s'.clock, s'.log)
            && Later(s.hs, s'.hs, s.clock)
            && (returned <==> s'.hs[c].once.Done?)
            && (s'.hs[c].once.Running? ==> s'.hs[c].once.owner == t)
  {
    assert HandlerOk(s.hs[c], c, s.conns, s.clock, s.log);
    if t.S? {
      assert SwitcherOk(s.ss[t.w], s.hs, s.clock, s.log);
    }
  }

  lemma CloseKeepsHandlers(s: State, t: Thread, c: nat)
    requires Inv(s) && Closes(s, t, c) && CanClose(s, t, c)
    ensures HandlersOk(CloseNext(s, t, c).0)
  {
    CloseShape(s, t, c);
    hide CloseNext, CanClose, Closes, HandlerOk;
    var s' := CloseNext(s, t, c).0;
    forall h | 0 <= h < |s'.hs|
      ensures HandlerOk(s'.hs[h], h, s'.conns, s'.clock, s'.log)
    {
      if h != c {
        HandlerStays(s.hs[h], h, s, s');
      }
    }
  }

  lemma CloseKeepsOwners(s: State, t: Thread, c: nat)
    requires Inv(s) && Closes(s, t, c) && CanClose(s, t, c)
    ensures OwnersOk(CloseNext(s, t, c).0)
  {
    var s' := CloseNext(s, t, c).0;
    forall d | 0 <= d < |s'.hs|
      ensures OwnerOk(s', d)
    {
      assert OwnerOk(s, d);
    }
  }

  lemma CloseKeepsMutex(s: State, t: Thread, c: nat)
    requires Inv(s) && Closes(s, t, c) && CanClose(s, t, c)
    ensures MutexOk(CloseNext(s, t, c).0)
  {
    var s' := CloseNext(s, t, c).0;
    forall u | u != t
      ensures Holds(s', u) <==> Holds(s, u)
    {
      CloseHolds(s, t, c, u);
    }
    CloseMutex(s, t, c);
    hide CloseNext, CanClose, Closes, Holds;
    MutexStep(s, s', t);
  }

  lemma CloseHolds(s: State, t: Thread, c: nat, u: Thread)
    requires OwnersOk(s) && Closes(s, t, c) && CanClose(s, t, c) && u != t
    ensures Holds(CloseNext(s, t, c).0, u) <==> Holds(s, u)
  {
    assert OwnerOk(s, c);
  }

  lemma CloseMutex(s: State, t: Thread, c: nat)
    requires OwnersOk(s) && MutexOk(s) && Closes(s, t, c) && CanClose(s, t, c)
    ensures var s' := CloseNext(s, t, c).0;
            if s.mu == Some(t) || s.mu.None? then s'.mu == (if Holds(s', t) then Some(t) else None)
            else s'.mu == s.mu && !Holds(s', t)
  {
    assert OwnerOk(s, c);
    assert Holds(s, t) <==> s.mu == Some(t);
  }

  lemma CloseKeepsSwitchers(s: State, t: Thread, c: nat)
    requires Inv(s) && Closes(s, t, c) && CanClose(s, t, c)
    ensures SwitchersOk(CloseNext(s, t, c).0)
  {
    CloseShape(s, t, c);
    hide CloseNext, CanClose, Closes, HandlerOk, SwitcherOk, Later;
    var s' := CloseNext(s, t, c).0;
    forall w | 0 <= w < |s'.ss|
      ensures SwitcherOk(s'.ss[w], s'.hs, s'.clock, s'.log)
    {
      SwitcherStays(s.ss[w], s, s');
    }
  }

  /** Every action of Close, by any thread, keeps the invariant. */
  lemma CloseKeeps(s: State, t: Thread, c: nat)
    requires Inv(s) && Closes(s, t, c) && CanClose(s, t, c)
    ensures var (s', returned) := CloseNext(s, t, c);
            Inv(s') && Closes(s', t, c) && (returned ==> s'.hs[c].once.Done?)
  {
    CloseKeepsHandlers(s, t, c);
    CloseKeepsOwners(s, t, c);
    CloseKeepsMutex(s, t, c);
    CloseKeepsSwitchers(s, t, c);
    CloseShape(s, t, c);
    hide CloseNext, CanClose, HandlersOk, OwnersOk, MutexOk, SwitchersOk, HandlerOk, Later;
  }

  /** A handler's own action outside Close: what it must show for the invariant to carry over. */
  lemma HandlerMove(s: State, s': State, h: nat)
    requires Inv(s) && h < |s.hs| == |s'.hs| && s'.ss == s.ss && s'.log == s.log && s.clock <= s'.clock
    requires forall d :: 0 <= d < |s.hs| && d != h ==> s'.hs[d] == s.hs[d]
    requires forall d :: d != h ==> (d in s'.conns <==> d in s.conns)
    requires HandlerOk(s'.hs[h], h, s'.conns, s'.clock, s'.log)
    requires s'.hs[h].once == s.hs[h].once && Later(s.hs, s'.hs, s.clock)
    requires !(s.hs[h].once.Running? && s.hs[h].once.owner == H(h))
    requires if s.mu == Some(H(h)) || s.mu.None? then s'.mu == (if Holds(s', H(h)) then Some(H(h)) else None)
             else s'.mu == s.mu && !Holds(s', H(h))
    ensures Inv(s')
  {
    hide HandlerOk, SwitcherOk, Later;
    forall d | 0 <= d < |s'.hs|
      ensures HandlerOk(s'.hs[d], d, s'.conns, s'.clock, s'.log)
    {
      if d != h {
        HandlerStays(s.hs[d], d, s, s');
      }
    }
    forall d | 0 <= d < |s'.hs|
      ensures OwnerOk(s', d)
    {
      assert OwnerOk(s, d);
    }
    forall w | 0 <= w < |s'.ss|
      ensures SwitcherOk(s'.ss[w], s'.hs, s'.clock, s'.log)
    {
      SwitcherStays(s.ss[w], s, s');
    }
    MutexStep(s, s', H(h));
  }

  /** A switch's own action outside Close. */
  lemma SwitcherMove(s: State, s': State, w: nat)
    requires Inv(s) && w < |s.ss| == |s'.ss| && s'.hs == s.hs && s'.conns == s.conns
    requires s.clock <= s'.clock && s.log <= s'.log
    requires forall v :: 0 <= v < |s.ss| && v != w ==> s'.ss[v] == s.ss[v]
    requires SwitcherOk(s'.ss[w], s'.hs, s'.clock, s'.log)
    requires forall c :: 0 <= c < |s.hs| && s.hs[c].once.Running? ==> s.hs[c].once.owner != S(w)
    requires if s.mu == Some(S(w)) || s.mu.None? then s'.mu == (if Holds(s', S(w)) then Some(S(w)) else None)
             else s'.mu == s.mu && !Holds(s', S(w))
    ensures Inv(s')
  {
    hide HandlerOk, SwitcherOk;
    forall d | 0 <= d < |s'.hs|
      ensures HandlerOk(s'.hs[d], d, s'.conns, s'.clock, s'.log) && OwnerOk(s', d)
    {
      HandlerStays(s.hs[d], d, s, s');
      assert OwnerOk(s, d);
    }
    forall v | 0 <= v < |s'.ss|
      ensures SwitcherOk(s'.ss[v], s'.hs, s'.clock, s'.log)
    {
      if v != w {
        SwitcherStays(s.ss[v], s, s');
      }
    }
    MutexStep(s, s', S(w));
  }

  lemma HandlerOutsideClose(s: State, h: nat, ok: bool)
    requires Inv(s) && Enabled(s, HandlerStep(h, ok)) && !s.hs[h].pc.Closing?
    ensures Inv(HandlerNext(s, h, ok))
  {
    var s' := HandlerNext(s, h, ok);
    assert HandlerOk(s.hs[h], h, s.conns, s.clock, s.log) && OwnerOk(s, h);
    assert Holds(s, H(h)) <==> s.mu == Some(H(h));
    hide HandlersOk, OwnersOk, MutexOk, SwitchersOk;
    HandlerMove(s, s', h);
  }

  lemma HandlerReturns(s: State, h: nat)
    requires Inv(s) && h < |s.hs| && s.hs[h].pc.Closing? && s.hs[h].once.Done?
    ensures Inv(SetHandler(s, h, Ended))
  {
    assert HandlerOk(s.hs[h], h, s.conns, s.clock, s.log);
    assert Holds(s, H(h)) <==> s.mu == Some(H(h));
    hide HandlersOk, OwnersOk, MutexOk, SwitchersOk;
    HandlerMove(s, SetHandler(s, h, Ended), h);
  }

  lemma HandlerKeeps(s: State, h: nat, ok: bool)
    requires Inv(s) && Enabled(s, HandlerStep(h, ok))
    ensures Inv(HandlerNext(s, h, ok))
  {
    hide Inv, CloseNext;
    if s.hs[h].pc.Closing? {
      CloseKeeps(s, H(h), h);
      var (m, returned) := CloseNext(s, H(h), h);
      if returned {
        HandlerReturns(m, h);
      }
    } else {
      HandlerOutsideClose(s, h, ok);
    }
  }

  lemma RunsNoBody(s: State, w: nat)
    requires OwnersOk(s) && w < |s.ss|
    requires s.ss[w].pc.Dropping? ==> s.ss[w].pc.c < |s.hs| && s.hs[s.ss[w].pc.c].once.Done?
    ensures forall c :: 0 <= c < |s.hs| && s.hs[c].once.Running? ==> s.hs[c].once.owner != S(w)
  {
    forall c | 0 <= c < |s.hs| && s.hs[c].once.Running?
      ensures s.hs[c].once.owner != S(w)
    {
      assert OwnerOk(s, c);
    }
  }

  lemma SnapshotOk(s: State, x: Switcher)
    requires HandlersOk(s) && SwitcherOk(x, s.hs, s.clock, s.log) && x.pc.Holding?
    ensures SwitcherOk(x.(pc := Snapped, snapAt := s.clock + 1, taken := s.conns, left := s.conns), s.hs, s.clock + 1, s.log)
  {
    forall c | 0 <= c < |s.hs|
      ensures s.hs[c].regAt <= s.clock && (c in s.conns <==> s.hs[c].regAt > 0 && !Removed(s.hs[c].once))
    {
      assert HandlerOk(s.hs[c], c, s.conns, s.clock, s.log);
    }
  }

  lemma SwitcherOutsideClose(s: State, w: nat, pick: nat)
    requires Inv(s) && Enabled(s, SwitcherStep(w, pick)) && !s.ss[w].pc.Dropping?
    ensures Inv(SwitcherNext(s, w, pick))
  {
    var s' := SwitcherNext(s, w, pick);
    assert SwitcherOk(s.ss[w], s.hs, s.clock, s.log);
    assert Holds(s, S(w)) <==> s.mu == Some(S(w));
    RunsNoBody(s, w);
    if s.ss[w].pc.Holding? {
      SnapshotOk(s, s.ss[w]);
    }
    hide HandlersOk, OwnersOk, MutexOk, SwitchersOk, Removed;
    SwitcherMove(s, s', w);
  }

  lemma SwitcherReturns(s: State, w: nat)
    requires Inv(s) && w < |s.ss| && s.ss[w].pc.Dropping?
    requires s.ss[w].pc.c < |s.hs| && s.hs[s.ss[w].pc.c].once.Done?
    ensures Inv(SetSwitcher(s, w, Looping))
  {
    assert SwitcherOk(s.ss[w], s.hs, s.clock, s.log);
    assert Holds(s, S(w)) <==> s.mu == Some(S(w));
    RunsNoBody(s, w);
    hide HandlersOk, OwnersOk, MutexOk, SwitchersOk, Removed;
    SwitcherMove(s, SetSwitcher(s, w, Looping), w);
  }

  lemma SwitcherKeeps(s: State, w: nat, pick: nat)
    requires Inv(s) && Enabled(s, SwitcherStep(w, pick))
    ensures Inv(SwitcherNext(s, w, pick))
  {
    hide Inv, CloseNext;
    match s.ss[w].pc
    case Dropping(c) =>
      CloseKeeps(s, S(w), c);
      var (m, returned) := CloseNext(s, S(w), c);
      if returned {
        SwitcherReturns(m, w);
      }
    case _ =>
      SwitcherOutsideClose(s, w, pick);
  }

  lemma AcceptKeeps(s: State)
    requires Inv(s)
    ensures Inv(Next(s, Accept))
  {
    var s' := Next(s, Accept);
    forall c | 0 <= c < |s'.hs|
      ensures OwnerOk(s', c)
    {
      assert c < |s.hs| ==> OwnerOk(s, c);
    }
    forall t
      ensures Holds(s', t) <==> s'.mu == Some(t)
    {
      assert Holds(s, t) <==> s.mu == Some(t);
    }
  }

  lemma UseKeeps(s: State, plan: Plan)
    requires Inv(s)
    ensures Inv(Next(s, Use(plan)))
  {
    var s' := Next(s, Use(plan));
    forall c | 0 <= c < |s'.hs|
      ensures OwnerOk(s', c)
    {
      assert OwnerOk(s, c);
    }
    forall t
      ensures Holds(s', t) <==> s'.mu == Some(t)
    {
      assert Holds(s, t) <==> s.mu == Some(t);
    }
  }

  /** Every action of every thread keeps the invariant. */
  lemma NextKeeps(s: State, a: Action)
    requires Inv(s) && Enabled(s, a)
    ensures Inv(Next(s, a))
  {
    hide Inv, HandlerNext, SwitcherNext;
    match a
    case Accept => AcceptKeeps(s);
    case Use(plan) => UseKeeps(s, plan);
    case HandlerStep(h, ok) => HandlerKeeps(s, h, ok);
    case SwitcherStep(w, pick) => SwitcherKeeps(s, w, pick);
  }
}
