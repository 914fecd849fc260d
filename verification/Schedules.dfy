/** What holds over every schedule of handlers and switches on one database. */
module Schedules {
  import opened Octets
  import opened Interleaving

  predicate Legal(s: State, run: seq<Action>)
    decreases |run|
  {
    run == [] || (s.log != [] && Enabled(s, run[0]) && Legal(Next(s, run[0]), run[1..]))
  }

  function After(s: State, run: seq<Action>): State
    requires Legal(s, run)
    decreases |run|
  {
    if run == [] then s else After(Next(s, run[0]), run[1..])
  }

  lemma {:induction false} LegalConcat(s: State, run: seq<Action>, more: seq<Action>)
    requires Legal(s, run) && Legal(After(s, run), more)
    ensures Legal(s, run + more) && After(s, run + more) == After(After(s, run), more)
    decreases |run|
  {
    hide Next, Enabled;
    if run == [] {
      assert run + more == more;
    } else {
      assert (run + more)[1..] == run[1..] + more;
      LegalConcat(Next(s, run[0]), run[1..], more);
    }
  }

  lemma {:induction false} RunKeeps(s: State, run: seq<Action>)
    requires Inv(s) && Legal(s, run)
    ensures Inv(After(s, run))
    decreases |run|
  {
    hide Next, Enabled, Inv;
    if run != [] {
      NextKeeps(s, run[0]);
      RunKeeps(Next(s, run[0]), run[1..]);
    }
  }

  /** The invariant holds in every reachable state. */
  lemma Reachable(run: seq<Action>)
    requires Legal(INITIAL, run)
    ensures Inv(After(INITIAL, run))
  {
    assert forall t :: !Holds(INITIAL, t);
    RunKeeps(INITIAL, run);
  }

  // ---------------------------------------------------------------- safety

  /** Once a switch has finished, whatever registered before its snapshot is closed, once, and gone; a connection
      that is still registered although it loaded its target before the switch's store registered after the snapshot. */
  lemma AfterFinishedSwitch(run: seq<Action>, w: nat, c: nat)
    requires Legal(INITIAL, run)
    requires var s := After(INITIAL, run); w < |s.ss| && s.ss[w].pc.Finished? && c < |s.hs|
    ensures var s := After(INITIAL, run);
            && (0 < s.hs[c].regAt <= s.ss[w].snapAt ==> c !in s.conns && s.hs[c].runs == 1)
            && (c in s.conns && s.hs[c].version < s.ss[w].version ==> s.hs[c].regAt > s.ss[w].snapAt)
    ensures var s := After(INITIAL, run);
            c in s.conns ==> 0 < s.hs[c].version <= |s.log| && s.hs[c].target == s.log[s.hs[c].version - 1]
  {
    Reachable(run);
    var s := After(INITIAL, run);
    hide After, Legal;
    assert HandlerOk(s.hs[c], c, s.conns, s.clock, s.log);
    assert SwitcherOk(s.ss[w], s.hs, s.clock, s.log);
  }

  /** No close body runs twice; a connection whose handler has returned was closed exactly once and is out of the registry;
      a registered connection leaves the registry only through its close body. */
  lemma ClosedOnce(run: seq<Action>, c: nat)
    requires Legal(INITIAL, run) && c < |After(INITIAL, run).hs|
    ensures var s := After(INITIAL, run);
            && s.hs[c].runs <= 1
            && (s.hs[c].pc.Ended? && s.hs[c].regAt > 0 ==> s.hs[c].runs == 1 && c !in s.conns)
            && (s.hs[c].regAt > 0 && s.hs[c].runs == 0 ==> c in s.conns)
  {
    Reachable(run);
    var s := After(INITIAL, run);
    hide After, Legal;
    assert HandlerOk(s.hs[c], c, s.conns, s.clock, s.log);
  }

  /** When a switch's own call of Close on `c` has returned, `c` was closed exactly once and is out of the registry,
      whichever thread ran the body. */
  lemma DroppedOnce(run: seq<Action>, w: nat, c: nat)
    requires Legal(INITIAL, run)
    requires var s := After(INITIAL, run);
             w < |s.ss| && c in s.ss[w].taken && c !in s.ss[w].left && s.ss[w].pc != Dropping(c)
    ensures var s := After(INITIAL, run); c < |s.hs| && s.hs[c].runs == 1 && c !in s.conns
  {
    Reachable(run);
    var s := After(INITIAL, run);
    hide After, Legal;
    assert SwitcherOk(s.ss[w], s.hs, s.clock, s.log);
    assert HandlerOk(s.hs[c], c, s.conns, s.clock, s.log);
  }

  /** A thread waiting for another thread's close body does not hold the registry mutex. */
  lemma WaitsWithoutMutex(run: seq<Action>, t: Thread, c: nat)
    requires Legal(INITIAL, run)
    requires var s := After(INITIAL, run); Closes(s, t, c) && s.hs[c].once.Running? && s.hs[c].once.owner != t
    ensures After(INITIAL, run).mu != Some(t)
  {
    Reachable(run);
    var s := After(INITIAL, run);
    hide After, Legal;
    assert Holds(s, t) <==> s.mu == Some(t);
  }

  /** Returned without ever registering. */
  predicate GaveUp(x: Handler) {
    x.pc.Ended? && x.regAt == 0
  }

  lemma GaveUpStays(s: State, a: Action, h: nat)
    requires Inv(s) && Enabled(s, a) && h < |s.hs| && GaveUp(s.hs[h])
    ensures h < |Next(s, a).hs| && GaveUp(Next(s, a).hs[h])
  {
    assert HandlerOk(s.hs[h], h, s.conns, s.clock, s.log);
    assert forall w :: 0 <= w < |s.ss| ==> SwitcherOk(s.ss[w], s.hs, s.clock, s.log);
    hide Inv;
  }

  /** A handler whose dial or login failed never registers, whatever happens afterwards. */
  lemma {:induction false} GaveUpForever(s: State, run: seq<Action>, h: nat)
    requires Inv(s) && Legal(s, run) && h < |s.hs| && GaveUp(s.hs[h])
    ensures var t := After(s, run); h < |t.hs| && GaveUp(t.hs[h]) && h !in t.conns
    decreases |run|
  {
    hide Next, Enabled, GaveUp;
    if run == [] {
      NotThere(s, h);
    } else {
      hide Inv;
      GaveUpStays(s, run[0], h);
      NextKeeps(s, run[0]);
      GaveUpForever(Next(s, run[0]), run[1..], h);
    }
  }

  lemma NotThere(s: State, h: nat)
    requires Inv(s) && h < |s.hs| && GaveUp(s.hs[h])
    ensures h !in s.conns
  {
    assert HandlerOk(s.hs[h], h, s.conns, s.clock, s.log);
  }

  lemma FailedNeverRegisters(before: seq<Action>, h: nat, run: seq<Action>)
    requires Legal(INITIAL, before) && h < |After(INITIAL, before).hs| && After(INITIAL, before).hs[h].pc.Loaded?
    requires var s := After(INITIAL, before);
             s.log != [] && Enabled(s, HandlerStep(h, false)) && Legal(Next(s, HandlerStep(h, false)), run)
    ensures var t := After(Next(After(INITIAL, before), HandlerStep(h, false)), run);
            h < |t.hs| && t.hs[h].regAt == 0 && h !in t.conns
  {
    Reachable(before);
    var s := After(INITIAL, before);
    hide Legal, After;
    var failed := Next(s, HandlerStep(h, false));
    assert HandlerOk(s.hs[h], h, s.conns, s.clock, s.log);
    assert GaveUp(failed.hs[h]);
    NextKeeps(s, HandlerStep(h, false));
    GaveUpForever(failed, run, h);
  }

  // ---------------------------------------------------------------- progress

  /** Before registering, and not holding anything. */
  predicate InFlight(x: Handler) {
    x.pc.Loaded? || x.pc.Dialled?
  }

  /** Everyone but the handler in `keep` has finished. */
  predicate Quiet(s: State, keep: set<nat>) {
    && (forall h :: 0 <= h < |s.hs| && h !in keep ==> s.hs[h].pc.Ended?)
    && (forall w :: 0 <= w < |s.ss| ==> s.ss[w].pc.Finished?)
  }

  predicate Parked(s: State, keep: set<nat>) {
    forall h :: h in keep ==> h < |s.hs| && InFlight(s.hs[h])
  }

  function StepOf(t: Thread, pick: nat): Action {
    match t
    case H(h) => HandlerStep(h, false)
    case S(w) => SwitcherStep(w, pick)
  }

  predicate Unfinished(s: State, t: Thread, keep: set<nat>) {
    match t
    case H(h) => h < |s.hs| && h !in keep && !s.hs[h].pc.Ended?
    case S(w) => w < |s.ss| && !s.ss[w].pc.Finished?
  }

  /** The holder of the mutex can always move on. */
  lemma HolderMoves(s: State, t: Thread, keep: set<nat>)
    requires Inv(s) && Parked(s, keep) && s.mu == Some(t)
    ensures Unfinished(s, t, keep) && Enabled(s, StepOf(t, 0))
  {
    hide HandlersOk, OwnersOk, SwitchersOk;
    assert Holds(s, t) <==> s.mu == Some(t);
    assert Holds(s, t);
  }

  /** With the mutex free, whoever runs a close body can move on. */
  lemma OwnerMoves(s: State, c: nat, keep: set<nat>)
    requires Inv(s) && Parked(s, keep) && s.mu.None? && c < |s.hs| && s.hs[c].once.Running?
    ensures Unfinished(s, s.hs[c].once.owner, keep) && Enabled(s, StepOf(s.hs[c].once.owner, 0))
  {
    hide HandlersOk, MutexOk, SwitchersOk;
    assert OwnerOk(s, c);
  }

  /** No deadlock: while some thread is unfinished, some thread can act, even if in-flight handlers stay parked. */
  lemma SomeoneMoves(s: State, keep: set<nat>) returns (t: Thread, pick: nat)
    requires Inv(s) && Parked(s, keep) && !Quiet(s, keep)
    ensures Unfinished(s, t, keep) && Enabled(s, StepOf(t, pick))
  {
    if s.mu.Some? {
      t, pick := s.mu.value, 0;
      HolderMoves(s, t, keep);
    } else if h :| 0 <= h < |s.hs| && h !in keep && !s.hs[h].pc.Ended? {
      t, pick := H(h), 0;
      if !Enabled(s, StepOf(t, 0)) {
        t := s.hs[h].once.owner;
        OwnerMoves(s, h, keep);
      }
    } else {
      var w :| 0 <= w < |s.ss| && !s.ss[w].pc.Finished?;
      assert SwitcherOk(s.ss[w], s.hs, s.clock, s.log);
      t := S(w);
      pick := if s.ss[w].left == {} then 0 else var c :| c in s.ss[w].left; c;
      if !Enabled(s, StepOf(t, pick)) {
        var c := s.ss[w].pc.c;
        t, pick := s.hs[c].once.owner, 0;
        OwnerMoves(s, c, keep);
      }
    }
  }

  function HandlerRank(x: Handler): nat {
    (match x.pc
     case Idle => 7 case Loaded => 6 case Dialled => 5 case Locked => 4 case Inserted => 3
     case Piping => 2 case Closing => 1 case Ended => 0)
    + (match x.once
       case Fresh => 6 case Done => 0
       case Running(_, at) =>
         match at case Ends => 5 case Want => 4 case Held => 3 case Cleared => 2 case Leave => 1)
  }

  /** Actions left to a switch among `n` connections. */
  function SwitcherRank(x: Switcher, n: nat): nat {
    match x.pc
    case Begin => 2 * n + 5 case Stored => 2 * n + 4 case Holding => 2 * n + 3
    case Snapped => 2 * |x.left| + 2 case Looping => 2 * |x.left| + 1 case Dropping(_) => 2 * |x.left| + 2
    case Finished => 0
  }

  function HandlerRanks(hs: seq<Handler>): nat {
    if hs == [] then 0 else HandlerRank(hs[0]) + HandlerRanks(hs[1..])
  }

  function SwitcherRanks(ss: seq<Switcher>, n: nat): nat {
    if ss == [] then 0 else SwitcherRank(ss[0], n) + SwitcherRanks(ss[1..], n)
  }

  function Rank(s: State): nat {
    HandlerRanks(s.hs) + SwitcherRanks(s.ss, |s.hs|)
  }

  lemma {:induction false} HandlerRanksUpdate(hs: seq<Handler>, i: nat, x: Handler)
    requires i < |hs|
    ensures HandlerRanks(hs[i := x]) + HandlerRank(hs[i]) == HandlerRanks(hs) + HandlerRank(x)
  {
    hide HandlerRank;
    if i == 0 {
      assert hs[i := x][1..] == hs[1..];
    } else {
      assert hs[i := x][1..] == hs[1..][i - 1 := x];
      HandlerRanksUpdate(hs[1..], i - 1, x);
    }
  }

  lemma {:induction false} SwitcherRanksUpdate(ss: seq<Switcher>, n: nat, i: nat, x: Switcher)
    requires i < |ss|
    ensures SwitcherRanks(ss[i := x], n) + SwitcherRank(ss[i], n) == SwitcherRanks(ss, n) + SwitcherRank(x, n)
  {
    hide SwitcherRank;
    if i == 0 {
      assert ss[i := x][1..] == ss[1..];
    } else {
      assert ss[i := x][1..] == ss[1..][i - 1 := x];
      SwitcherRanksUpdate(ss[1..], n, i - 1, x);
    }
  }

  lemma {:induction false} SmallSet(a: set<nat>, n: nat)
    requires forall c :: c in a ==> c < n
    ensures |a| <= n
  {
    if n == 0 {
      assert a == {};
    } else {
      SmallSet(a - {n - 1}, n - 1);
      assert a <= (a - {n - 1}) + {n - 1};
      assert |a| <= |a - {n - 1}| + 1;
    }
  }

  lemma CloseRank(s: State, t: Thread, c: nat)
    requires Inv(s) && Closes(s, t, c) && CanClose(s, t, c)
    ensures var (s', returned) := CloseNext(s, t, c);
            && s'.ss == s.ss && s'.hs == s.hs[c := s'.hs[c]] && s'.hs[c].pc == s.hs[c].pc
            && HandlerRank(s'.hs[c]) <= HandlerRank(s.hs[c])
            && (!returned ==> HandlerRank(s'.hs[c]) < HandlerRank(s.hs[c]))
  {
    hide Inv;
  }

  lemma HandlerRankDrops(s: State, h: nat, ok: bool)
    requires Inv(s) && Enabled(s, HandlerStep(h, ok))
    ensures var s' := HandlerNext(s, h, ok);
            s'.ss == s.ss && s'.hs == s.hs[h := s'.hs[h]] && Rank(s') < Rank(s)
  {
    NonEmptyLog(s);
    hide Inv, HandlerRanks, SwitcherRanks, HandlerRank, HandlerNext;
    var s' := HandlerNext(s, h, ok);
    HandlerOwnRank(s, h, ok);
    HandlerRanksUpdate(s.hs, h, s'.hs[h]);
  }

  lemma HandlerOwnRank(s: State, h: nat, ok: bool)
    requires Inv(s) && Enabled(s, HandlerStep(h, ok))
    ensures var s' := HandlerNext(s, h, ok);
            && h < |s.hs| && s'.ss == s.ss && s'.hs == s.hs[h := s'.hs[h]]
            && HandlerRank(s'.hs[h]) < HandlerRank(s.hs[h])
  {
    if s.hs[h].pc.Closing? {
      CloseRank(s, H(h), h);
      hide Inv, CloseNext;
    } else {
      hide Inv;
    }
  }

  lemma SwitcherOwnShape(s: State, w: nat, pick: nat)
    requires Enabled(s, SwitcherStep(w, pick)) && !s.ss[w].pc.Dropping?
    ensures var s' := SwitcherNext(s, w, pick); s'.hs == s.hs && |s'.ss| == |s.ss| && s'.ss == s.ss[w := s'.ss[w]]
  {}

  lemma SwitcherRecordRank(s: State, w: nat, pick: nat)
    requires Enabled(s, SwitcherStep(w, pick)) && !s.ss[w].pc.Dropping? && |s.conns| <= |s.hs|
    requires pick in s.ss[w].left ==> |s.ss[w].left - {pick}| == |s.ss[w].left| - 1
    ensures var s' := SwitcherNext(s, w, pick);
            && |s'.ss| == |s.ss| && !s'.ss[w].pc.Begin?
            && (!s.ss[w].pc.Begin? ==> s'.ss[w].version == s.ss[w].version)
            && SwitcherRank(s'.ss[w], |s.hs|) < SwitcherRank(s.ss[w], |s.hs|)
  {}

  lemma SwitcherOwnRank(s: State, w: nat, pick: nat)
    requires Inv(s) && Enabled(s, SwitcherStep(w, pick)) && !s.ss[w].pc.Dropping?
    ensures var s' := SwitcherNext(s, w, pick);
            && s'.hs == s.hs && s'.ss == s.ss[w := s'.ss[w]] && !s'.ss[w].pc.Begin?
            && (!s.ss[w].pc.Begin? ==> s'.ss[w].version == s.ss[w].version)
            && SwitcherRank(s'.ss[w], |s.hs|) < SwitcherRank(s.ss[w], |s.hs|)
  {
    SmallSet(s.conns, |s.hs|);
    hide Inv, SwitcherNext, SwitcherRank;
    if pick in s.ss[w].left {
      OneFewer(s.ss[w].left, pick);
    }
    SwitcherOwnShape(s, w, pick);
    SwitcherRecordRank(s, w, pick);
  }

  lemma OneFewer(left: set<nat>, pick: nat)
    requires pick in left
    ensures |left - {pick}| == |left| - 1
  {}

  /** A switch's action inside Close moves its position, the connection, or both. */
  lemma DroppingMoves(s: State, w: nat, pick: nat)
    requires Inv(s) && Enabled(s, SwitcherStep(w, pick)) && s.ss[w].pc.Dropping?
    ensures var s' := SwitcherNext(s, w, pick); var c := s.ss[w].pc.c;
            && s'.hs == s.hs[c := s'.hs[c]] && s'.ss == s.ss[w := s'.ss[w]] && !InFlight(s.hs[c])
            && s'.ss[w].version == s.ss[w].version && !s'.ss[w].pc.Begin?
            && HandlerRank(s'.hs[c]) + SwitcherRank(s'.ss[w], |s.hs|) < HandlerRank(s.hs[c]) + SwitcherRank(s.ss[w], |s.hs|)
  {
    var c := s.ss[w].pc.c;
    assert SwitcherOk(s.ss[w], s.hs, s.clock, s.log);
    assert HandlerOk(s.hs[c], c, s.conns, s.clock, s.log);
    CloseRank(s, S(w), c);
    hide Inv, CloseNext, HandlerRank, SwitcherOk, HandlerOk;
  }

  lemma SwitcherRankDrops(s: State, w: nat, pick: nat)
    requires Inv(s) && Enabled(s, SwitcherStep(w, pick))
    ensures var s' := SwitcherNext(s, w, pick);
            && |s'.hs| == |s.hs| && s'.ss == s.ss[w := s'.ss[w]] && Rank(s') < Rank(s)
            && forall h :: 0 <= h < |s.hs| && InFlight(s.hs[h]) ==> s'.hs[h] == s.hs[h]
  {
    var s' := SwitcherNext(s, w, pick);
    var n := |s.hs|;
    if s.ss[w].pc.Dropping? {
      DroppingMoves(s, w, pick);
      HandlerRanksUpdate(s.hs, s.ss[w].pc.c, s'.hs[s.ss[w].pc.c]);
    } else {
      SwitcherOwnRank(s, w, pick);
    }
    hide Inv, HandlerRanks, SwitcherRanks, HandlerRank, SwitcherRank, SwitcherNext, Enabled;
    SwitcherRanksUpdate(s.ss, n, w, s'.ss[w]);
  }

  predicate IsStep(a: Action) {
    a.HandlerStep? || a.SwitcherStep?
  }

  lemma RankDrops(s: State, a: Action)
    requires Inv(s) && Enabled(s, a) && IsStep(a)
    ensures Rank(Next(s, a)) < Rank(s)
  {
    hide Inv, HandlerNext, SwitcherNext, Rank;
    match a
    case HandlerStep(h, ok) => HandlerRankDrops(s, h, ok);
    case SwitcherStep(w, pick) => SwitcherRankDrops(s, w, pick);
  }

  /** Without new clients or switches every schedule is finite: its length is bounded by the work left. */
  lemma {:induction false} SchedulesAreBounded(s: State, run: seq<Action>)
    requires Inv(s) && Legal(s, run) && forall a :: a in run ==> IsStep(a)
    ensures |run| + Rank(After(s, run)) <= Rank(s)
    decreases |run|
  {
    hide Inv, Next, Rank, Enabled;
    if run != [] {
      assert run[0] in run;
      RankDrops(s, run[0]);
      NextKeeps(s, run[0]);
      SchedulesAreBounded(Next(s, run[0]), run[1..]);
    }
  }

  /** A schedule that can go no further has finished: every handler and switch has returned, the registry is empty,
      the mutex free, and every connection that registered was closed exactly once. */
  lemma StuckMeansFinished(run: seq<Action>)
    requires Legal(INITIAL, run)
    requires forall a :: IsStep(a) ==> !Enabled(After(INITIAL, run), a)
    ensures var s := After(INITIAL, run);
            && Quiet(s, {}) && s.conns == {} && s.mu.None?
            && forall c :: 0 <= c < |s.hs| ==> s.hs[c].runs == if s.hs[c].regAt > 0 then 1 else 0
  {
    Reachable(run);
    var s := After(INITIAL, run);
    hide After, Legal;
    if s.mu.Some? {
      HolderMoves(s, s.mu.value, {});
    }
    if !Quiet(s, {}) {
      var t, pick := SomeoneMoves(s, {});
    }
    forall c | 0 <= c < |s.hs|
      ensures c !in s.conns && s.hs[c].runs == if s.hs[c].regAt > 0 then 1 else 0
    {
      assert HandlerOk(s.hs[c], c, s.conns, s.clock, s.log);
    }
  }

  /** A switch, or a handler inside Register or Close: not one that dials, logs in or pipes. */
  predicate Brief(s: State, t: Thread) {
    match t
    case H(h) => h < |s.hs| && (s.hs[h].pc.Locked? || s.hs[h].pc.Inserted? || s.hs[h].pc.Closing?)
    case S(w) => w < |s.ss|
  }

  /** While a switch is unfinished, a brief thread can act: no switch waits for a pipe, a dial or a login to end. */
  lemma SwitchNeedsNoPipe(s: State, w: nat) returns (t: Thread, pick: nat)
    requires Inv(s) && w < |s.ss| && !s.ss[w].pc.Finished?
    ensures Brief(s, t) && Unfinished(s, t, {}) && Enabled(s, StepOf(t, pick))
  {
    if s.mu.Some? {
      t, pick := s.mu.value, 0;
      HolderMoves(s, t, {});
      assert Holds(s, t);
    } else {
      assert SwitcherOk(s.ss[w], s.hs, s.clock, s.log);
      t := S(w);
      pick := if s.ss[w].left == {} then 0 else var c :| c in s.ss[w].left; c;
      if !Enabled(s, StepOf(t, pick)) {
        var c := s.ss[w].pc.c;
        t, pick := s.hs[c].once.owner, 0;
        OwnerMoves(s, c, {});
        assert OwnerOk(s, c);
      }
    }
  }

  function Actor(a: Action): (t: Thread)
    requires IsStep(a)
  {
    match a
    case HandlerStep(h, _) => H(h)
    case SwitcherStep(w, _) => S(w)
  }

  /** Only brief threads act. */
  predicate BriefRun(s: State, run: seq<Action>)
    requires Legal(s, run)
    decreases |run|
  {
    run != [] ==> IsStep(run[0]) && Brief(s, Actor(run[0])) && BriefRun(Next(s, run[0]), run[1..])
  }

  /** From any reachable state a switch can be brought to its end while every dial, login and pipe goes on. */
  lemma {:induction false} SwitchFinishes(s: State, w: nat) returns (run: seq<Action>)
    requires Inv(s) && w < |s.ss|
    ensures Legal(s, run) && BriefRun(s, run)
    ensures w < |After(s, run).ss| && After(s, run).ss[w].pc.Finished?
    decreases Rank(s)
  {
    hide Inv, Next, Rank, Enabled, Unfinished, Brief;
    if s.ss[w].pc.Finished? {
      run := [];
    } else {
      var t, pick := SwitchNeedsNoPipe(s, w);
      var a := StepOf(t, pick);
      NoneParked(s);
      StepKept(s, t, pick, {});
      NextKeeps(s, a);
      NonEmptyLog(s);
      var rest := SwitchFinishes(Next(s, a), w);
      run := [a] + rest;
      assert run[1..] == rest;
    }
  }

  lemma NoneParked(s: State)
    ensures Parked(s, {})
  {}

  // ---------------------------------------------------------------- stale connections, exactly

  /** Registered, on a target loaded before the store of switch `w`. */
  predicate Stale(s: State, w: nat, c: nat) {
    w < |s.ss| && c < |s.hs| && c in s.conns && s.hs[c].version < s.ss[w].version
  }

  /** In flight with a target loaded before the store of `w`. */
  predicate Racing(s: State, w: nat, h: nat) {
    w < |s.ss| && h < |s.hs| && InFlight(s.hs[h]) && s.hs[h].version < s.ss[w].version
  }

  /** `run` takes `s` to a state where switch `w` has finished and connection `c` is stale. */
  predicate Slips(s: State, run: seq<Action>, w: nat, c: nat) {
    Legal(s, run) && Stale(After(s, run), w, c) && After(s, run).ss[w].pc.Finished?
  }

  /** What a parked handler and a switch past its store keep while others act. */
  predicate Kept(s: State, s': State, keep: set<nat>) {
    && |s'.hs| == |s.hs| && |s'.ss| == |s.ss|
    && (forall h :: h in keep ==> h < |s.hs| && s'.hs[h] == s.hs[h])
    && (forall w :: 0 <= w < |s.ss| && !s.ss[w].pc.Begin? ==> !s'.ss[w].pc.Begin? && s'.ss[w].version == s.ss[w].version)
  }

  lemma SwitcherVersionStays(s: State, w: nat, pick: nat)
    requires Inv(s) && Enabled(s, SwitcherStep(w, pick))
    ensures var x := SwitcherNext(s, w, pick).ss[w];
            !x.pc.Begin? && (!s.ss[w].pc.Begin? ==> x.version == s.ss[w].version)
  {
    hide Inv, SwitcherNext;
    if s.ss[w].pc.Dropping? {
      DroppingMoves(s, w, pick);
    } else {
      SwitcherOwnRank(s, w, pick);
    }
  }

  lemma StepKept(s: State, t: Thread, pick: nat, keep: set<nat>)
    requires Inv(s) && Parked(s, keep) && Unfinished(s, t, keep) && Enabled(s, StepOf(t, pick))
    ensures var s' := Next(s, StepOf(t, pick)); Kept(s, s', keep) && Parked(s', keep) && Rank(s') < Rank(s)
  {
    hide Inv, HandlerNext, SwitcherNext, Rank, InFlight, Enabled;
    match t
    case H(h) =>
      HandlerRankDrops(s, h, false);
    case S(w) =>
      SwitcherRankDrops(s, w, pick);
      SwitcherVersionStays(s, w, pick);
  }

  /** With handlers parked in flight, all other threads can be run to the end. */
  lemma {:induction false} Drain(s: State, keep: set<nat>) returns (run: seq<Action>)
    requires Inv(s) && Parked(s, keep)
    ensures Legal(s, run)
    ensures var s' := After(s, run); Inv(s') && Quiet(s', keep) && Kept(s, s', keep)
    decreases Rank(s)
  {
    hide Inv, Next, Rank, Enabled, Quiet, Unfinished, Parked;
    if Quiet(s, keep) {
      run := [];
      ParkedInRange(s, keep);
    } else {
      var t, pick := SomeoneMoves(s, keep);
      var a := StepOf(t, pick);
      StepKept(s, t, pick, keep);
      NextKeeps(s, a);
      NonEmptyLog(s);
      var rest := Drain(Next(s, a), keep);
      run := [a] + rest;
      assert run[1..] == rest;
    }
  }

  lemma ParkedInRange(s: State, keep: set<nat>)
    requires Parked(s, keep)
    ensures forall h :: h in keep ==> h < |s.hs|
  {}

  lemma NonEmptyLog(s: State)
    requires Inv(s)
    ensures s.log != []
  {}

  lemma QuietFreesMutex(s: State, h: nat)
    requires Inv(s) && Quiet(s, {h}) && h < |s.hs| && InFlight(s.hs[h])
    ensures s.mu.None?
  {
    hide HandlersOk, OwnersOk, SwitchersOk;
    assert s.mu.Some? ==> Holds(s, s.mu.value);
  }

  function Register(h: nat): seq<Action> {
    [HandlerStep(h, true), HandlerStep(h, true), HandlerStep(h, true)]
  }

  /** With the mutex free, an in-flight handler can go on to register. */
  lemma CompletesRegistration(s: State, h: nat)
    requires s.log != [] && s.mu.None? && h < |s.hs| && s.hs[h].pc.Dialled?
    ensures Legal(s, Register(h))
    ensures After(s, Register(h)) ==
            s.(hs := s.hs[h := s.hs[h].(pc := Piping, regAt := s.clock + 1)], conns := s.conns + {h}, clock := s.clock + 1)
  {
    var a := HandlerStep(h, true);
    var x := s.hs[h];
    var s1 := s.(hs := s.hs[h := x.(pc := Locked)], mu := Some(H(h)));
    var s2 := s.(hs := s.hs[h := x.(pc := Inserted, regAt := s.clock + 1)], mu := Some(H(h)),
                 conns := s.conns + {h}, clock := s.clock + 1);
    var s3 := s2.(hs := s.hs[h := x.(pc := Piping, regAt := s.clock + 1)], mu := None);
    assert Enabled(s, a) && Next(s, a) == s1;
    Inserts(s, s1, h);
    Unlocks(s, s2, h);
    hide Enabled, Next;
    ThreeSteps(s, a, s1, s2, s3);
  }

  lemma Inserts(s: State, t: State, h: nat)
    requires s.log != [] && h < |s.hs| && t == s.(hs := s.hs[h := s.hs[h].(pc := Locked)], mu := Some(H(h)))
    ensures var a := HandlerStep(h, true);
            && Enabled(t, a)
            && Next(t, a) == t.(hs := s.hs[h := s.hs[h].(pc := Inserted, regAt := s.clock + 1)], conns := s.conns + {h},
                                clock := s.clock + 1)
  {
    var x := s.hs[h].(pc := Inserted, regAt := s.clock + 1);
    assert t.hs[h := x] == s.hs[h := x];
  }

  lemma Unlocks(s: State, t: State, h: nat)
    requires s.log != [] && h < |s.hs| && t.log == s.log && |t.hs| == |s.hs|
    requires t.hs == s.hs[h := t.hs[h]] && t.hs[h].pc.Inserted?
    ensures var a := HandlerStep(h, true);
            Enabled(t, a) && Next(t, a) == t.(hs := s.hs[h := t.hs[h].(pc := Piping)], mu := None)
  {
    var x := t.hs[h].(pc := Piping);
    assert t.hs[h := x] == s.hs[h := x];
  }

  lemma ThreeSteps(s: State, a: Action, s1: State, s2: State, s3: State)
    requires s.log != [] && s1.log != [] && s2.log != []
    requires Enabled(s, a) && Next(s, a) == s1 && Enabled(s1, a) && Next(s1, a) == s2 && Enabled(s2, a) && Next(s2, a) == s3
    ensures Legal(s, [a, a, a]) && After(s, [a, a, a]) == s3
  {
    hide Enabled, Next;
    assert [a][1..] == [] && [a, a][1..] == [a] && [a, a, a][1..] == [a, a];
    assert Legal(s3, []) && After(s3, []) == s3;
    assert Legal(s2, [a]) && After(s2, [a]) == s3;
    assert Legal(s1, [a, a]) && After(s1, [a, a]) == s3;
  }

  /** A racing handler can stay in flight until the switch has finished, and register then. */
  lemma RacingSlips(s: State, w: nat, h: nat) returns (run: seq<Action>)
    requires Inv(s) && Racing(s, w, h) && !s.ss[w].pc.Begin?
    ensures Slips(s, run, w, h)
  {
    hide Inv, Next, Enabled;
    NonEmptyLog(s);
    var first := Drain(s, {h});
    var m := After(s, first);
    assert m.hs[h] == s.hs[h];
    QuietFreesMutex(m, h);
    NonEmptyLog(m);
    run := first;
    if m.hs[h].pc.Loaded? {
      var dial := [HandlerStep(h, true)];
      DialSucceeds(m, h);
      LegalConcat(s, first, dial);
      run := first + dial;
      m := After(m, dial);
    }
    CompletesRegistration(m, h);
    LegalConcat(s, run, Register(h));
    run := run + Register(h);
  }

  lemma DialSucceeds(s: State, h: nat)
    requires s.log != [] && h < |s.hs| && s.hs[h].pc.Loaded?
    ensures Legal(s, [HandlerStep(h, true)])
    ensures After(s, [HandlerStep(h, true)]) == SetHandler(s, h, Dialled)
  {
    var a := HandlerStep(h, true);
    assert [a][1..] == [];
    assert Legal(Next(s, a), []) && After(Next(s, a), []) == Next(s, a);
  }

  /** From its lock on, nothing that loaded before the store of `w` is in flight or registers any more. */
  predicate Calm(s: State, w: nat) {
    && w < |s.ss| && !s.ss[w].pc.Begin? && !s.ss[w].pc.Stored?
    && forall h :: 0 <= h < |s.hs| && 0 < s.hs[h].version < s.ss[w].version ==>
         && !InFlight(s.hs[h]) && !s.hs[h].pc.Locked?
         && (s.ss[w].pc.Holding? || s.hs[h].regAt <= s.ss[w].snapAt)
  }

  /** What an action does to the handlers' positions and versions. */
  lemma HandlerPositions(s: State, a: Action, h: nat)
    requires Inv(s) && Enabled(s, a) && h < |s.hs|
    ensures var x := s.hs[h]; var y := Next(s, a).hs[h];
            && (x.pc == y.pc || (a.HandlerStep? && a.h == h))
            && (x.version == y.version || (x.pc.Idle? && y.version == |s.log|))
            && (InFlight(y) || y.pc.Locked? ==> InFlight(x) || x.pc.Locked? || y.version == |s.log|)
            && (x.regAt == y.regAt || x.pc.Locked?)
  {
    hide Inv;
    match a
    case HandlerStep(k, ok) =>
    case SwitcherStep(w, pick) =>
    case _ =>
  }

  /** What an action does to a switch's snapshot. */
  lemma SnapshotStays(s: State, a: Action, w: nat)
    requires Inv(s) && Enabled(s, a) && w < |s.ss| && !s.ss[w].pc.Begin? && !s.ss[w].pc.Stored?
    ensures var x := s.ss[w]; var s' := Next(s, a); w < |s'.ss| && var y := s'.ss[w];
            && x.version == y.version && !y.pc.Begin? && !y.pc.Stored?
            && (x.pc.Holding? && !y.pc.Holding? ==> y.snapAt == s.clock + 1)
            && (!x.pc.Holding? ==> !y.pc.Holding? && y.snapAt == x.snapAt)
  {
    hide Inv;
  }

  lemma CalmKept(s: State, a: Action, w: nat)
    requires Inv(s) && Enabled(s, a) && Calm(s, w)
    ensures Calm(Next(s, a), w)
  {
    var s' := Next(s, a);
    SnapshotStays(s, a, w);
    assert SwitcherOk(s.ss[w], s.hs, s.clock, s.log);
    forall h | 0 <= h < |s'.hs| && 0 < s'.hs[h].version < s'.ss[w].version
      ensures !InFlight(s'.hs[h]) && !s'.hs[h].pc.Locked?
      ensures s'.ss[w].pc.Holding? || s'.hs[h].regAt <= s'.ss[w].snapAt
    {
      if h < |s.hs| {
        HandlerPositions(s, a, h);
        assert HandlerOk(s.hs[h], h, s.conns, s.clock, s.log);
      }
    }
  }

  lemma {:induction false} CalmForever(s: State, run: seq<Action>, w: nat)
    requires Inv(s) && Legal(s, run) && Calm(s, w)
    ensures Inv(After(s, run)) && Calm(After(s, run), w)
    decreases |run|
  {
    hide Inv, Next, Enabled, Calm;
    if run != [] {
      NextKeeps(s, run[0]);
      CalmKept(s, run[0], w);
      CalmForever(Next(s, run[0]), run[1..], w);
    }
  }

  /** Exactly when a switch can leave a stale connection behind: as it holds the mutex for its snapshot, some handler
      that loaded its target before the store has not registered yet. */
  lemma StaleIffRacing(before: seq<Action>, w: nat)
    requires Legal(INITIAL, before)
    requires var s := After(INITIAL, before); w < |s.ss| && s.ss[w].pc.Holding?
    ensures var s := After(INITIAL, before);
            (exists h :: Racing(s, w, h)) <==> (exists run, c :: Slips(s, run, w, c))
  {
    Reachable(before);
    var s := After(INITIAL, before);
    hide Legal, After;
    if h :| Racing(s, w, h) {
      var run := RacingSlips(s, w, h);
    } else {
      forall run, c
        ensures !Slips(s, run, w, c)
      {
        if Slips(s, run, w, c) {
          HoldingCalm(s, w);
          CalmForever(s, run, w);
          FinishedCalm(After(s, run), w, c);
        }
      }
    }
  }

  lemma HoldingCalm(s: State, w: nat)
    requires Inv(s) && w < |s.ss| && s.ss[w].pc.Holding? && forall h :: !Racing(s, w, h)
    ensures Calm(s, w)
  {
    assert Holds(s, S(w)) <==> s.mu == Some(S(w));
    forall h | 0 <= h < |s.hs| && 0 < s.hs[h].version < s.ss[w].version
      ensures !InFlight(s.hs[h]) && !s.hs[h].pc.Locked?
    {
      assert !Racing(s, w, h);
      assert Holds(s, H(h)) <==> s.mu == Some(H(h));
    }
  }

  lemma FinishedCalm(s: State, w: nat, c: nat)
    requires Inv(s) && Calm(s, w) && s.ss[w].pc.Finished?
    ensures !Stale(s, w, c)
  {
    assert SwitcherOk(s.ss[w], s.hs, s.clock, s.log);
    if c < |s.hs| {
      assert HandlerOk(s.hs[c], c, s.conns, s.clock, s.log);
    }
  }

  lemma Extend(run: seq<Action>, s: State, a: Action) returns (longer: seq<Action>)
    requires Legal(INITIAL, run) && After(INITIAL, run) == s && s.log != [] && Enabled(s, a)
    ensures Legal(INITIAL, longer) && After(INITIAL, longer) == Next(s, a)
  {
    assert [a][1..] == [];
    assert Legal(Next(s, a), []) && After(Next(s, a), []) == Next(s, a);
    assert Legal(s, [a]) && After(s, [a]) == Next(s, a);
    LegalConcat(INITIAL, run, [a]);
    longer := run + [a];
  }

  /** One switch on an idle database, run to the end. */
  lemma LoneSwitch(run: seq<Action>, s: State, v: Option<Target>) returns (longer: seq<Action>)
    requires Legal(INITIAL, run) && After(INITIAL, run) == s && s.log != [] && s.mu.None? && s.conns == {}
    ensures Legal(INITIAL, longer)
    ensures After(INITIAL, longer) ==
            s.(log := s.log + [v], clock := s.clock + 1,
               ss := s.ss + [Switcher(Finished, Store(v), |s.log| + 1, s.clock + 1, {}, {})])
  {
    hide Legal, After;
    var w, step := |s.ss|, SwitcherStep(|s.ss|, 0);
    longer := Extend(run, s, Use(Store(v)));
    var log, ss := s.log + [v], s.ss;
    var s1 := s.(ss := ss + [Switcher(Begin, Store(v), 0, 0, {}, {})]);
    longer := Extend(longer, s1, step);
    var s2 := s.(log := log, ss := ss + [Switcher(Stored, Store(v), |log|, 0, {}, {})]);
    longer := Extend(longer, s2, step);
    var s3 := s2.(mu := Some(S(w)), ss := ss + [Switcher(Holding, Store(v), |log|, 0, {}, {})]);
    longer := Extend(longer, s3, step);
    var s4 := s3.(clock := s.clock + 1, ss := ss + [Switcher(Snapped, Store(v), |log|, s.clock + 1, {}, {})]);
    longer := Extend(longer, s4, step);
    var s5 := s4.(mu := None, ss := ss + [Switcher(Looping, Store(v), |log|, s.clock + 1, {}, {})]);
    longer := Extend(longer, s5, step);
  }

  /** "No connection on an old target after a switch" is not kept by all schedules: a client that loaded target 1 registers
      after the switch to target 2 has finished. */
  lemma StaleConnectionPossible() returns (run: seq<Action>)
    ensures Legal(INITIAL, run)
    ensures var s := After(INITIAL, run);
            && Stale(s, 1, 0) && s.ss[1].pc.Finished? && s.hs[0].pc.Piping?
            && s.hs[0].target == Some(1) && s.log == [None, Some(1), Some(2)]
  {
    assert Legal(INITIAL, []) && After(INITIAL, []) == INITIAL;
    hide Legal, After;
    run := LoneSwitch([], INITIAL, Some(1));
    var s0 := After(INITIAL, run);
    run := Extend(run, s0, Accept);
    run := Extend(run, Next(s0, Accept), HandlerStep(0, true));
    var s1 := s0.(hs := [Handler(Loaded, Some(1), 2, 0, Fresh, 0)]);
    run := Extend(run, s1, HandlerStep(0, true));
    var s2 := s0.(hs := [Handler(Dialled, Some(1), 2, 0, Fresh, 0)]);
    run := LoneSwitch(run, s2, Some(2));
    var s3 := After(INITIAL, run);
    CompletesRegistration(s3, 0);
    LegalConcat(INITIAL, run, Register(0));
    run := run + Register(0);
  }
}
