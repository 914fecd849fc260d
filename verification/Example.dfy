/** A small accepted configuration on which the documented and the actual behaviour of switching part. */
module Example {
  import opened Octets
  import opened Variables
  import opened Switching
  import C = Config
  import Overlap
  import Routing

  const RED: Octets := [0x72]
  const BLUE: Octets := [0x62]
  const X: Octets := [0x78]
  const Y: Octets := [0x79]

  function Plain(name: Octets): C.Target {
    C.Target(name, [0x68], 5432, [], [0x75], [0x70], [], [], [])
  }

  const BOTH := C.Database(C.POSTGRES, X, [Plain(RED), Plain(BLUE)])
  const ONE := C.Database(C.POSTGRES, Y, [Plain(RED)])

  /** "x" declares a red and a blue target, "y" only the red one. */
  const CONFIG := C.Config(map[C.POSTGRES := 6432], map[], [BOTH, ONE])

  const DATABASES: Databases := map[X := BOTH, Y := ONE]

  lemma ByNameIs()
    ensures ByName(CONFIG.databases) == DATABASES
  {
    var ds := CONFIG.databases;
    assert ds[..1] == [BOTH] && ds[..1][..0] == [];
    assert ByName([BOTH]) == map[X := BOTH] by { assert [BOTH][..0] == []; }
  }

  lemma PlainOk(name: Octets)
    requires name != []
    ensures C.TargetOk(Plain(name), map[])
  {}

  lemma Accepted()
    ensures C.Accepts(CONFIG)
  {
    PlainOk(RED);
    PlainOk(BLUE);
    assert C.DatabaseOk(BOTH, CONFIG) && C.DatabaseOk(ONE, CONFIG);
  }

  lemma Declares()
    ensures FindTarget(BOTH.targets, RED) == Some(Plain(RED)) && FindTarget(BOTH.targets, BLUE) == Some(Plain(BLUE))
    ensures FindTarget(ONE.targets, RED) == Some(Plain(RED)) && FindTarget(ONE.targets, BLUE) == None
  {
    assert BOTH.targets[..1] == [Plain(RED)];
  }

  lemma PlainResolves(d: C.Database, name: Octets, vars: Vars)
    requires FindTarget(d.targets, name) == Some(Plain(name))
    ensures ResolveTarget(d, map[], name, vars) == Planned(ResolvedTarget(name, [0x68], 5432, [0x75], [0x70], [], [], []))
  {
    C.DollarFreeResolvesToItself([], vars);
  }

  /** Both targets can be used, blue although "y" does not know it. */
  lemma BothSucceed(vars: Vars)
    ensures Succeeds(DATABASES, map[], RED, vars) && Succeeds(DATABASES, map[], BLUE, vars)
    ensures !HasTarget(ONE, BLUE) && Expected(ONE, map[], BLUE, vars) == None
    ensures Expected(BOTH, map[], RED, vars) != Expected(BOTH, map[], BLUE, vars)
  {
    Declares();
    PlainResolves(BOTH, RED, vars);
    PlainResolves(BOTH, BLUE, vars);
    PlainResolves(ONE, RED, vars);
    hide FindTarget, ResolveTarget;
    assert X in DATABASES && HasTarget(DATABASES[X], RED) && HasTarget(DATABASES[X], BLUE);
  }

  /** A server starts on blue, with "y" left inactive, where the comment on New announces a failure. */
  method StartWithoutTarget(vars: Vars) returns (s: Routing.Server)
    ensures s.Valid() && s.currentTarget == BLUE && Y in s.databases && !HasTarget(s.databases[Y].cfg, BLUE)
    ensures s.databases[Y].current == None
  {
    Accepted();
    ByNameIs();
    BothSucceed(vars);
    hide Succeeds, HasTarget, Expected, C.Accepts, ByName;
    var server := Routing.New(CONFIG, BLUE, vars);
    server.ConfigsAt();
    server.ViewsAt();
    s := server;
  }

  /** Overlapping uses of red and blue can leave "x" on red with blue published. */
  lemma RedAndBlueOverlap(s: State, vars: Vars) returns (m: seq<Overlap.Write>)
    requires s.current.Keys == {X, Y}
    ensures Overlap.Merge(Overlap.Commit([X, Y], Call(RED, vars)), Overlap.Commit([X, Y], Call(BLUE, vars)), m)
    ensures var t := Overlap.Replay(DATABASES, map[], s, m);
            && X in t.current && t.current[X] == Expected(BOTH, map[], RED, vars) && t.target == BLUE
            && !Agrees(DATABASES, map[], t)
  {
    BothSucceed(vars);
    assert Overlap.Visits([X, Y], DATABASES.Keys);
    hide Expected, Overlap.Merge, Overlap.Replay, Overlap.Commit, Agrees;
    m := Overlap.OverlapCanDisagree(DATABASES, map[], s, [X, Y], [X, Y], Call(RED, vars), Call(BLUE, vars), X);
  }
}
