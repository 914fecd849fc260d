/** Calls of SwitchAll that overlap: their commits are separate writes, and no lock holds them together. */
module Overlap {
  import opened Octets
  import opened Variables
  import opened Switching

  /** One write of phase 2: a database's current target, or the global target and variables. */
  datatype Write = Put(n: Octets, call: Call) | Publish(call: Call)

  function Effect(ds: Databases, fwd: Forwards, s: State, w: Write): State
  {
    match w
    case Put(n, c) => if n in ds then s.(current := s.current[n := Expected(ds[n], fwd, c.target, c.vars)]) else s
    case Publish(c) => s.(target := c.target, vars := c.vars)
  }

  function Replay(ds: Databases, fwd: Forwards, s: State, ws: seq<Write>): State
    decreases |ws|
  {
    if ws == [] then s else Replay(ds, fwd, Effect(ds, fwd, s, ws[0]), ws[1..])
  }

  function Puts(order: seq<Octets>, c: Call): seq<Write> {
    if order == [] then [] else [Put(order[0], c)] + Puts(order[1..], c)
  }

  /** The writes of one successful call, its databases in the given order. */
  function Commit(order: seq<Octets>, c: Call): seq<Write> {
    Puts(order, c) + [Publish(c)]
  }

  /** A map iteration: every database once, in some order. */
  ghost predicate Visits(order: seq<Octets>, names: set<Octets>) {
    NoDuplicates(order) && (forall n :: n in order <==> n in names)
  }

  /** `m` is `a` and `b` shuffled together. */
  predicate Merge(a: seq<Write>, b: seq<Write>, m: seq<Write>) {
    if m == [] then a == [] && b == []
    else (a != [] && a[0] == m[0] && Merge(a[1..], b, m[1..])) || (b != [] && b[0] == m[0] && Merge(a, b[1..], m[1..]))
  }

  // ---------------------------------------------------------------- last writer wins

  /** The call that wrote database `n` last. */
  function LastPut(ws: seq<Write>, n: Octets): Option<Call> {
    if ws == [] then None
    else var w := ws[|ws| - 1];
         if w.Put? && w.n == n then Some(w.call) else LastPut(ws[..|ws| - 1], n)
  }

  function LastPublish(ws: seq<Write>): Option<Call> {
    if ws == [] then None
    else var w := ws[|ws| - 1];
         if w.Publish? then Some(w.call) else LastPublish(ws[..|ws| - 1])
  }

  lemma {:induction false} ReplayLast(ds: Databases, fwd: Forwards, s: State, ws: seq<Write>, w: Write)
    ensures Replay(ds, fwd, s, ws + [w]) == Effect(ds, fwd, Replay(ds, fwd, s, ws), w)
    decreases |ws|
  {
    hide Effect;
    if ws == [] {
      assert (ws + [w])[1..] == [];
    } else {
      assert (ws + [w])[1..] == ws[1..] + [w];
      ReplayLast(ds, fwd, Effect(ds, fwd, s, ws[0]), ws[1..], w);
    }
  }

  /** After any writes each database is where its last writer put it, and the globals are the last publisher's. */
  lemma {:induction false} LastWriterWins(ds: Databases, fwd: Forwards, s: State, ws: seq<Write>, n: Octets)
    requires n in ds && s.current.Keys == ds.Keys
    ensures var t := Replay(ds, fwd, s, ws);
            && t.current.Keys == ds.Keys
            && t.current[n] == (match LastPut(ws, n)
                                case Some(c) => Expected(ds[n], fwd, c.target, c.vars)
                                case None => s.current[n])
            && (match LastPublish(ws)
                case Some(c) => t.target == c.target && t.vars == c.vars
                case None => t.target == s.target && t.vars == s.vars)
    decreases |ws|
  {
    hide Expected;
    if ws != [] {
      var before, w := ws[..|ws| - 1], ws[|ws| - 1];
      assert ws == before + [w];
      LastWriterWins(ds, fwd, s, before, n);
      ReplayLast(ds, fwd, s, before, w);
    }
  }

  // ---------------------------------------------------------------- serial commits

  lemma {:induction false} LastPutOfPuts(order: seq<Octets>, c: Call, n: Octets)
    ensures LastPut(Commit(order, c), n) == if n in order then Some(c) else None
    ensures LastPublish(Commit(order, c)) == Some(c)
  {
    var ws := Commit(order, c);
    assert ws[..|ws| - 1] == Puts(order, c);
    PutsOnly(order, c, n);
  }

  lemma {:induction false} PutsOnly(order: seq<Octets>, c: Call, n: Octets)
    ensures LastPut(Puts(order, c), n) == if n in order then Some(c) else None
    decreases order
  {
    if order != [] {
      var last := |order| - 1;
      PutsSnoc(order[..last], order[last], c);
      assert order == order[..last] + [order[last]];
      var ws := Puts(order, c);
      assert ws[..|ws| - 1] == Puts(order[..last], c);
      PutsOnly(order[..last], c, n);
    }
  }

  lemma {:induction false} PutsSnoc(order: seq<Octets>, n: Octets, c: Call)
    ensures Puts(order + [n], c) == Puts(order, c) + [Put(n, c)]
  {
    if order == [] {
      assert (order + [n])[1..] == [];
    } else {
      assert (order + [n])[1..] == order[1..] + [n];
      PutsSnoc(order[1..], n, c);
    }
  }

  /** A commit that nothing overlaps is the reference step, whatever the iteration order. */
  lemma CommitIsStep(ds: Databases, fwd: Forwards, s: State, order: seq<Octets>, c: Call)
    requires s.current.Keys == ds.Keys && Visits(order, ds.Keys) && Succeeds(ds, fwd, c.target, c.vars)
    ensures Replay(ds, fwd, s, Commit(order, c)) == Step(ds, fwd, s, c)
  {
    hide Succeeds, Expected, Replay, Commit, LastPut, LastPublish;
    var t := Replay(ds, fwd, s, Commit(order, c));
    forall n | n in ds
      ensures t.current.Keys == ds.Keys && t.current[n] == Expected(ds[n], fwd, c.target, c.vars)
      ensures t.target == c.target && t.vars == c.vars
    {
      LastPutOfPuts(order, c, n);
      LastWriterWins(ds, fwd, s, Commit(order, c), n);
    }
    SomeDatabase(ds, fwd, c);
    assert t.current == Step(ds, fwd, s, c).current;
  }

  lemma SomeDatabase(ds: Databases, fwd: Forwards, c: Call)
    requires Succeeds(ds, fwd, c.target, c.vars)
    ensures exists n :: n in ds
  {}

  // ---------------------------------------------------------------- overlapping commits

  /** Every write of a shuffle comes from one of the two calls, and none is lost. */
  lemma {:induction false} MergeKeepsWrites(a: seq<Write>, b: seq<Write>, m: seq<Write>, w: Write)
    requires Merge(a, b, m)
    ensures w in m <==> w in a || w in b
    decreases m
  {
    if m != [] {
      if a != [] && a[0] == m[0] && Merge(a[1..], b, m[1..]) {
        MergeKeepsWrites(a[1..], b, m[1..], w);
        assert a == [a[0]] + a[1..];
      } else {
        MergeKeepsWrites(a, b[1..], m[1..], w);
        assert b == [b[0]] + b[1..];
      }
      assert m == [m[0]] + m[1..];
    }
  }

  lemma {:induction false} LastPutIsWrite(ws: seq<Write>, n: Octets)
    ensures match LastPut(ws, n)
            case Some(c) => Put(n, c) in ws
            case None => forall w :: w in ws ==> !(w.Put? && w.n == n)
    ensures match LastPublish(ws)
            case Some(c) => Publish(c) in ws
            case None => forall w :: w in ws ==> !w.Publish?
  {
    if ws != [] {
      LastPutIsWrite(ws[..|ws| - 1], n);
      assert ws == ws[..|ws| - 1] + [ws[|ws| - 1]];
    }
  }

  lemma CommitCons(order: seq<Octets>, c: Call)
    requires order != []
    ensures Commit(order, c) == [Put(order[0], c)] + Commit(order[1..], c)
  {}

  lemma {:induction false} CommitWrites(order: seq<Octets>, c: Call, w: Write)
    ensures w in Commit(order, c) <==> w == Publish(c) || (w.Put? && w.call == c && w.n in order)
  {
    if order != [] {
      CommitWrites(order[1..], c, w);
      CommitCons(order, c);
      hide Commit;
      assert order == [order[0]] + order[1..];
    }
  }

  /** The last writer of every database, and the last publisher, is one of the two calls. */
  lemma LastIsEither(order: seq<Octets>, other: seq<Octets>, c: Call, d: Call, m: seq<Write>, n: Octets)
    requires Merge(Commit(order, c), Commit(other, d), m) && n in order
    ensures LastPut(m, n) == Some(c) || LastPut(m, n) == Some(d)
    ensures LastPublish(m) == Some(c) || LastPublish(m) == Some(d)
  {
    LastPutIsWrite(m, n);
    hide Merge, LastPut, LastPublish;
    MergeKeepsWrites(Commit(order, c), Commit(other, d), m, Put(n, c));
    MergeKeepsWrites(Commit(order, c), Commit(other, d), m, Publish(c));
    CommitWrites(order, c, Put(n, c));
    CommitWrites(order, c, Publish(c));
    if LastPut(m, n).Some? {
      var w := Put(n, LastPut(m, n).value);
      MergeKeepsWrites(Commit(order, c), Commit(other, d), m, w);
      CommitWrites(order, c, w);
      CommitWrites(other, d, w);
    }
    if LastPublish(m).Some? {
      var w := Publish(LastPublish(m).value);
      MergeKeepsWrites(Commit(order, c), Commit(other, d), m, w);
      CommitWrites(order, c, w);
      CommitWrites(other, d, w);
    }
  }

  /** Two calls want the same of every database. */
  predicate SameWish(ds: Databases, fwd: Forwards, c: Call, d: Call) {
    forall n :: n in ds ==> Expected(ds[n], fwd, c.target, c.vars) == Expected(ds[n], fwd, d.target, d.vars)
  }

  lemma {:induction false} ReplayKeepsKeys(ds: Databases, fwd: Forwards, s: State, ws: seq<Write>)
    requires s.current.Keys == ds.Keys
    ensures Replay(ds, fwd, s, ws).current.Keys == ds.Keys
    decreases |ws|
  {
    hide Expected;
    if ws != [] {
      ReplayKeepsKeys(ds, fwd, Effect(ds, fwd, s, ws[0]), ws[1..]);
    }
  }

  /** Calls with the same wish agree however their commits overlap. */
  lemma SameWishAgrees(
    ds: Databases, fwd: Forwards, s: State, order: seq<Octets>, other: seq<Octets>, c: Call, d: Call, m: seq<Write>)
    requires s.current.Keys == ds.Keys && Visits(order, ds.Keys) && Visits(other, ds.Keys) && SameWish(ds, fwd, c, d)
    requires Merge(Commit(order, c), Commit(other, d), m)
    ensures Agrees(ds, fwd, Replay(ds, fwd, s, m))
  {
    hide Expected, Replay, LastPut, LastPublish, Merge, Commit;
    ReplayKeepsKeys(ds, fwd, s, m);
    forall n | n in ds
      ensures var t := Replay(ds, fwd, s, m); t.current[n] == Expected(ds[n], fwd, t.target, t.vars)
    {
      LastIsEither(order, other, c, d, m, n);
      LastWriterWins(ds, fwd, s, m, n);
    }
  }

  /** The late shuffle: `c` stops before database `n`, `d` runs up to its publication, `c` ends, `d` publishes. */
  function LateShuffle(before: seq<Octets>, rest: seq<Octets>, other: seq<Octets>, c: Call, d: Call): seq<Write> {
    Puts(before, c) + (Puts(other, d) + (Commit(rest, c) + [Publish(d)]))
  }

  lemma {:induction false} MergeLeft(x: seq<Write>, a: seq<Write>, b: seq<Write>, m: seq<Write>)
    requires Merge(a, b, m)
    ensures Merge(x + a, b, x + m)
    decreases |x|
  {
    if x == [] {
      assert x + a == a && x + m == m;
    } else {
      MergeLeft(x[1..], a, b, m);
      assert (x + a)[1..] == x[1..] + a && (x + m)[1..] == x[1..] + m;
    }
  }

  lemma {:induction false} MergeRight(x: seq<Write>, a: seq<Write>, b: seq<Write>, m: seq<Write>)
    requires Merge(a, b, m)
    ensures Merge(a, x + b, x + m)
    decreases |x|
  {
    if x == [] {
      assert x + b == b && x + m == m;
    } else {
      MergeRight(x[1..], a, b, m);
      assert (x + b)[1..] == x[1..] + b && (x + m)[1..] == x[1..] + m;
    }
  }

  lemma {:induction false} PutsConcat(a: seq<Octets>, b: seq<Octets>, c: Call)
    ensures Puts(a + b, c) == Puts(a, c) + Puts(b, c)
  {
    if a == [] {
      assert a + b == b;
    } else {
      assert (a + b)[1..] == a[1..] + b;
      PutsConcat(a[1..], b, c);
    }
  }

  lemma LateShuffleMerges(before: seq<Octets>, rest: seq<Octets>, other: seq<Octets>, c: Call, d: Call)
    ensures Merge(Commit(before + rest, c), Commit(other, d), LateShuffle(before, rest, other, c, d))
  {
    var end: seq<Write> := [];
    assert Merge(end, end, end);
    hide Merge;
    MergeRight([Publish(d)], end, end, end);
    assert [Publish(d)] + end == [Publish(d)];
    MergeLeft(Commit(rest, c), end, [Publish(d)], [Publish(d)]);
    assert Commit(rest, c) + end == Commit(rest, c);
    MergeRight(Puts(other, d), Commit(rest, c), [Publish(d)], Commit(rest, c) + [Publish(d)]);
    MergeLeft(Puts(before, c), Commit(rest, c), Commit(other, d), Puts(other, d) + (Commit(rest, c) + [Publish(d)]));
    PutsConcat(before, rest, c);
    assert Puts(before, c) + Commit(rest, c) == Commit(before + rest, c);
  }

  lemma {:induction false} LastPutAfter(ws: seq<Write>, more: seq<Write>, n: Octets)
    ensures LastPut(ws + more, n) == if LastPut(more, n).Some? then LastPut(more, n) else LastPut(ws, n)
    decreases |more|
  {
    if more == [] {
      assert ws + more == ws;
    } else {
      assert (ws + more)[..|ws + more| - 1] == ws + more[..|more| - 1];
      LastPutAfter(ws, more[..|more| - 1], n);
    }
  }

  lemma LateShuffleEnds(before: seq<Octets>, rest: seq<Octets>, other: seq<Octets>, c: Call, d: Call, n: Octets)
    requires n in rest
    ensures LastPut(LateShuffle(before, rest, other, c, d), n) == Some(c)
    ensures LastPublish(LateShuffle(before, rest, other, c, d)) == Some(d)
  {
    var ws := LateShuffle(before, rest, other, c, d);
    var base := Puts(before, c) + Puts(other, d);
    var done := base + Commit(rest, c);
    LastPutOfPuts(rest, c, n);
    LastPutAfter(base, Commit(rest, c), n);
    assert ws == done + [Publish(d)];
    assert ws[..|ws| - 1] == done;
  }

  lemma SplitAt(order: seq<Octets>, n: Octets) returns (before: seq<Octets>, rest: seq<Octets>)
    requires n in order
    ensures before + rest == order && n in rest
  {
    var i :| 0 <= i < |order| && order[i] == n;
    before, rest := order[..i], order[i..];
    assert rest[0] == n;
  }

  /** Where two calls differ in their wish for a database, some overlap leaves it on the one while the other is published. */
  lemma OverlapCanDisagree(
    ds: Databases, fwd: Forwards, s: State, order: seq<Octets>, other: seq<Octets>, c: Call, d: Call, n: Octets)
    returns (m: seq<Write>)
    requires s.current.Keys == ds.Keys && Visits(order, ds.Keys) && Visits(other, ds.Keys) && n in ds
    requires Expected(ds[n], fwd, c.target, c.vars) != Expected(ds[n], fwd, d.target, d.vars)
    ensures Merge(Commit(order, c), Commit(other, d), m)
    ensures var t := Replay(ds, fwd, s, m);
            && t.current.Keys == ds.Keys && t.current[n] == Expected(ds[n], fwd, c.target, c.vars)
            && t.target == d.target && t.vars == d.vars && !Agrees(ds, fwd, t)
  {
    var before, rest := SplitAt(order, n);
    m := LateShuffle(before, rest, other, c, d);
    hide Expected, Replay, LastPut, LastPublish, Merge, Commit, LateShuffle;
    LateShuffleMerges(before, rest, other, c, d);
    LateShuffleEnds(before, rest, other, c, d, n);
    LastWriterWins(ds, fwd, s, m, n);
  }

  /** Two calls can overlap safely, whatever the schedule, exactly when they want the same of every database. */
  lemma OverlapSafeIffSameWish(
    ds: Databases, fwd: Forwards, s: State, order: seq<Octets>, other: seq<Octets>, c: Call, d: Call)
    requires s.current.Keys == ds.Keys && Visits(order, ds.Keys) && Visits(other, ds.Keys)
    ensures (forall m :: Merge(Commit(order, c), Commit(other, d), m) ==> Agrees(ds, fwd, Replay(ds, fwd, s, m)))
            <==> SameWish(ds, fwd, c, d)
  {
    hide Expected, Replay, Merge, Commit, Agrees;
    if SameWish(ds, fwd, c, d) {
      forall m | Merge(Commit(order, c), Commit(other, d), m)
        ensures Agrees(ds, fwd, Replay(ds, fwd, s, m))
      {
        SameWishAgrees(ds, fwd, s, order, other, c, d, m);
      }
    } else {
      var n :| n in ds && Expected(ds[n], fwd, c.target, c.vars) != Expected(ds[n], fwd, d.target, d.vars);
      var m := OverlapCanDisagree(ds, fwd, s, order, other, c, d, n);
    }
  }
}
