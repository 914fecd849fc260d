/** Database-name templates: "${VAR}" references, "$$" escapes, and their resolution. */
module Variables {
  import opened Octets

  const DOLLAR: Byte := 0x24
  const OPEN: Byte := 0x7B
  const CLOSE: Byte := 0x7D

  type Vars = map<Octets, Octets>

  /** A template is a sequence of literal bytes and variable references. */
  datatype Piece = Lit(c: Byte) | Var(name: Octets)

  /** The template's pieces, or None at a bare "$" or an unclosed "${". */
  function Parse(s: Octets): (r: Option<seq<Piece>>)
    decreases |s|
  {
    if s == [] then Some([])
    else if s[0] != DOLLAR then
      var rest :- Parse(s[1..]);
      Some([Lit(s[0])] + rest)
    else if |s| >= 2 && s[1] == DOLLAR then
      var rest :- Parse(s[2..]);
      Some([Lit(DOLLAR)] + rest)
    else if |s| >= 2 && s[1] == OPEN then
      var end :- FindByte(s, 2, CLOSE);
      var rest :- Parse(s[end + 1..]);
      Some([Var(s[2..end])] + rest)
    else None
  }

  function RenderPiece(p: Piece): Octets
  {
    match p
    case Lit(c) => if c == DOLLAR then [DOLLAR, DOLLAR] else [c]
    case Var(name) => [DOLLAR, OPEN] + name + [CLOSE]
  }

  function Render(ps: seq<Piece>): Octets
  {
    if ps == [] then [] else RenderPiece(ps[0]) + Render(ps[1..])
  }

  predicate Writable(ps: seq<Piece>) {
    forall p :: p in ps && p.Var? ==> Free(p.name, CLOSE)
  }

  lemma ParsePiece(p: Piece, rest: Octets)
    requires (p.Var? ==> Free(p.name, CLOSE)) && Parse(rest).Some?
    ensures Parse(RenderPiece(p) + rest) == Some([p] + Parse(rest).value)
  {
    var s := RenderPiece(p) + rest;
    match p
    case Lit(c) =>
      assert s[if c == DOLLAR then 2 else 1..] == rest;
    case Var(name) =>
      var end := 2 + |name|;
      assert s[2..end] == name && s[end] == CLOSE;
      FindTerminator(s, 2, name, CLOSE);
      assert s[end + 1..] == rest;
  }

  /** Every list of pieces is the reading of the template that spells it out. */
  lemma {:induction false} ParseRender(ps: seq<Piece>)
    requires Writable(ps)
    ensures Parse(Render(ps)) == Some(ps)
  {
    if ps != [] {
      hide Parse, RenderPiece;
      ParseRender(ps[1..]);
      assert ps[0] in ps;
      ParsePiece(ps[0], Render(ps[1..]));
      assert ps == [ps[0]] + ps[1..];
    }
  }

  lemma RenderCons(p: Piece, ps: seq<Piece>)
    requires p.Var? ==> Free(p.name, CLOSE)
    ensures Render([p] + ps) == RenderPiece(p) + Render(ps)
    ensures Writable(ps) ==> Writable([p] + ps)
  {
    assert ([p] + ps)[1..] == ps;
  }

  /** The piece a template starts with, and where the rest begins. */
  lemma FirstPiece(s: Octets) returns (p: Piece, k: nat)
    requires s != [] && Parse(s).Some?
    ensures 0 < k <= |s| && Parse(s[k..]).Some?
    ensures Parse(s).value == [p] + Parse(s[k..]).value
    ensures RenderPiece(p) == s[..k] && (p.Var? ==> Free(p.name, CLOSE))
  {
    if s[0] != DOLLAR {
      p, k := Lit(s[0]), 1;
    } else if s[1] == DOLLAR {
      p, k := Lit(DOLLAR), 2;
    } else {
      var end := FindByte(s, 2, CLOSE).value;
      p, k := Var(s[2..end]), end + 1;
      hide Parse;
      NamedPiece(s, end);
    }
  }

  lemma NamedPiece(s: Octets, end: nat)
    requires 2 <= end < |s| && s[0] == DOLLAR && s[1] == OPEN && s[end] == CLOSE && CLOSE !in s[2..end]
    ensures RenderPiece(Var(s[2..end])) == s[..end + 1] && Free(s[2..end], CLOSE)
  {}

  /** A template that parses is spelled out by its pieces: parsing loses nothing. */
  lemma {:induction false} RenderParse(s: Octets)
    requires Parse(s).Some?
    ensures Render(Parse(s).value) == s && Writable(Parse(s).value)
    decreases |s|
  {
    if s != [] {
      hide *;
      var p, k := FirstPiece(s);
      RenderParse(s[k..]);
      RenderCons(p, Parse(s[k..]).value);
      assert s == s[..k] + s[k..];
    }
  }

  // ---------------------------------------------------------------- meaning

  /** Names in order of occurrence, repeats included. */
  function Names(ps: seq<Piece>): seq<Octets>
  {
    if ps == [] then []
    else if ps[0].Var? then [ps[0].name] + Names(ps[1..])
    else Names(ps[1..])
  }

  function Drop(ns: seq<Octets>, gone: set<Octets>): (r: seq<Octets>)
    ensures forall n :: n in r <==> n in ns && n !in gone
  {
    if ns == [] then []
    else if ns[0] in gone then Drop(ns[1..], gone)
    else [ns[0]] + Drop(ns[1..], gone)
  }

  /** First occurrences only. */
  function Dedup(ns: seq<Octets>): (r: seq<Octets>)
    ensures forall n :: n in r <==> n in ns
  {
    if ns == [] then [] else [ns[0]] + Drop(Dedup(ns[1..]), {ns[0]})
  }

  predicate NoDuplicates(ns: seq<Octets>) {
    forall i, j :: 0 <= i < j < |ns| ==> ns[i] != ns[j]
  }

  lemma {:induction false} DropKeepsDistinct(ns: seq<Octets>, gone: set<Octets>)
    requires NoDuplicates(ns)
    ensures NoDuplicates(Drop(ns, gone))
  {
    if ns != [] {
      DropKeepsDistinct(ns[1..], gone);
      assert ns[0] !in ns[1..];
    }
  }

  lemma {:induction false} DedupDistinct(ns: seq<Octets>)
    ensures NoDuplicates(Dedup(ns))
  {
    if ns != [] {
      DedupDistinct(ns[1..]);
      DropKeepsDistinct(Dedup(ns[1..]), {ns[0]});
    }
  }

  lemma {:induction false} DropDrop(ns: seq<Octets>, a: set<Octets>, b: set<Octets>)
    ensures Drop(Drop(ns, a), b) == Drop(ns, a + b)
  {
    if ns != [] {
      DropDrop(ns[1..], a, b);
    }
  }

  lemma {:induction false} DropDedup(ns: seq<Octets>, gone: set<Octets>)
    ensures Drop(Dedup(ns), gone) == Dedup(Drop(ns, gone))
  {
    if ns != [] {
      var rest := Dedup(ns[1..]);
      DropDedup(ns[1..], gone);
      DropDrop(rest, {ns[0]}, gone);
      DropDrop(rest, gone, {ns[0]});
      assert {ns[0]} + gone == gone + {ns[0]};
      if ns[0] in gone {
        assert gone + {ns[0]} == gone;
      }
    }
  }

  /** The text with every reference replaced; absent variables contribute nothing. */
  function Denote(ps: seq<Piece>, vars: Vars): Octets
  {
    if ps == [] then []
    else match ps[0]
         case Lit(c) => [c] + Denote(ps[1..], vars)
         case Var(name) => (if name in vars then vars[name] else []) + Denote(ps[1..], vars)
  }

  datatype Resolution = Resolved(text: Octets) | Missing(names: seq<Octets>) | Malformed

  function MeaningOf(ps: Option<seq<Piece>>, vars: Vars): Resolution
  {
    match ps
    case None => Malformed
    case Some(ps) =>
      var missing := Drop(Dedup(Names(ps)), vars.Keys);
      if missing == [] then Resolved(Denote(ps, vars)) else Missing(missing)
  }

  /** What a template means: its text, or the required names it lacks, in first-occurrence order. */
  function Meaning(s: Octets, vars: Vars): Resolution
  {
    MeaningOf(Parse(s), vars)
  }

  // -------------------------------------------------------------- the loops

  /** Appending each name of `ns` not seen before and not excluded, left to right. */
  function Collect(acc: seq<Octets>, ns: seq<Octets>, except: set<Octets>): seq<Octets>
    decreases ns
  {
    if ns == [] then acc
    else if ns[0] in except || ns[0] in acc then Collect(acc, ns[1..], except)
    else Collect(acc + [ns[0]], ns[1..], except)
  }

  function Elements(ns: seq<Octets>): set<Octets> {
    set n | n in ns
  }

  lemma DedupStep(ns: seq<Octets>, gone: set<Octets>)
    requires ns != []
    ensures Drop(Dedup(ns), gone)
            == if ns[0] in gone then Drop(Dedup(ns[1..]), gone) else [ns[0]] + Drop(Dedup(ns[1..]), {ns[0]} + gone)
  {
    var n, rest := ns[0], Dedup(ns[1..]);
    assert Dedup(ns) == [n] + Drop(rest, {n});
    hide *;
    DropDrop(rest, {n}, gone);
    DropCons(n, Drop(rest, {n}), gone);
    if n in gone {
      assert {n} + gone == gone;
    }
  }

  lemma CollectStep(acc: seq<Octets>, ns: seq<Octets>, except: set<Octets>)
    requires ns != []
    ensures Collect(acc, ns, except)
            == Collect(if ns[0] in Elements(acc) + except then acc else acc + [ns[0]], ns[1..], except)
    ensures Elements(acc + [ns[0]]) + except == {ns[0]} + (Elements(acc) + except)
  {}

  lemma {:induction false} CollectIsDedup(acc: seq<Octets>, ns: seq<Octets>, except: set<Octets>)
    ensures Collect(acc, ns, except) == acc + Drop(Dedup(ns), Elements(acc) + except)
    decreases ns
  {
    if ns != [] {
      hide *;
      var n, gone := ns[0], Elements(acc) + except;
      DedupStep(ns, gone);
      CollectStep(acc, ns, except);
      if n in gone {
        CollectIsDedup(acc, ns[1..], except);
      } else {
        CollectIsDedup(acc + [n], ns[1..], except);
        Regroup(acc, n, Drop(Dedup(ns[1..]), {n} + gone));
      }
    }
  }

  lemma Regroup(acc: seq<Octets>, n: Octets, rest: seq<Octets>)
    ensures acc + ([n] + rest) == acc + [n] + rest
  {}

  lemma DropCons(n: Octets, ns: seq<Octets>, gone: set<Octets>)
    ensures Drop([n] + ns, gone) == if n in gone then Drop(ns, gone) else [n] + Drop(ns, gone)
  {
    assert ([n] + ns)[1..] == ns;
  }

  /** How Resolve ends, given the unread pieces and what it has built so far. */
  function Finish(ps: Option<seq<Piece>>, built: Octets, missing: seq<Octets>, vars: Vars): Resolution
  {
    match ps
    case None => Malformed
    case Some(ps) =>
      var all := Collect(missing, Names(ps), vars.Keys);
      if all == [] then Resolved(built + Denote(ps, vars)) else Missing(all)
  }

  lemma FinishIsMeaning(s: Octets, vars: Vars)
    ensures Finish(Parse(s), [], [], vars) == Meaning(s, vars)
  {
    hide Parse, Collect, Drop, Dedup, Names, Denote;
    if Parse(s).Some? {
      CollectIsDedup([], Names(Parse(s).value), vars.Keys);
      assert Elements([]) + vars.Keys == vars.Keys;
    }
  }

  lemma {:induction false} CollectGrows(acc: seq<Octets>, ns: seq<Octets>, except: set<Octets>)
    ensures acc <= Collect(acc, ns, except)
    decreases ns
  {
    if ns != [] {
      CollectGrows(acc, ns[1..], except);
      CollectGrows(acc + [ns[0]], ns[1..], except);
    }
  }

  function Consed(p: Piece, rest: Option<seq<Piece>>): Option<seq<Piece>> {
    if rest.None? then None else Some([p] + rest.value)
  }

  /** Consuming one piece moves it from the unread part into the accumulators. */
  lemma FinishStep(p: Piece, rest: Option<seq<Piece>>, built: Octets, missing: seq<Octets>, vars: Vars)
    ensures Finish(Consed(p, rest), built, missing, vars)
            == if p.Lit? then Finish(rest, built + [p.c], missing, vars)
               else if p.name in vars then Finish(rest, built + vars[p.name], missing, vars)
               else Finish(rest, built, if p.name in missing then missing else missing + [p.name], vars)
  {
    if rest.Some? {
      var ps := [p] + rest.value;
      var d := Denote(rest.value, vars);
      assert ps[1..] == rest.value;
      match p
      case Lit(c) => assert built + ([c] + d) == built + [c] + d;
      case Var(name) =>
        assert Names(ps) == [name] + Names(rest.value);
        assert Names(ps)[1..] == Names(rest.value);
        if name in vars {
          assert built + (vars[name] + d) == built + vars[name] + d;
        } else {
          CollectGrows(if name in missing then missing else missing + [name], Names(rest.value), vars.Keys);
        }
    }
  }

  /** Resolve: one pass over the template, filling a builder and a list of missing names. */
  method Resolve(s: Octets, vars: Vars) returns (r: Resolution)
    ensures r == Meaning(s, vars)
  {
    hide *;
    FinishIsMeaning(s, vars);
    var b: Octets := [];
    var missing: seq<Octets> := [];
    var seen: set<Octets> := {};
    var i := 0;
    assert s[0..] == s;
    assert seen == Elements(missing) by { Grown([], []); }
    while i < |s|
      invariant 0 <= i <= |s|
      invariant seen == Elements(missing)
      invariant Finish(Parse(s[i..]), b, missing, vars) == Meaning(s, vars)
    {
      var t := s[i..];
      ParseCases(t);
      if s[i] != DOLLAR {
        FinishStep(Lit(s[i]), Parse(t[1..]), b, missing, vars);
        b := b + [s[i]];
        i := i + 1;
      } else if i + 1 < |s| && s[i + 1] == DOLLAR {
        FinishStep(Lit(DOLLAR), Parse(t[2..]), b, missing, vars);
        b := b + [DOLLAR];
        i := i + 2;
      } else if i + 1 < |s| && s[i + 1] == OPEN {
        var end := IndexByte(t, 2, CLOSE);
        if end.None? {
          MalformedFinish(b, missing, vars);
          return Malformed;
        }
        var name := t[2..end.value];
        FinishStep(Var(name), Parse(t[end.value + 1..]), b, missing, vars);
        Grown(missing, name);
        if name !in vars {
          if name !in seen {
            seen := seen + {name};
            missing := missing + [name];
          }
        } else {
          b := b + vars[name];
        }
        i := i + end.value + 1;
      } else {
        MalformedFinish(b, missing, vars);
        return Malformed;
      }
    }
    assert s[i..] == [];
    NothingLeft(b, missing, vars);
    r := if |missing| > 0 then Missing(missing) else Resolved(b);
  }

  /** What a template starts with decides how it parses. */
  lemma ParseCases(t: Octets)
    requires t != []
    ensures t[0] != DOLLAR ==> Parse(t) == Consed(Lit(t[0]), Parse(t[1..]))
    ensures |t| >= 2 && t[0] == t[1] == DOLLAR ==> Parse(t) == Consed(Lit(DOLLAR), Parse(t[2..]))
    ensures |t| >= 2 && t[0] == DOLLAR && t[1] == OPEN ==>
              var end := FindByte(t, 2, CLOSE);
              Parse(t) == if end.None? then None else Consed(Var(t[2..end.value]), Parse(t[end.value + 1..]))
    ensures t[0] == DOLLAR && (|t| < 2 || (t[1] != DOLLAR && t[1] != OPEN)) ==> Parse(t).None?
  {
    hide FindByte;
  }

  lemma MalformedFinish(built: Octets, missing: seq<Octets>, vars: Vars)
    ensures Finish(None, built, missing, vars) == Malformed
  {
  }

  lemma NothingLeft(built: Octets, missing: seq<Octets>, vars: Vars)
    ensures Finish(Parse([]), built, missing, vars)
         == if missing == [] then Resolved(built) else Missing(missing)
  {
    assert built + [] == built;
  }

  /** RequiredVars' lenient reading: a bare "$" is text, an unclosed "${" ends the scan. */
  function Scan(s: Octets): seq<Piece>
    decreases |s|
  {
    if s == [] then []
    else if s[0] != DOLLAR then [Lit(s[0])] + Scan(s[1..])
    else if |s| >= 2 && s[1] == DOLLAR then [Lit(DOLLAR)] + Scan(s[2..])
    else if |s| >= 2 && s[1] == OPEN then
      match FindByte(s, 2, CLOSE)
      case None => []
      case Some(end) => [Var(s[2..end])] + Scan(s[end + 1..])
    else [Lit(s[0])] + Scan(s[1..])
  }

  lemma {:induction false} ScanOfValid(s: Octets)
    requires Parse(s).Some?
    ensures Scan(s) == Parse(s).value
    decreases |s|
  {
    if s != [] {
      if s[0] != DOLLAR {
        ScanOfValid(s[1..]);
      } else if s[1] == DOLLAR {
        ScanOfValid(s[2..]);
      } else {
        ScanOfValid(s[FindByte(s, 2, CLOSE).value + 1..]);
      }
    }
  }

  method RequiredVars(s: Octets) returns (out: seq<Octets>)
    ensures out == Dedup(Names(Scan(s)))
  {
    Unread([], s);
    hide *;
    out := [];
    var seen: set<Octets> := {};
    var i := 0;
    assert s[0..] == s;
    assert seen == Elements(out) by { Grown([], []); }
    while i < |s|
      invariant 0 <= i <= |s|
      invariant seen == Elements(out)
      invariant Collected(out, s[i..]) == Dedup(Names(Scan(s)))
    {
      var t := s[i..];
      Unread(out, t);
      if s[i] != DOLLAR {
        i := i + 1;
      } else if i + 1 < |s| && s[i + 1] == DOLLAR {
        i := i + 2;
      } else if i + 1 < |s| && s[i + 1] == OPEN {
        var end := IndexByte(t, 2, CLOSE);
        if end.None? {
          return;
        }
        var name := t[2..end.value];
        Grown(out, name);
        if name !in seen {
          seen := seen + {name};
          out := out + [name];
        }
        i := i + end.value + 1;
      } else {
        i := i + 1;
      }
    }
    assert s[i..] == [];
    Unread(out, []);
  }

  /** What RequiredVars returns from here: the names found, then the new ones of the unread template. */
  ghost function Collected(found: seq<Octets>, t: Octets): seq<Octets> {
    Collect(found, Names(Scan(t)), {})
  }

  lemma Grown(out: seq<Octets>, name: Octets)
    ensures Elements([]) == {} && Elements(out + [name]) == Elements(out) + {name}
    ensures name in Elements(out) <==> name in out
  {}

  /** One iteration of RequiredVars, case by case. */
  lemma Unread(out: seq<Octets>, t: Octets)
    ensures Collected([], t) == Dedup(Names(Scan(t)))
    ensures t == [] ==> Collected(out, t) == out
    ensures t != [] && t[0] != DOLLAR ==> Collected(out, t) == Collected(out, t[1..])
    ensures |t| >= 2 && t[0] == t[1] == DOLLAR ==> Collected(out, t) == Collected(out, t[2..])
    ensures t != [] && t[0] == DOLLAR && (|t| < 2 || (t[1] != DOLLAR && t[1] != OPEN)) ==>
              Collected(out, t) == Collected(out, t[1..])
    ensures |t| >= 2 && t[0] == DOLLAR && t[1] == OPEN ==>
              var end := FindByte(t, 2, CLOSE);
              if end.None? then Collected(out, t) == out
              else var name := t[2..end.value];
                   Collected(out, t) == Collected(if name in out then out else out + [name], t[end.value + 1..])
  {
    hide Drop, Dedup;
    CollectIsDedup([], Names(Scan(t)), {});
    DropNothing(Dedup(Names(Scan(t))));
    assert Elements([]) + {} == {};
    if t != [] && (t[0] != DOLLAR || |t| == 1) {
      LitHasNoName(t[0], Scan(t[1..]));
    } else if |t| >= 2 && t[1] == DOLLAR {
      LitHasNoName(DOLLAR, Scan(t[2..]));
    } else if |t| >= 2 && t[1] != OPEN {
      LitHasNoName(t[0], Scan(t[1..]));
    } else if |t| >= 2 && FindByte(t, 2, CLOSE).Some? {
      var end := FindByte(t, 2, CLOSE).value;
      VarHasName(t[2..end], Scan(t[end + 1..]));
    }
  }

  lemma LitHasNoName(c: Byte, ps: seq<Piece>)
    ensures Names([Lit(c)] + ps) == Names(ps)
  {
    assert ([Lit(c)] + ps)[1..] == ps;
  }

  lemma VarHasName(name: Octets, ps: seq<Piece>)
    ensures var ns := Names([Var(name)] + ps); ns != [] && ns[0] == name && ns[1..] == Names(ps)
  {
    assert ([Var(name)] + ps)[1..] == ps;
  }

  lemma {:induction false} DropNothing(ns: seq<Octets>)
    ensures Drop(ns, {}) == ns
  {
    if ns != [] {
      DropNothing(ns[1..]);
    }
  }

  // --------------------------------------------------------------- theorems

  /** On a well-formed template Resolve reports exactly the required names that have no value. */
  lemma MissingIsRequiredMinusGiven(s: Octets, vars: Vars)
    requires Parse(s).Some?
    ensures var required := Dedup(Names(Scan(s)));
            var missing := Drop(required, vars.Keys);
            && NoDuplicates(missing)
            && (Meaning(s, vars).Resolved? <==> forall n :: n in required ==> n in vars)
            && (!Meaning(s, vars).Resolved? ==> Meaning(s, vars) == Missing(missing))
  {
    ScanOfValid(s);
    var required := Dedup(Names(Scan(s)));
    DedupDistinct(Names(Scan(s)));
    DropKeepsDistinct(required, vars.Keys);
    var missing := Drop(required, vars.Keys);
    if missing != [] {
      assert missing[0] in missing;
    }
  }

  lemma {:induction false} NoneMissing(ns: seq<Octets>, given: set<Octets>)
    requires forall n :: n in ns ==> n in given
    ensures Drop(ns, given) == []
  {
    if ns != [] {
      assert ns[0] in ns;
      NoneMissing(ns[1..], given);
    }
  }

  /** Text put in front of a resolution. */
  function Before(text: Octets, r: Resolution): Resolution {
    match r
    case Resolved(t) => Resolved(text + t)
    case _ => r
  }

  /** The template language on bytes, plain ones first: they stand for themselves, "$$" for "$"; any other "$" is an error. */
  lemma PlainBytes(c: Byte, s: Octets, vars: Vars)
    ensures Meaning([], vars) == Resolved([])
    ensures c != 0x24 ==> Meaning([c] + s, vars) == Before([c], Meaning(s, vars))
    ensures Meaning([0x24, 0x24] + s, vars) == Before([0x24], Meaning(s, vars))
    ensures Meaning([0x24], vars) == Malformed
    ensures c != 0x24 && c != 0x7B ==> Meaning([0x24, c] + s, vars) == Malformed
  {
    ParseCases([c] + s);
    ParseCases([0x24, 0x24] + s);
    ParseCases([0x24]);
    ParseCases([0x24, c] + s);
    assert ([c] + s)[1..] == s && ([0x24, 0x24] + s)[2..] == s;
    hide Drop, Dedup;
    LiteralMeans(c, Parse(s), vars);
    LiteralMeans(DOLLAR, Parse(s), vars);
    assert Parse([]) == Some([]);
    NothingNamed(vars);
  }

  lemma NothingNamed(vars: Vars)
    ensures Drop(Dedup(Names([])), vars.Keys) == [] && Denote([], vars) == []
  {}

  lemma LiteralMeans(c: Byte, rest: Option<seq<Piece>>, vars: Vars)
    ensures MeaningOf(Consed(Lit(c), rest), vars) == Before([c], MeaningOf(rest, vars))
  {
    hide Drop, Dedup;
    if rest.Some? {
      var ps := [Lit(c)] + rest.value;
      assert ps[1..] == rest.value;
      LitHasNoName(c, rest.value);
    }
  }

  /** "${name}" stands for the variable's value; without one the name heads the missing list, once; unclosed it is an error. */
  lemma NamedVariable(name: Octets, s: Octets, vars: Vars)
    requires Free(name, 0x7D)
    ensures var r := Meaning([0x24, 0x7B] + name + [0x7D] + s, vars);
            && (name in vars ==> r == Before(vars[name], Meaning(s, vars)))
            && (name !in vars ==>
                  match Meaning(s, vars)
                  case Malformed => r == Malformed
                  case Resolved(_) => r == Missing([name])
                  case Missing(more) => r == Missing([name] + Drop(more, {name})))
    ensures Meaning([0x24, 0x7B] + name, vars) == Malformed
  {
    var t := [0x24, 0x7B] + name + [0x7D] + s;
    var end := 2 + |name|;
    assert t[2..end] == name && t[end] == CLOSE && t[end + 1..] == s;
    FindTerminator(t, 2, name, CLOSE);
    ParseCases(t);
    var open := [0x24, 0x7B] + name;
    ParseCases(open);
    assert open[2..] == name;
    Unclosed(open);
    VariableMeans(name, Parse(s), vars);
    hide Parse, Drop, Dedup, Names, Denote, FindByte;
    assert Parse(t) == Consed(Var(name), Parse(s));
  }

  lemma Unclosed(t: Octets)
    requires |t| >= 2 && Free(t[2..], CLOSE)
    ensures FindByte(t, 2, CLOSE).None?
  {
    assert forall i :: 2 <= i < |t| ==> t[i] == t[2..][i - 2];
  }

  lemma VariableMeans(name: Octets, rest: Option<seq<Piece>>, vars: Vars)
    ensures var r := MeaningOf(Consed(Var(name), rest), vars);
            && (name in vars ==> r == Before(vars[name], MeaningOf(rest, vars)))
            && (name !in vars ==>
                  match MeaningOf(rest, vars)
                  case Malformed => r == Malformed
                  case Resolved(_) => r == Missing([name])
                  case Missing(more) => r == Missing([name] + Drop(more, {name})))
  {
    if rest.Some? {
      var ns := Names(rest.value);
      var ps := [Var(name)] + rest.value;
      assert ps[1..] == rest.value;
      VarHasName(name, rest.value);
      assert Names(ps) == [name] + ns;
      var all := [name] + ns;
      assert all[1..] == ns;
      DedupStep(all, vars.Keys);
      DropDrop(Dedup(ns), vars.Keys, {name});
      assert vars.Keys + {name} == {name} + vars.Keys;
      hide Dedup, Names;
      if Drop(Dedup(ns), vars.Keys) == [] {
        assert Drop([], {name}) == [];
      }
    }
  }

  /** The scan of RequiredVars on bytes, malformed templates included: it skips a stray "$" and stops at an unclosed name. */
  lemma RequiredNames(c: Byte, name: Octets, s: Octets)
    requires Free(name, 0x7D)
    ensures Names(Scan([])) == []
    ensures c != 0x24 ==> Names(Scan([c] + s)) == Names(Scan(s))
    ensures Names(Scan([0x24, 0x24] + s)) == Names(Scan(s))
    ensures Names(Scan([0x24, 0x7B] + name + [0x7D] + s)) == [name] + Names(Scan(s))
    ensures Names(Scan([0x24, 0x7B] + name)) == []
    ensures c != 0x24 && c != 0x7B ==> Names(Scan([0x24, c] + s)) == Names(Scan([c] + s))
  {
    assert ([c] + s)[1..] == s && ([0x24, 0x24] + s)[2..] == s && ([0x24, c] + s)[1..] == [c] + s;
    LitHasNoName(c, Scan(s));
    LitHasNoName(DOLLAR, Scan(s));
    LitHasNoName(DOLLAR, Scan([c] + s));
    var t := [0x24, 0x7B] + name + [0x7D] + s;
    var end := 2 + |name|;
    assert t[2..end] == name && t[end] == CLOSE && t[end + 1..] == s;
    FindTerminator(t, 2, name, CLOSE);
    VarHasName(name, Scan(s));
    var open := [0x24, 0x7B] + name;
    assert open[2..] == name;
    Unclosed(open);
    var ns := Names([Var(name)] + Scan(s));
    assert ns == [ns[0]] + ns[1..];
  }

  /** Some variables resolve a template exactly when it is well formed: every "$" begins "$$" or a closed "${...}". */
  lemma ResolvableIffWellFormed(s: Octets)
    ensures (exists vars: Vars :: Meaning(s, vars).Resolved?) <==> Parse(s).Some?
  {
    if Parse(s).Some? {
      var vars: Vars := map n | n in Elements(Names(Parse(s).value)) :: [];
      hide Parse, Names, Denote;
      NoneMissing(Dedup(Names(Parse(s).value)), vars.Keys);
      assert Meaning(s, vars).Resolved?;
    }
  }

  function Escape(s: Octets): Octets
  {
    if s == [] then [] else RenderPiece(Lit(s[0])) + Escape(s[1..])
  }

  function Literals(s: Octets): (ps: seq<Piece>)
    ensures |ps| == |s|
  {
    if s == [] then [] else [Lit(s[0])] + Literals(s[1..])
  }

  lemma {:induction false} LiteralFacts(s: Octets, vars: Vars)
    ensures Render(Literals(s)) == Escape(s) && Writable(Literals(s))
    ensures Names(Literals(s)) == [] && Denote(Literals(s), vars) == s
  {
    if s != [] {
      LiteralFacts(s[1..], vars);
      assert Literals(s)[1..] == Literals(s[1..]);
    }
  }

  /** Doubling every "$" makes any string a template for itself. */
  lemma {:induction false} EscapeResolves(s: Octets, vars: Vars)
    ensures Meaning(Escape(s), vars) == Resolved(s)
  {
    LiteralFacts(s, vars);
    ParseRender(Literals(s));
  }
}
