/** PostgreSQL startup parameters: the codec, and the rewrite that points a client at its target. */
module PgStartup {
  import opened Octets

  datatype KV = KV(k: Octets, v: Octets)

  const PROTOCOL_V3: UInt32 := 0x0003_0000
  const MAX_BODY := 64 * 1024
  const USER: Octets := [0x75, 0x73, 0x65, 0x72] // "user"
  const DATABASE: Octets := [0x64, 0x61, 0x74, 0x61, 0x62, 0x61, 0x73, 0x65] // "database"

  // ------------------------------------------------------------------ codec

  function EncodePairs(ps: seq<KV>): Octets
  {
    if ps == [] then [] else ps[0].k + [0] + ps[0].v + [0] + EncodePairs(ps[1..])
  }

  function Body(ps: seq<KV>): (b: Octets)
    ensures b != []
  {
    EncodePairs(ps) + [0]
  }

  /** [int32 length | int32 protocol | (key NUL value NUL)* NUL]. */
  function Frame(ps: seq<KV>): (out: Octets)
    ensures |out| == 8 + |Body(ps)|
  {
    BE32((8 + |Body(ps)|) % 0x1_0000_0000) + BE32(PROTOCOL_V3) + Body(ps)
  }

  predicate EncodablePair(p: KV) {
    p.k != [] && NulFree(p.k) && NulFree(p.v)
  }

  predicate Encodable(ps: seq<KV>) {
    forall p :: p in ps ==> EncodablePair(p)
  }

  /** The cursor loop of ParseStartupBody on a body known to end in NUL. */
  function ParsePairs(b: Octets, cursor: nat): Option<seq<KV>>
    requires b != [] && b[|b| - 1] == 0
    decreases |b| - cursor
  {
    if cursor >= |b| - 1 then
      if cursor == |b| - 1 then Some([]) else None
    else
      var keyEnd :- FindByte(b, cursor, 0);
      if keyEnd == cursor then None else
        var valEnd :- FindByte(b, keyEnd + 1, 0);
        var rest :- ParsePairs(b, valEnd + 1);
        Some([KV(b[cursor..keyEnd], b[keyEnd + 1..valEnd])] + rest)
  }

  function ParseBody(b: Octets): Option<seq<KV>>
  {
    if b == [] || b[|b| - 1] != 0 then None else ParsePairs(b, 0)
  }

  function Prepend(out: seq<KV>, rest: Option<seq<KV>>): Option<seq<KV>>
  {
    if rest.None? then None else Some(out + rest.value)
  }

  /** One turn of the cursor loop. */
  lemma ParseStep(b: Octets, cursor: nat, keyEnd: nat, valEnd: nat)
    requires b != [] && b[|b| - 1] == 0 && cursor < |b| - 1
    requires FindByte(b, cursor, 0) == Some(keyEnd) && keyEnd != cursor
    requires FindByte(b, keyEnd + 1, 0) == Some(valEnd)
    ensures ParsePairs(b, cursor)
         == Prepend([KV(b[cursor..keyEnd], b[keyEnd + 1..valEnd])], ParsePairs(b, valEnd + 1))
  {
    hide FindByte;
  }

  lemma PrependTwice(out: seq<KV>, p: KV, rest: Option<seq<KV>>)
    ensures Prepend(out, Prepend([p], rest)) == Prepend(out + [p], rest)
  {
    if rest.Some? {
      assert out + ([p] + rest.value) == out + [p] + rest.value;
    }
  }

  lemma BodyCons(ps: seq<KV>)
    requires ps != []
    ensures Body(ps) == ps[0].k + [0] + ps[0].v + [0] + Body(ps[1..])
    ensures Encodable(ps) <==> EncodablePair(ps[0]) && Encodable(ps[1..])
    ensures EncodablePair(ps[0]) ==> ps[0].k != [] && NulFree(ps[0].k) && NulFree(ps[0].v)
  {
    assert ps == [ps[0]] + ps[1..];
  }

  /** One turn of the loop: a non-empty key and a value, each up to its NUL. */
  method ReadPair(b: Octets, cursor: nat) returns (r: Option<(KV, nat)>)
    requires b != [] && b[|b| - 1] == 0 && cursor < |b| - 1
    ensures r.None? ==> ParsePairs(b, cursor).None?
    ensures r.Some? ==> cursor < r.value.1 <= |b|
    ensures r.Some? ==> ParsePairs(b, cursor) == Prepend([r.value.0], ParsePairs(b, r.value.1))
  {
    hide FindByte, ParsePairs, Prepend;
    var keyEnd := IndexByte(b, cursor, 0);
    if keyEnd.None? || keyEnd.value == cursor {
      ParseStuck(b, cursor);
      return None;
    }
    var valEnd := IndexByte(b, keyEnd.value + 1, 0);
    if valEnd.None? {
      ParseStuck(b, cursor);
      return None;
    }
    ParseStep(b, cursor, keyEnd.value, valEnd.value);
    r := Some((KV(b[cursor..keyEnd.value], b[keyEnd.value + 1..valEnd.value]), valEnd.value + 1));
  }

  method ParseStartupBody(b: Octets) returns (r: Option<seq<KV>>)
    ensures r == ParseBody(b)
  {
    if |b| == 0 || b[|b| - 1] != 0 {
      return None;
    }
    hide FindByte, ParsePairs, Prepend;
    var out: seq<KV> := [];
    var cursor := 0;
    PrependNothing(ParsePairs(b, 0));
    while cursor < |b| - 1
      invariant cursor <= |b|
      invariant Prepend(out, ParsePairs(b, cursor)) == ParsePairs(b, 0)
    {
      var pair := ReadPair(b, cursor);
      if pair.None? {
        PrependNone(out);
        return None;
      }
      PrependTwice(out, pair.value.0, ParsePairs(b, pair.value.1));
      out := out + [pair.value.0];
      cursor := pair.value.1;
    }
    r := if cursor != |b| - 1 then None else Some(out);
    PrependAtEnd(b, cursor, out);
  }

  lemma PrependNone(out: seq<KV>)
    ensures Prepend(out, None) == None
  {}

  lemma PrependNothing(rest: Option<seq<KV>>)
    ensures Prepend([], rest) == rest
  {
    if rest.Some? {
      assert [] + rest.value == rest.value;
    }
  }

  lemma ParseStuck(b: Octets, cursor: nat)
    requires b != [] && b[|b| - 1] == 0 && cursor < |b| - 1
    requires var k := FindByte(b, cursor, 0);
             k.None? || k.value == cursor || FindByte(b, k.value + 1, 0).None?
    ensures ParsePairs(b, cursor).None?
  {
    hide FindByte;
  }

  lemma PrependAtEnd(b: Octets, cursor: nat, out: seq<KV>)
    requires b != [] && b[|b| - 1] == 0 && |b| - 1 <= cursor <= |b|
    ensures Prepend(out, ParsePairs(b, cursor)) == if cursor != |b| - 1 then None else Some(out)
  {
    assert out + [] == out;
  }

  /** Parsing recovers the parameters of every encodable list, wherever its bytes start. */
  lemma {:induction false} ParseEncoded(b: Octets, cursor: nat, ps: seq<KV>)
    requires Encodable(ps) && cursor <= |b| && b[cursor..] == Body(ps)
    requires b != [] && b[|b| - 1] == 0
    ensures ParsePairs(b, cursor) == Some(ps)
    decreases ps
  {
    hide *;
    if ps == [] {
      ParseEnd(b, cursor);
    } else {
      var k, v, rest := ps[0].k, ps[0].v, ps[1..];
      var keyEnd := cursor + |k|;
      var valEnd := keyEnd + 1 + |v|;
      BodyCons(ps);
      SplitPair(b, cursor, keyEnd, valEnd, k, v, Body(rest));
      ParseEncoded(b, valEnd + 1, rest);
      ParseStep(b, cursor, keyEnd, valEnd);
      PrependOne(k, v, ps);
    }
  }

  lemma PrependOne(k: Octets, v: Octets, ps: seq<KV>)
    requires ps != [] && ps[0] == KV(k, v)
    ensures Prepend([KV(k, v)], Some(ps[1..])) == Some(ps)
  {
    assert [KV(k, v)] + ps[1..] == ps;
  }

  /** The loop stops successfully exactly in front of the final NUL. */
  lemma ParseEnd(b: Octets, cursor: nat)
    requires cursor <= |b| && b != [] && b[|b| - 1] == 0
    ensures b[cursor..] == Body([]) <==> cursor == |b| - 1
    ensures Encodable([])
    ensures cursor >= |b| - 1 ==> ParsePairs(b, cursor) == if cursor == |b| - 1 then Some([]) else None
  {
    assert Body([]) == [0];
    assert |b[cursor..]| == |b| - cursor;
  }

  /** The pieces of one encoded pair, located in the buffer that holds it. */
  lemma SplitPair(b: Octets, cursor: nat, keyEnd: nat, valEnd: nat, k: Octets, v: Octets, after: Octets)
    requires cursor <= |b| && b[cursor..] == k + [0] + v + [0] + after && after != [] && k != []
    requires NulFree(k) && NulFree(v) && keyEnd == cursor + |k| && valEnd == keyEnd + 1 + |v|
    ensures cursor < keyEnd < valEnd < |b| - 1
    ensures FindByte(b, cursor, 0) == Some(keyEnd) && b[cursor..keyEnd] == k
    ensures FindByte(b, keyEnd + 1, 0) == Some(valEnd) && b[keyEnd + 1..valEnd] == v
    ensures b[valEnd + 1..] == after
  {
    hide FindByte;
    var tail := b[cursor..];
    assert b[cursor..keyEnd] == tail[..|k|] == k && b[keyEnd] == tail[|k|];
    FindTerminator(b, cursor, k, 0);
    assert b[keyEnd + 1..valEnd] == tail[|k| + 1..|k| + 1 + |v|] == v && b[valEnd] == tail[|k| + 1 + |v|];
    FindTerminator(b, keyEnd + 1, v, 0);
    assert b[valEnd + 1..] == tail[|k| + |v| + 2..] == after;
  }

  /** What a successful turn of the loop saw. */
  lemma ParsedPair(b: Octets, cursor: nat, ps: seq<KV>) returns (keyEnd: nat, valEnd: nat)
    requires b != [] && b[|b| - 1] == 0 && cursor < |b| - 1 && ParsePairs(b, cursor) == Some(ps)
    ensures cursor < keyEnd < valEnd < |b| && b[keyEnd] == b[valEnd] == 0
    ensures ps != [] && ps[0] == KV(b[cursor..keyEnd], b[keyEnd + 1..valEnd]) && EncodablePair(ps[0])
    ensures ParsePairs(b, valEnd + 1) == Some(ps[1..])
  {
    hide FindByte;
    keyEnd := FindByte(b, cursor, 0).value;
    valEnd := FindByte(b, keyEnd + 1, 0).value;
    assert ps[1..] == ParsePairs(b, valEnd + 1).value;
  }

  lemma {:induction false} ParsedIsEncoded(b: Octets, cursor: nat, ps: seq<KV>)
    requires b != [] && b[|b| - 1] == 0 && cursor <= |b| && ParsePairs(b, cursor) == Some(ps)
    ensures Encodable(ps) && b[cursor..] == Body(ps)
    decreases |b| - cursor
  {
    hide *;
    if cursor >= |b| - 1 {
      ParseEnd(b, cursor);
    } else {
      var keyEnd, valEnd := ParsedPair(b, cursor, ps);
      ParsedIsEncoded(b, valEnd + 1, ps[1..]);
      BodyCons(ps);
      assert b[cursor..] == b[cursor..keyEnd] + [0] + b[keyEnd + 1..valEnd] + [0] + b[valEnd + 1..];
    }
  }

  /** The parser accepts exactly the encodings of encodable lists, and the two are inverse there. */
  lemma ParserInvertsEncoder(b: Octets, ps: seq<KV>)
    ensures ParseBody(b) == Some(ps) <==> Encodable(ps) && b == Body(ps)
  {
    if Encodable(ps) && b == Body(ps) {
      assert b[0..] == b;
      ParseEncoded(b, 0, ps);
    }
    if ParseBody(b) == Some(ps) {
      ParsedIsEncoded(b, 0, ps);
      assert b[0..] == b;
    }
  }

  // ------------------------------------------------- the array-filling encoder

  lemma {:induction false} EncodePairsSnoc(ps: seq<KV>, i: nat)
    requires i < |ps|
    ensures EncodePairs(ps[..i + 1]) == EncodePairs(ps[..i]) + (ps[i].k + [0] + ps[i].v + [0])
  {
    if i == 0 {
      assert ps[..1][1..] == [];
      assert ps[..0] == [];
    } else {
      assert ps[..i + 1][1..] == ps[1..][..i] && ps[..i][1..] == ps[1..][..i - 1];
      EncodePairsSnoc(ps[1..], i - 1);
    }
  }

  lemma {:induction false} EncodePairsPrefix(ps: seq<KV>, i: nat)
    requires i <= |ps|
    ensures |EncodePairs(ps[..i])| <= |EncodePairs(ps)|
    decreases |ps| - i
  {
    if i == |ps| {
      assert ps[..i] == ps;
    } else {
      EncodePairsSnoc(ps, i);
      EncodePairsPrefix(ps, i + 1);
    }
  }

  /** Go's copy(out[pos:], s): the bytes before `pos` stay as they were. */
  method Copy(out: array<Byte>, pos: nat, s: Octets)
    requires pos + |s| <= out.Length
    modifies out
    ensures out[..pos + |s|] == old(out[..pos]) + s
  {
    for i := 0 to |s|
      invariant out[..pos + i] == old(out[..pos]) + s[..i]
    {
      out[pos + i] := s[i];
    }
  }

  /** One pair of the fill loop: key, NUL, value, NUL. */
  method PutPair(out: array<Byte>, start: nat, p: KV) returns (pos: nat)
    requires start + |p.k| + |p.v| + 2 <= out.Length
    modifies out
    ensures pos == start + |p.k| + |p.v| + 2
    ensures out[..pos] == old(out[..start]) + (p.k + [0] + p.v + [0])
  {
    ghost var before := out[..start];
    pos := start;
    Copy(out, pos, p.k);
    pos := pos + |p.k|;
    Copy(out, pos, [0]);
    pos := pos + 1;
    Copy(out, pos, p.v);
    pos := pos + |p.v|;
    Copy(out, pos, [0]);
    pos := pos + 1;
    PairBytes(before, p.k, p.v);
  }

  lemma PairBytes(before: Octets, k: Octets, v: Octets)
    ensures before + k + [0] + v + [0] == before + (k + [0] + v + [0])
  {}

  /** The sizing loop. */
  method BodyLength(ps: seq<KV>) returns (n: nat)
    ensures n == |Body(ps)|
  {
    hide EncodePairs;
    n := 1;
    assert ps[..0] == [];
    EmptyPairs();
    for i := 0 to |ps|
      invariant n == 1 + |EncodePairs(ps[..i])|
    {
      EncodePairsSnoc(ps, i);
      n := n + |ps[i].k| + 1 + |ps[i].v| + 1;
    }
    assert ps[..|ps|] == ps;
  }

  /** The fill loop: the pairs, then the closing NUL, behind an eight-byte head. */
  method FillBody(out: array<Byte>, ps: seq<KV>)
    requires out.Length == 8 + |Body(ps)|
    modifies out
    ensures out[..] == old(out[..8]) + Body(ps)
  {
    hide EncodePairs;
    ghost var head := out[..8];
    var pos := 8;
    assert ps[..0] == [];
    EmptyPairs();
    EncodePairsPrefix(ps, 0);
    for i := 0 to |ps|
      invariant pos == 8 + |EncodePairs(ps[..i])| < out.Length
      invariant out[..pos] == head + EncodePairs(ps[..i])
    {
      EncodePairsSnoc(ps, i);
      EncodePairsPrefix(ps, i + 1);
      pos := PutPair(out, pos, ps[i]);
    }
    assert ps[..|ps|] == ps;
    Copy(out, pos, [0]);
    assert out[..] == out[..pos + 1];
  }

  /** EncodeStartup: size the frame, then fill it left to right. */
  method EncodeStartup(ps: seq<KV>) returns (out: array<Byte>)
    ensures fresh(out)
    ensures out[..] == Frame(ps)
    ensures out.Length < 0x1_0000_0000 ==> FromBE32(out[..]) == out.Length
  {
    hide BE32, FromBE32, Body;
    var bodyLen := BodyLength(ps);
    var total := 4 + 4 + bodyLen;
    out := new Byte[total](_ => 0);
    Copy(out, 0, BE32(total % 0x1_0000_0000));
    assert out[..0] == [];
    Copy(out, 4, BE32(PROTOCOL_V3));
    FillBody(out, ps);
    if out.Length < 0x1_0000_0000 {
      assert Frame(ps) == BE32(total) + (BE32(PROTOCOL_V3) + Body(ps));
      BigEndianRoundTrip(total, BE32(PROTOCOL_V3) + Body(ps));
    }
  }

  lemma EmptyPairs()
    ensures EncodePairs([]) == []
  {
  }

  // ----------------------------------------------------- the upstream rewrite

  /** LookupParam: the value of the first pair with the key, or "". */
  function LookupParam(ps: seq<KV>, key: Octets): (v: Octets)
  {
    if ps == [] then [] else if ps[0].k == key then ps[0].v else LookupParam(ps[1..], key)
  }

  predicate Routing(p: KV) {
    p.k == USER || p.k == DATABASE
  }

  function Others(ps: seq<KV>): seq<KV>
  {
    if ps == [] then [] else (if Routing(ps[0]) then [] else [ps[0]]) + Others(ps[1..])
  }

  /** The values given for one key, in order, repeats included. */
  function ValuesOf(ps: seq<KV>, key: Octets): seq<Octets>
  {
    if ps == [] then [] else (if ps[0].k == key then [ps[0].v] else []) + ValuesOf(ps[1..], key)
  }

  /** The database the upstream is asked for: the target's, else the client's first choice. */
  function ChosenDatabase(ps: seq<KV>, database: Octets): Octets
  {
    if database != [] then database else LookupParam(ps, DATABASE)
  }

  function Rewrite(ps: seq<KV>, user: Octets, database: Octets): seq<KV>
  {
    var db := ChosenDatabase(ps, database);
    [KV(USER, user)] + (if db != [] then [KV(DATABASE, db)] else []) + Others(ps)
  }

  lemma {:induction false} OthersSnoc(ps: seq<KV>, i: nat)
    requires i < |ps|
    ensures Others(ps[..i + 1]) == Others(ps[..i]) + if Routing(ps[i]) then [] else [ps[i]]
  {
    hide Routing;
    if i > 0 {
      assert ps[..i + 1][1..] == ps[1..][..i] && ps[..i][1..] == ps[1..][..i - 1];
      OthersSnoc(ps[1..], i - 1);
    }
  }

  /** The parameter loop of handleStartup / EncodeStartupForTarget. */
  method UpstreamParams(ps: seq<KV>, user: Octets, database: Octets) returns (up: seq<KV>)
    ensures up == Rewrite(ps, user, database)
  {
    up := [KV(USER, user)];
    if database != [] {
      up := up + [KV(DATABASE, database)];
    } else {
      var d := LookupParam(ps, DATABASE);
      if d != [] {
        up := up + [KV(DATABASE, d)];
      }
    }
    ghost var head := up;
    for i := 0 to |ps|
      invariant up == head + Others(ps[..i])
    {
      OthersSnoc(ps, i);
      if ps[i].k == USER || ps[i].k == DATABASE {
        continue;
      }
      up := up + [ps[i]];
    }
    assert ps[..|ps|] == ps;
  }

  lemma {:induction false} OthersHaveNoKeys(ps: seq<KV>)
    ensures ValuesOf(Others(ps), USER) == [] && ValuesOf(Others(ps), DATABASE) == []
    ensures LookupParam(Others(ps), DATABASE) == []
    ensures Others(Others(ps)) == Others(ps)
  {
    if ps != [] {
      OthersHaveNoKeys(ps[1..]);
      if Routing(ps[0]) {
        assert Others(ps) == Others(ps[1..]);
      } else {
        assert Others(ps) == [ps[0]] + Others(ps[1..]);
        assert Others(ps)[1..] == Others(ps[1..]);
      }
    }
  }

  /** What the upstream sees: one user, at most one database, everything else untouched and in order. */
  lemma RewriteContents(ps: seq<KV>, user: Octets, database: Octets)
    ensures var up := Rewrite(ps, user, database);
            var db := ChosenDatabase(ps, database);
            && ValuesOf(up, USER) == [user]
            && ValuesOf(up, DATABASE) == (if db == [] then [] else [db])
            && LookupParam(up, DATABASE) == db
            && Others(up) == Others(ps)
  {
    var up := Rewrite(ps, user, database);
    var db := ChosenDatabase(ps, database);
    OthersHaveNoKeys(ps);
    var tail := up[1..];
    assert USER != DATABASE by { assert |USER| != |DATABASE|; }
    if db == [] {
      assert tail == Others(ps);
    } else {
      assert tail[1..] == Others(ps);
    }
  }

  /** Rewriting twice for the same target is rewriting once, with or without a target database. */
  lemma RewriteIdempotent(ps: seq<KV>, user: Octets, database: Octets)
    ensures var up := Rewrite(ps, user, database); Rewrite(up, user, database) == up
  {
    RewriteContents(ps, user, database);
  }

  /** The two names, and the protocol word, as text and bytes. */
  lemma Constants()
    ensures USER == Ascii("user") && DATABASE == Ascii("database") && BE32(PROTOCOL_V3) == [0, 3, 0, 0]
  {}

  lemma {:induction false} ValuesOfOthers(ps: seq<KV>, key: Octets)
    requires key != Ascii("user") && key != Ascii("database")
    ensures ValuesOf(Others(ps), key) == ValuesOf(ps, key)
  {
    Constants();
    if ps != [] {
      ValuesOfOthers(ps[1..], key);
      if Routing(ps[0]) {
        assert Others(ps) == Others(ps[1..]);
      } else {
        assert Others(ps) == [ps[0]] + Others(ps[1..]);
        assert Others(ps)[1..] == Others(ps[1..]);
      }
    }
  }

  predicate Increasing(idx: seq<nat>) {
    forall i, j :: 0 <= i < j < |idx| ==> idx[i] < idx[j]
  }

  predicate OtherKey(p: KV) {
    p.k != Ascii("user") && p.k != Ascii("database")
  }

  /** Exactly the positions whose key is neither name. */
  ghost predicate Foreign(ps: seq<KV>, idx: seq<nat>) {
    forall i: nat :: i in idx <==> i < |ps| && OtherKey(ps[i])
  }

  lemma ForeignStep(ps: seq<KV>, before: seq<nat>, last: nat)
    requires last == |ps| - 1 && Foreign(ps[..last], before) && Increasing(before)
    ensures OtherKey(ps[last]) ==> Foreign(ps, before + [last]) && Increasing(before + [last])
    ensures !OtherKey(ps[last]) ==> Foreign(ps, before)
  {
    hide OtherKey;
    forall i: nat
      ensures i in before <==> i < last && OtherKey(ps[i])
    {
      assert i in before <==> i < last && OtherKey(ps[..last][i]);
    }
    BelowLast(before, last);
  }

  lemma BelowLast(before: seq<nat>, last: nat)
    requires Increasing(before) && forall i :: i in before ==> i < last
    ensures Increasing(before + [last])
  {
    assert forall j :: 0 <= j < |before| ==> before[j] in before;
  }

  lemma RoutingIs(p: KV)
    ensures Routing(p) <==> !OtherKey(p)
  {
    Constants();
  }

  lemma {:induction false} OthersAt(ps: seq<KV>) returns (idx: seq<nat>)
    ensures Increasing(idx) && Foreign(ps, idx) && |Others(ps)| == |idx|
    ensures forall j :: 0 <= j < |idx| ==> idx[j] < |ps| && Others(ps)[j] == ps[idx[j]]
  {
    if ps == [] {
      idx := [];
    } else {
      hide Others, OtherKey, Routing, Foreign, Increasing;
      var last := |ps| - 1;
      var before := OthersAt(ps[..last]);
      OthersSnoc(ps, last);
      assert ps[..last + 1] == ps;
      ForeignStep(ps, before, last);
      RoutingIs(ps[last]);
      idx := if OtherKey(ps[last]) then before + [last] else before;
    }
  }

  /** What the upstream is sent, position by position: the target's user; the target's database, else the client's first, if
      that is not empty; then the client's other parameters, all of them, in their order. */
  lemma RewriteIs(ps: seq<KV>, user: Octets, database: Octets) returns (lead: nat, idx: seq<nat>)
    ensures var up := Rewrite(ps, user, database);
            var given := ValuesOf(ps, Ascii("database"));
            var db := if database != [] then database else if given == [] then [] else given[0];
            && |up| == lead + |idx| && lead == (if db == [] then 1 else 2)
            && up[0] == KV(Ascii("user"), user) && (db != [] ==> up[1] == KV(Ascii("database"), db))
            && Increasing(idx) && Foreign(ps, idx)
            && forall j :: 0 <= j < |idx| ==> idx[j] < |ps| && up[lead + j] == ps[idx[j]]
  {
    Constants();
    LookupIsFirstValue(ps, DATABASE);
    idx := OthersAt(ps);
    hide Others, LookupParam, ValuesOf, Foreign;
    lead := if ChosenDatabase(ps, database) == [] then 1 else 2;
  }

  /** No parameter but the two is touched: every other key keeps its values, repeats and order included. */
  lemma OtherKeysKept(ps: seq<KV>, user: Octets, database: Octets, key: Octets)
    requires key != Ascii("user") && key != Ascii("database")
    ensures ValuesOf(Rewrite(ps, user, database), key) == ValuesOf(ps, key)
  {
    Constants();
    ValuesOfOthers(ps, key);
    var up, db := Rewrite(ps, user, database), ChosenDatabase(ps, database);
    if db == [] {
      assert up[1..] == Others(ps);
    } else {
      assert up[1..][1..] == Others(ps);
    }
  }

  lemma {:induction false} PairsConcat(a: seq<KV>, b: seq<KV>)
    ensures EncodePairs(a + b) == EncodePairs(a) + EncodePairs(b)
  {
    if a == [] {
      assert a + b == b;
    } else {
      assert (a + b)[1..] == a[1..] + b;
      PairsConcat(a[1..], b);
    }
  }

  /** The frame's bytes: its length, most significant byte first, protocol 3.0, and between what precedes and follows it each
      key, NUL, value, NUL; a NUL at the end. */
  lemma FrameLayout(ps: seq<KV>, i: nat)
    requires i < |ps|
    ensures var out := Frame(ps);
            && (|out| < 0x1_0000_0000 ==> Number32([out[3], out[2], out[1], out[0]]) == |out|)
            && out[4..8] == [0, 3, 0, 0]
            && out[8..] == EncodePairs(ps[..i]) + (ps[i].k + [0] + ps[i].v + [0]) + EncodePairs(ps[i + 1..]) + [0]
  {
    Constants();
    var out := Frame(ps);
    var n := 8 + |Body(ps)|;
    var rest := BE32(PROTOCOL_V3) + Body(ps);
    if n < 0x1_0000_0000 {
      BigEndianRoundTrip(n, rest);
      assert out == BE32(n) + rest;
    }
    assert out[4..8] == BE32(PROTOCOL_V3) && out[8..] == Body(ps);
    EncodePairsSnoc(ps, i);
    PairsConcat(ps[..i + 1], ps[i + 1..]);
    assert ps == ps[..i + 1] + ps[i + 1..];
  }

  /** LookupParam is the first of the values given for the key, or "". */
  lemma {:induction false} LookupIsFirstValue(ps: seq<KV>, key: Octets)
    ensures LookupParam(ps, key) == if ValuesOf(ps, key) == [] then [] else ValuesOf(ps, key)[0]
  {
    if ps != [] && ps[0].k != key {
      LookupIsFirstValue(ps[1..], key);
    }
  }

  function FirstNonEmpty(vs: seq<Octets>): Octets {
    if vs == [] then [] else if vs[0] != [] then vs[0] else FirstNonEmpty(vs[1..])
  }

  lemma {:induction false} NoneNonEmpty(vs: seq<Octets>)
    ensures FirstNonEmpty(vs) == [] <==> forall i :: 0 <= i < |vs| ==> vs[i] == []
  {
    if vs != [] {
      NoneNonEmpty(vs[1..]);
      assert forall i :: 1 <= i < |vs| ==> vs[i] == vs[1..][i - 1];
    }
  }

  /** Exactly when the upstream gets the target's database, else the client's first non-empty one: unless an empty first
      choice hides a later one. */
  lemma FirstNonEmptyReachesUpstream(ps: seq<KV>, user: Octets, database: Octets)
    ensures var vs := ValuesOf(ps, DATABASE);
            LookupParam(Rewrite(ps, user, database), DATABASE) == (if database != [] then database else FirstNonEmpty(vs))
            <==> database != [] || vs == [] || vs[0] != [] || forall i :: 0 <= i < |vs| ==> vs[i] == []
  {
    hide Rewrite, Others;
    RewriteContents(ps, user, database);
    LookupIsFirstValue(ps, DATABASE);
    NoneNonEmpty(ValuesOf(ps, DATABASE));
  }

  /** The failing case at its smallest: a second "database" is never consulted. */
  lemma FirstChoiceIsTheOnlyChoice(user: Octets, d: Octets)
    ensures ValuesOf(Rewrite([KV(DATABASE, []), KV(DATABASE, d)], user, []), DATABASE) == []
  {
    var ps := [KV(DATABASE, []), KV(DATABASE, d)];
    RewriteContents(ps, user, []);
  }

  lemma {:induction false} OthersEncodable(ps: seq<KV>)
    requires Encodable(ps)
    ensures Encodable(Others(ps)) && NulFree(LookupParam(ps, DATABASE))
  {
    if ps != [] {
      assert ps[0] in ps;
      assert Encodable(ps[1..]);
      OthersEncodable(ps[1..]);
    }
  }

  /** From the client's bytes to the upstream's: the rewritten startup decodes to the rewrite. */
  lemma UpstreamStartupDecodes(body: Octets, user: Octets, database: Octets)
    requires ParseBody(body).Some? && NulFree(user) && NulFree(database)
    ensures var up := Rewrite(ParseBody(body).value, user, database);
            ParseBody(Frame(up)[8..]) == Some(up)
  {
    hide BE32;
    var ps := ParseBody(body).value;
    ParserInvertsEncoder(body, ps);
    OthersEncodable(ps);
    var up := Rewrite(ps, user, database);
    assert Encodable(up);
    assert Frame(up)[8..] == Body(up);
    ParserInvertsEncoder(Body(up), up);
  }

  // ---------------------------------------------------------- typed messages

  function WriteMessage(typ: Byte, body: Octets): Octets
  {
    [typ] + BE32((4 + |body|) % 0x1_0000_0000) + body
  }

  function ReadMessage(stream: Octets): Option<(Byte, Octets, Octets)>
  {
    if |stream| < 5 then None else
      var length := FromBE32(stream[1..5]);
      if length < 4 || length - 4 > MAX_BODY || length + 1 > |stream| then None
      else Some((stream[0], stream[5..length + 1], stream[length + 1..]))
  }

  /** A typed message is read back exactly when its body is within the reader's cap. */
  lemma MessageRoundTrip(typ: Byte, body: Octets, rest: Octets)
    requires 4 + |body| < 0x1_0000_0000
    ensures ReadMessage(WriteMessage(typ, body) + rest)
         == if |body| <= 65536 then Some((typ, body, rest)) else None
  {
    hide BE32, FromBE32;
    var n := 4 + |body|;
    var stream := WriteMessage(typ, body) + rest;
    assert stream[1..5] == BE32(n);
    BigEndianRoundTrip(n, []);
    assert BE32(n) + [] == BE32(n);
    if |body| <= MAX_BODY {
      assert stream[5..n + 1] == body && stream[n + 1..] == rest;
    }
  }

  /** A typed message's bytes: the type, the length of the rest, most significant byte first, the body. */
  lemma MessageLayout(typ: Byte, body: Octets)
    requires 4 + |body| < 0x1_0000_0000
    ensures var out := WriteMessage(typ, body);
            && |out| == 5 + |body| && out[0] == typ && out[5..] == body
            && Number32([out[4], out[3], out[2], out[1]]) == 4 + |body|
  {
    var out, w := WriteMessage(typ, body), BE32(4 + |body|);
    BigEndianBytes(4 + |body|);
    hide BE32, Number32;
    assert out == [typ] + w + body;
    assert [out[4], out[3], out[2], out[1]] == [w[3], w[2], w[1], w[0]];
  }
}
