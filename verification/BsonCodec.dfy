/** The codec as the proxy runs it: buffers that grow and loops that move a position. */
module BsonCodec {
  import opened Octets
  import opened Bson

  /** Elements written left to right: the bytes of a prefix extend by one element's bytes. */
  lemma {:induction false} EncodeElemsSnoc(d: Doc, i: nat)
    requires i < |d|
    ensures EncodeElems(d[..i + 1]) == EncodeElems(d[..i]) + EncodeElem(d[i].key, d[i].value)
  {
    if i == 0 {
      assert d[..1] == [d[0]];
      assert EncodeElems(d[..1][1..]) == [];
    } else {
      var e := d[1..];
      assert d[..i + 1][1..] == e[..i] && d[..i][1..] == e[..i - 1];
      EncodeElemsSnoc(e, i - 1);
    }
  }

  /** AppendBSON: reserve the length, append the elements, then patch the length in place. */
  method AppendBSON(b: Octets, d: Doc) returns (out: Octets)
    ensures out == b + EncodeDoc(d)
    decreases DocSize(d), 1
  {
    hide EncodeElem, EncodeValue, DocSize, ValueSize, LE32;
    var start := |b|;
    out := b + [0, 0, 0, 0];
    assert EncodeElems(d[..0]) == [];
    for i := 0 to |d|
      invariant out == b + [0, 0, 0, 0] + EncodeElems(d[..i])
    {
      ElemSmaller(d, i);
      EncodeElemsSnoc(d, i);
      out := AppendElement(out, d[i].key, d[i].value);
    }
    assert d[..|d|] == d;
    out := out + [0];
    PatchLength(b, EncodeElems(d));
    var patched := LE32(|out| - start);
    out := out[..start] + patched + out[start + 4..];
  }

  /** Overwriting the four reserved bytes leaves everything around them in place. */
  lemma PatchLength(b: Octets, body: Octets)
    ensures var out := b + [0, 0, 0, 0] + body + [0];
            var n := LE32(|body| + 5);
            out[..|b|] + n + out[|b| + 4..] == b + (n + body + [0])
  {
    hide LE32;
    var out := b + [0, 0, 0, 0] + body + [0];
    assert out[..|b|] == b && out[|b| + 4..] == body + [0];
  }

  method AppendElement(b: Octets, key: Octets, v: Value) returns (out: Octets)
    ensures out == b + EncodeElem(key, v)
    decreases ValueSize(v), 3
  {
    out := b + [Tag(v)];
    out := out + key + [0];
    out := AppendPayload(out, v);
  }

  method AppendPayload(b: Octets, v: Value) returns (out: Octets)
    ensures out == b + EncodeValue(v)
    decreases ValueSize(v), 2
  {
    out := b;
    match v
    case Double(bits) =>
      out := out + LE64(bits);
    case Str(s) =>
      out := out + LE32(|s| + 1);
      out := out + s + [0];
    case Document(d) =>
      out := AppendBSON(out, d);
    case Array(vs) =>
      var arr := IndexArray(vs);
      out := AppendBSON(out, arr);
    case Binary(subtype, data) =>
      out := out + LE32(|data|);
      out := out + [subtype];
      out := out + data;
    case ObjectId(oid) =>
      out := out + oid;
    case Boolean(x) =>
      if x {
        out := out + [1];
      } else {
        out := out + [0];
      }
    case DateTime(ms) =>
      out := out + LE64(FromInt64(ms));
    case Null =>
    case I32(i) =>
      out := out + LE32(FromInt32(i));
    case GoInt(n) =>
      out := out + LE32(FromInt32(Truncate32(n)));
    case Timestamp(secs, inc) =>
      out := out + LE32(inc);
      out := out + LE32(secs);
    case I64(l) =>
      out := out + LE64(FromInt64(l));
  }

  lemma {:induction false} IndexedAt(vs: seq<Value>, i: nat, k: nat)
    requires k < |vs|
    ensures IndexedFrom(vs, i)[k] == Elem(Itoa(i + k), vs[k])
  {
    if k > 0 {
      IndexedAt(vs[1..], i + 1, k - 1);
    }
  }

  method IndexArray(vs: seq<Value>) returns (arr: Doc)
    ensures arr == IndexedFrom(vs, 0)
  {
    arr := [];
    for i := 0 to |vs|
      invariant |arr| == i
      invariant forall k :: 0 <= k < i ==> arr[k] == Elem(Itoa(k), vs[k])
    {
      arr := arr + [Elem(Itoa(i), vs[i])];
    }
    forall k | 0 <= k < |vs| ensures arr[k] == IndexedFrom(vs, 0)[k] {
      IndexedAt(vs, 0, k);
    }
  }

  /** The elements already decoded, put before the outcome of the rest of the loop. */
  function Prepend(out: Doc, rest: Option<Doc>): Option<Doc>
  {
    match rest
    case None => None
    case Some(d) => Some(out + d)
  }

  lemma LoopStep(doc: Octets, pos: nat, out: Doc, key: Octets, p: nat, v: Value, q: nat)
    requires 1 <= pos < p <= q <= |doc| && doc[pos] != 0
    requires ReadCString(doc, pos + 1) == Some((key, p))
    requires ParseValue(doc[pos], doc, p) == Some((v, q))
    ensures Prepend(out, ParseElems(doc, pos)) == Prepend(out + [Elem(key, v)], ParseElems(doc, q))
  {
    var rest := ParseElems(doc, q);
    assert rest.Some? ==> out + ([Elem(key, v)] + rest.value) == out + [Elem(key, v)] + rest.value;
  }

  /** ReadBSONDocument: total on every byte sequence, with every index checked. */
  method ReadDocument(b: Octets) returns (r: Option<(Doc, nat)>)
    ensures r == ParseDoc(b)
    decreases |b|, 1
  {
    if |b| < 5 {
      return None;
    }
    var length := ToInt32(UInt32At(b));
    if length < 5 || length > |b| {
      return None;
    }
    var out := ReadElements(b[..length]);
    r := if out.None? then None else Some((out.value, length));
  }

  /** ReadBSONDocument's loop over the declared bytes. */
  method ReadElements(doc: Octets) returns (r: Option<Doc>)
    requires |doc| >= 5
    ensures r == ParseElems(doc, 4)
    decreases |doc|, 0, 2
  {
    var pos := 4;
    var out: Doc := [];
    assert ParseElems(doc, 4).Some? ==> out + ParseElems(doc, 4).value == ParseElems(doc, 4).value;
    while true
      invariant 4 <= pos <= |doc|
      invariant ParseElems(doc, 4) == Prepend(out, ParseElems(doc, pos))
      decreases |doc| - pos
    {
      if pos >= |doc| {
        return None;
      }
      if doc[pos] == 0 {
        assert out + [] == out;
        return if pos + 1 != |doc| then None else Some(out);
      }
      var e := ReadElem(doc, pos, out);
      if e.None? {
        return None;
      }
      out := out + [e.value.0];
      pos := e.value.1;
    }
  }

  /** One turn of the loop: the key, then the value its type byte announces. */
  method ReadElem(doc: Octets, pos: nat, ghost out: Doc) returns (r: Option<(Elem, nat)>)
    requires 1 <= pos < |doc| && doc[pos] != 0
    ensures r.None? ==> ParseElems(doc, pos).None?
    ensures r.Some? ==> pos < r.value.1 <= |doc|
    ensures r.Some? ==>
              Prepend(out, ParseElems(doc, pos)) == Prepend(out + [r.value.0], ParseElems(doc, r.value.1))
    decreases |doc|, 0, 1
  {
    var at := IndexByte(doc, pos + 1, 0);
    assert at.None? ==> ParseElems(doc, pos).None?;
    if at.None? {
      return None;
    }
    var p := at.value + 1;
    var key := doc[pos + 1..at.value];
    assert ReadCString(doc, pos + 1) == Some((key, p));
    assert ParseValue(doc[pos], doc, p).None? ==> ParseElems(doc, pos).None?;
    hide *;
    var val := ReadValue(doc[pos], doc, p);
    if val.None? {
      return None;
    }
    LoopStep(doc, pos, out, key, p, val.value.0, val.value.1);
    r := Some((Elem(key, val.value.0), val.value.1));
  }

  /** readBSONString: a length that counts the trailing NUL, checked before anything is sliced. */
  method ReadString(b: Octets, pos: nat) returns (r: Option<(Value, nat)>)
    requires pos <= |b|
    ensures r == ParseString(b, pos)
  {
    if pos + 4 > |b| {
      return None;
    }
    var length := ToInt32(UInt32At(b[pos..pos + 4]));
    SameWord(b, pos);
    var start := pos + 4;
    if length < 1 || start + length > |b| {
      return None;
    }
    if b[start + length - 1] != 0 {
      return None;
    }
    r := Some((Str(b[start..start + length - 1]), start + length));
  }

  lemma SameWord(b: Octets, pos: nat)
    requires pos + 4 <= |b|
    ensures UInt32At(b[pos..pos + 4]) == UInt32At(b[pos..])
  {
    assert b[pos..pos + 4][..4] == b[pos..][..4];
  }

  lemma SameLong(b: Octets, pos: nat)
    requires pos + 8 <= |b|
    ensures UInt64At(b[pos..pos + 8]) == UInt64At(b[pos..])
  {
    assert b[pos..pos + 8][..8] == b[pos..][..8];
  }

  /** The binary case of readBSONValue. */
  method ReadBinary(b: Octets, pos: nat) returns (r: Option<(Value, nat)>)
    requires 1 <= pos <= |b|
    ensures r == ParseValue(BINARY, b, pos)
  {
    if pos + 5 > |b| {
      return None;
    }
    var length := ToInt32(UInt32At(b[pos..pos + 4]));
    SameWord(b, pos);
    var subtype, start := b[pos + 4], pos + 5;
    if length < 0 || start + length > |b| {
      return None;
    }
    r := Some((Binary(subtype, b[start..start + length]), start + length));
  }

  predicate IsScalar(t: Byte) {
    t == DOUBLE || t == OBJECT_ID || t == BOOL || t == DATE_TIME || t == NULL || t == INT32 || t == TIMESTAMP || t == INT64
  }

  /** The fixed-width cases of readBSONValue, each behind its own bounds test. */
  method ReadScalar(t: Byte, b: Octets, pos: nat) returns (r: Option<(Value, nat)>)
    requires 1 <= pos <= |b| && IsScalar(t)
    ensures r == ParseValue(t, b, pos)
  {
    var width := if t == OBJECT_ID then 12 else if t == BOOL then 1 else if t == NULL then 0 else if t == INT32 then 4 else 8;
    if pos + width > |b| {
      return None;
    }
    var end := pos + width;
    if width == 8 {
      SameLong(b, pos);
    }
    if width == 4 || t == TIMESTAMP {
      SameWord(b, pos);
    }
    hide UInt32At, UInt64At;
    if t == DOUBLE {
      r := Some((Double(UInt64At(b[pos..end])), end));
    } else if t == OBJECT_ID {
      r := Some((ObjectId(b[pos..end]), end));
    } else if t == BOOL {
      r := Some((Boolean(b[pos] != 0), end));
    } else if t == DATE_TIME {
      r := Some((DateTime(ToInt64(UInt64At(b[pos..end]))), end));
    } else if t == NULL {
      r := Some((Null, pos));
    } else if t == INT32 {
      r := Some((I32(ToInt32(UInt32At(b[pos..end]))), end));
    } else if t == TIMESTAMP {
      var inc, secs := UInt32At(b[pos..pos + 4]), UInt32At(b[pos + 4..end]);
      SameWord(b, pos + 4);
      r := Some((Timestamp(secs, inc), end));
    } else {
      r := Some((I64(ToInt64(UInt64At(b[pos..end]))), end));
    }
  }

  method ReadValue(t: Byte, b: Octets, pos: nat) returns (r: Option<(Value, nat)>)
    requires 1 <= pos <= |b|
    ensures r == ParseValue(t, b, pos)
    decreases |b|, 0, 0
  {
    if t == STRING {
      r := ReadString(b, pos);
    } else if t == DOCUMENT {
      var sub := ReadDocument(b[pos..]);
      r := if sub.None? then None else Some((Document(sub.value.0), pos + sub.value.1));
    } else if t == ARRAY {
      var sub := ReadDocument(b[pos..]);
      if sub.None? {
        return None;
      }
      var arr := CollectValues(sub.value.0);
      r := Some((Array(arr), pos + sub.value.1));
    } else if t == BINARY {
      r := ReadBinary(b, pos);
    } else if IsScalar(t) {
      r := ReadScalar(t, b, pos);
    } else {
      r := None;
    }
  }

  lemma {:induction false} ValuesSnoc(d: Doc, i: nat)
    requires i < |d|
    ensures Values(d[..i + 1]) == Values(d[..i]) + [d[i].value]
  {
    if i > 0 {
      assert d[..i + 1][1..] == d[1..][..i] && d[..i][1..] == d[1..][..i - 1];
      ValuesSnoc(d[1..], i - 1);
    }
  }

  method CollectValues(d: Doc) returns (arr: seq<Value>)
    ensures arr == Values(d)
  {
    arr := [];
    for i := 0 to |d|
      invariant arr == Values(d[..i])
    {
      ValuesSnoc(d, i);
      arr := arr + [d[i].value];
    }
    assert d[..|d|] == d;
  }
}
