/** The BSON codec: documents, their byte encoding, and the total decoder. */
module Bson {
  import opened Octets

  const DOUBLE: Byte := 0x01
  const STRING: Byte := 0x02
  const DOCUMENT: Byte := 0x03
  const ARRAY: Byte := 0x04
  const BINARY: Byte := 0x05
  const OBJECT_ID: Byte := 0x07
  const BOOL: Byte := 0x08
  const DATE_TIME: Byte := 0x09
  const NULL: Byte := 0x0A
  const INT32: Byte := 0x10
  const TIMESTAMP: Byte := 0x11
  const INT64: Byte := 0x12

  /** A 12-byte ObjectId. */
  type Oid = s: Octets | |s| == 12 witness [0, 0, 0, 0, 0, 0, 0, 0, 0, 0, 0, 0]

  /** A float64 is its 64-bit pattern. `GoInt` is Go's machine `int`, which is encoded as an int32. */
  datatype Value =
    | Double(bits: UInt64)
    | Str(s: Octets)
    | Document(doc: seq<Elem>)
    | Array(items: seq<Value>)
    | Binary(subtype: Byte, data: Octets)
    | ObjectId(oid: Oid)
    | Boolean(b: bool)
    | DateTime(ms: Int64)
    | Null
    | I32(i: Int32)
    | GoInt(n: Int64)
    | Timestamp(secs: UInt32, inc: UInt32)
    | I64(l: Int64)

  datatype Elem = Elem(key: Octets, value: Value)

  /** Documents are ordered: the first element names the command. */
  type Doc = seq<Elem>

  // ------------------------------------------------------------------ sizes

  function ValueSize(v: Value): nat
    decreases v
  {
    match v
    case Document(d) => 1 + DocSize(d)
    case Array(vs) => 1 + ItemsSize(vs)
    case _ => 0
  }

  function DocSize(d: Doc): nat
    decreases d
  {
    if d == [] then 0 else 1 + ValueSize(d[0].value) + DocSize(d[1..])
  }

  function ItemsSize(vs: seq<Value>): nat
    decreases vs
  {
    if vs == [] then 0 else 1 + ValueSize(vs[0]) + ItemsSize(vs[1..])
  }

  lemma {:induction false} ElemSmaller(d: Doc, i: nat)
    requires i < |d|
    ensures ValueSize(d[i].value) < DocSize(d)
  {
    if i > 0 {
      ElemSmaller(d[1..], i - 1);
    }
  }

  // ------------------------------------------------------------- array keys

  /** strconv.Itoa on a non-negative index. */
  function Itoa(n: nat): (s: Octets)
    ensures NulFree(s)
    ensures |s| >= 1
  {
    if n < 10 then [48 + n] else Itoa(n / 10) + [48 + n % 10]
  }

  function Pow10(k: nat): nat
  {
    if k == 0 then 1 else 10 * Pow10(k - 1)
  }

  lemma {:induction false} ItoaLength(n: nat, k: nat)
    requires k >= 1 && n < Pow10(k)
    ensures |Itoa(n)| <= k
  {
    if n >= 10 {
      ItoaLength(n / 10, k - 1);
    }
  }

  /** An array is encoded as the document whose keys are "0", "1", "2", ... */
  function IndexedFrom(vs: seq<Value>, i: nat): (d: Doc)
    ensures |d| == |vs|
    ensures DocSize(d) == ItemsSize(vs)
  {
    if vs == [] then [] else
      var rest := IndexedFrom(vs[1..], i + 1);
      var d := [Elem(Itoa(i), vs[0])] + rest;
      assert d[1..] == rest;
      d
  }

  function Values(d: Doc): (vs: seq<Value>)
    ensures |vs| == |d|
  {
    if d == [] then [] else [d[0].value] + Values(d[1..])
  }

  lemma {:induction false} ValuesOfIndexed(vs: seq<Value>, i: nat)
    ensures Values(IndexedFrom(vs, i)) == vs
  {
    if vs != [] {
      ValuesOfIndexed(vs[1..], i + 1);
      assert IndexedFrom(vs, i)[1..] == IndexedFrom(vs[1..], i + 1);
    }
  }

  // --------------------------------------------------------------- encoding

  function Tag(v: Value): (t: Byte)
    ensures t != 0
  {
    match v
    case Double(_) => DOUBLE
    case Str(_) => STRING
    case Document(_) => DOCUMENT
    case Array(_) => ARRAY
    case Binary(_, _) => BINARY
    case ObjectId(_) => OBJECT_ID
    case Boolean(_) => BOOL
    case DateTime(_) => DATE_TIME
    case Null => NULL
    case I32(_) => INT32
    case GoInt(_) => INT32
    case Timestamp(_, _) => TIMESTAMP
    case I64(_) => INT64
  }

  /** Go's `int32(val)` of a 64-bit int: the low 32 bits, re-signed. */
  function Truncate32(n: Int64): (i: Int32)
    ensures (n - i) % 0x1_0000_0000 == 0
  {
    ToInt32(n % 0x1_0000_0000)
  }

  function EncodeDoc(d: Doc): (bs: Octets)
    ensures |bs| == 5 + |EncodeElems(d)|
    decreases DocSize(d), 1
  {
    var body := EncodeElems(d);
    LE32(|body| + 5) + body + [0]
  }

  function EncodeElems(d: Doc): Octets
    decreases DocSize(d), 0
  {
    if d == [] then []
    else [Tag(d[0].value)] + d[0].key + [0] + EncodeValue(d[0].value) + EncodeElems(d[1..])
  }

  function EncodeValue(v: Value): Octets
    decreases ValueSize(v), 2
  {
    match v
    case Double(bits) => LE64(bits)
    case Str(s) => LE32(|s| + 1) + s + [0]
    case Document(d) => EncodeDoc(d)
    case Array(vs) => EncodeDoc(IndexedFrom(vs, 0))
    case Binary(subtype, data) => LE32(|data|) + [subtype] + data
    case ObjectId(oid) => oid
    case Boolean(b) => [if b then 1 else 0]
    case DateTime(ms) => LE64(FromInt64(ms))
    case Null => []
    case I32(i) => LE32(FromInt32(i))
    case GoInt(n) => LE32(FromInt32(Truncate32(n)))
    case Timestamp(secs, inc) => LE32(inc) + LE32(secs)
    case I64(l) => LE64(FromInt64(l))
  }

  function EncodeElem(key: Octets, v: Value): Octets
  {
    [Tag(v)] + key + [0] + EncodeValue(v)
  }

  /** What a value reads back as: a Go int comes back as the int32 it was written as. */
  function NormValue(v: Value): Value
    decreases v
  {
    match v
    case Document(d) => Document(NormDoc(d))
    case Array(vs) => Array(NormItems(vs))
    case GoInt(n) => I32(Truncate32(n))
    case _ => v
  }

  function NormDoc(d: Doc): (r: Doc)
    ensures |r| == |d|
    decreases d
  {
    if d == [] then [] else [Elem(d[0].key, NormValue(d[0].value))] + NormDoc(d[1..])
  }

  function NormItems(vs: seq<Value>): (r: seq<Value>)
    ensures |r| == |vs|
    decreases vs
  {
    if vs == [] then [] else [NormValue(vs[0])] + NormItems(vs[1..])
  }

  lemma {:induction false} NormIndexed(vs: seq<Value>, i: nat)
    ensures NormDoc(IndexedFrom(vs, i)) == IndexedFrom(NormItems(vs), i)
  {
    if vs != [] {
      NormIndexed(vs[1..], i + 1);
      assert IndexedFrom(vs, i)[1..] == IndexedFrom(vs[1..], i + 1);
      assert NormItems(vs)[1..] == NormItems(vs[1..]);
    }
  }

  /** Every key, at every depth, is free of NUL bytes. */
  predicate GoodValue(v: Value)
    decreases v
  {
    match v
    case Document(d) => GoodDoc(d)
    case Array(vs) => GoodItems(vs)
    case _ => true
  }

  predicate GoodDoc(d: Doc)
    decreases d
  {
    d != [] ==> NulFree(d[0].key) && GoodValue(d[0].value) && GoodDoc(d[1..])
  }

  predicate GoodItems(vs: seq<Value>)
    decreases vs
  {
    vs != [] ==> GoodValue(vs[0]) && GoodItems(vs[1..])
  }

  lemma {:induction false} GoodIndexed(vs: seq<Value>, i: nat)
    requires GoodItems(vs)
    ensures GoodDoc(IndexedFrom(vs, i))
  {
    if vs != [] {
      GoodIndexed(vs[1..], i + 1);
      assert IndexedFrom(vs, i)[1..] == IndexedFrom(vs[1..], i + 1);
    }
  }

  // --------------------------------------------------------------- decoding

  /** ReadBSONDocument: the document at the start of `b` and the bytes it occupies. */
  function ParseDoc(b: Octets): (r: Option<(Doc, nat)>)
    ensures r.Some? ==> 5 <= r.value.1 <= |b| && r.value.1 == ToInt32(UInt32At(b))
    decreases |b|, |b| + 1
  {
    if |b| < 5 then None else
      var length := ToInt32(UInt32At(b));
      if length < 5 || length > |b| then None else
        var d :- ParseElems(b[..length], 4);
        Some((d, length))
  }

  /** The element loop over one document's bytes, from `pos` to its terminator. */
  function ParseElems(doc: Octets, pos: nat): (r: Option<Doc>)
    requires 1 <= pos <= |doc|
    decreases |doc|, |doc| - pos
  {
    if pos == |doc| then None
    else if doc[pos] == 0 then
      if pos + 1 == |doc| then Some([]) else None
    else
      var (key, p) :- ReadCString(doc, pos + 1);
      var (v, q) :- ParseValue(doc[pos], doc, p);
      var rest :- ParseElems(doc, q);
      Some([Elem(key, v)] + rest)
  }

  function ParseValue(t: Byte, b: Octets, pos: nat): (r: Option<(Value, nat)>)
    requires 1 <= pos <= |b|
    ensures r.Some? ==> pos <= r.value.1 <= |b|
    decreases |b|, 0
  {
    if t == DOUBLE then
      if pos + 8 > |b| then None else Some((Double(UInt64At(b[pos..])), pos + 8))
    else if t == STRING then
      ParseString(b, pos)
    else if t == DOCUMENT then
      var (d, n) :- ParseDoc(b[pos..]);
      Some((Document(d), pos + n))
    else if t == ARRAY then
      var (d, n) :- ParseDoc(b[pos..]);
      Some((Array(Values(d)), pos + n))
    else if t == BINARY then
      if pos + 5 > |b| then None else
        var n := ToInt32(UInt32At(b[pos..]));
        if n < 0 || pos + 5 + n > |b| then None else
          Some((Binary(b[pos + 4], b[pos + 5..pos + 5 + n]), pos + 5 + n))
    else if t == OBJECT_ID then
      if pos + 12 > |b| then None else Some((ObjectId(b[pos..pos + 12]), pos + 12))
    else if t == BOOL then
      if pos + 1 > |b| then None else Some((Boolean(b[pos] != 0), pos + 1))
    else if t == DATE_TIME then
      if pos + 8 > |b| then None else Some((DateTime(ToInt64(UInt64At(b[pos..]))), pos + 8))
    else if t == NULL then
      Some((Null, pos))
    else if t == INT32 then
      if pos + 4 > |b| then None else Some((I32(ToInt32(UInt32At(b[pos..]))), pos + 4))
    else if t == TIMESTAMP then
      if pos + 8 > |b| then None else
        Some((Timestamp(UInt32At(b[pos + 4..]), UInt32At(b[pos..])), pos + 8))
    else if t == INT64 then
      if pos + 8 > |b| then None else Some((I64(ToInt64(UInt64At(b[pos..]))), pos + 8))
    else None
  }

  /** readBSONString: an int32 length counting the trailing NUL, the bytes, the NUL. */
  function ParseString(b: Octets, pos: nat): (r: Option<(Value, nat)>)
    requires pos <= |b|
    ensures r.Some? ==> pos + 5 <= r.value.1 <= |b|
  {
    if pos + 4 > |b| then None else
      var n := ToInt32(UInt32At(b[pos..]));
      if n < 1 || pos + 4 + n > |b| || b[pos + 4 + n - 1] != 0 then None
      else Some((Str(b[pos + 4..pos + 4 + n - 1]), pos + 4 + n))
  }
}
