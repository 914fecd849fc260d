/** What the BSON encoder and decoder promise about each other, for every document and every input. */
module BsonTheorems {
  import opened Octets
  import opened Bson

  /** The codec's lengths are int32 words. */
  const LIMIT := 0x8000_0000

  // ------------------------------------------------------------- round trip

  lemma RoundTripString(s: Octets, b: Octets, pos: nat, rest: Octets)
    requires pos <= |b| < LIMIT
    requires b[pos..] == LE32(|s| + 1) + s + [0] + rest
    ensures ParseString(b, pos) == Some((Str(s), pos + |s| + 5))
  {
    hide LE32, UInt32At;
    var n, tail := |s| + 1, s + ([0] + rest);
    Regroup(LE32(n), s, [0], rest);
    ReadBack32(n, tail);
    Peel(b, pos, LE32(n), tail);
    Peel(b, pos + 4, s, [0] + rest);
    Peel(b, pos + 4 + |s|, [0], rest);
  }

  lemma BinaryFields(subtype: Byte, data: Octets, b: Octets, pos: nat, rest: Octets)
    requires pos <= |b| < LIMIT
    requires b[pos..] == LE32(|data|) + [subtype] + data + rest
    ensures pos + 5 + |data| <= |b| && ToInt32(UInt32At(b[pos..])) == |data|
    ensures b[pos + 4] == subtype && b[pos + 5..pos + 5 + |data|] == data
  {
    hide LE32, UInt32At;
    var n, tail := |data|, [subtype] + (data + rest);
    Regroup(LE32(n), [subtype], data, rest);
    ReadBack32(n, tail);
    Peel(b, pos, LE32(n), tail);
    Peel(b, pos + 4, [subtype], data + rest);
    Peel(b, pos + 5, data, rest);
  }

  lemma RoundTripBinary(subtype: Byte, data: Octets, b: Octets, pos: nat, rest: Octets)
    requires 1 <= pos <= |b| < LIMIT
    requires b[pos..] == LE32(|data|) + [subtype] + data + rest
    ensures ParseValue(BINARY, b, pos) == Some((Binary(subtype, data), pos + 5 + |data|))
  {
    hide LE32, UInt32At;
    BinaryFields(subtype, data, b, pos, rest);
  }

  lemma RoundTripTimestamp(secs: UInt32, inc: UInt32, b: Octets, pos: nat, rest: Octets)
    requires 1 <= pos <= |b|
    requires b[pos..] == LE32(inc) + LE32(secs) + rest
    ensures ParseValue(TIMESTAMP, b, pos) == Some((Timestamp(secs, inc), pos + 8))
  {
    hide LE32, UInt32At;
    var tail := LE32(secs) + rest;
    assert LE32(inc) + LE32(secs) + rest == LE32(inc) + tail;
    ReadBack32(inc, tail);
    Peel(b, pos, LE32(inc), tail);
    Peel(b, pos + 4, LE32(secs), rest);
    ReadBack32(secs, rest);
  }

  predicate IsFixedWidth(v: Value) {
    v.Double? || v.ObjectId? || v.Boolean? || v.DateTime? || v.Null? || v.I32? || v.GoInt? || v.I64?
  }

  lemma RoundTripFixedWidth(v: Value, b: Octets, pos: nat, rest: Octets)
    requires IsFixedWidth(v) && 1 <= pos <= |b|
    requires b[pos..] == EncodeValue(v) + rest
    ensures ParseValue(Tag(v), b, pos) == Some((NormValue(v), pos + |EncodeValue(v)|))
  {
    hide LE32, LE64, UInt32At, UInt64At;
    Peel(b, pos, EncodeValue(v), rest);
    match v
    case Double(bits) => ReadBack64(bits, rest);
    case ObjectId(oid) =>
    case Boolean(x) =>
    case DateTime(ms) => ReadBack64(FromInt64(ms), rest);
    case Null =>
    case I32(i) => ReadBack32(FromInt32(i), rest);
    case GoInt(n) => ReadBack32(FromInt32(Truncate32(n)), rest);
    case I64(l) => ReadBack64(FromInt64(l), rest);
  }

  lemma {:induction false} RoundTripValue(v: Value, b: Octets, pos: nat, q: nat, rest: Octets)
    requires GoodValue(v) && 1 <= pos <= |b| < LIMIT
    requires b[pos..] == EncodeValue(v) + rest && q == pos + |EncodeValue(v)|
    ensures ParseValue(Tag(v), b, pos) == Some((NormValue(v), q))
    decreases ValueSize(v), 2
  {
    hide LE32, LE64, UInt32At, UInt64At, ParseElems, EncodeElems, NormDoc, GoodDoc, IndexedFrom, Values;
    match v
    case Str(s) => RoundTripString(s, b, pos, rest);
    case Document(d) => RoundTripDoc(d, rest);
    case Array(vs) =>
      GoodIndexed(vs, 0);
      RoundTripDoc(IndexedFrom(vs, 0), rest);
      NormIndexed(vs, 0);
      ValuesOfIndexed(NormItems(vs), 0);
    case Binary(subtype, data) => RoundTripBinary(subtype, data, b, pos, rest);
    case Timestamp(secs, inc) => RoundTripTimestamp(secs, inc, b, pos, rest);
    case _ => RoundTripFixedWidth(v, b, pos, rest);
  }

  /** The pieces of one encoded element, located in the buffer that holds it. */
  lemma SplitElem(doc: Octets, pos: nat, p: nat, t: Byte, key: Octets, val: Octets, after: Octets)
    requires pos <= |doc| && NulFree(key) && p == pos + |key| + 2
    requires doc[pos..] == [t] + key + [0] + val + after
    ensures p + |val| <= |doc| && doc[pos] == t
    ensures ReadCString(doc, pos + 1) == Some((key, p))
    ensures doc[p..] == val + after
    ensures doc[p + |val|..] == after
  {
    var text := key + [0];
    assert [t] + key + [0] + val + after == [t] + (text + (val + after));
    Peel(doc, pos, [t], text + (val + after));
    Peel(doc, pos + 1, text, val + after);
    ReadCStringAt(doc, pos + 1, key);
    Peel(doc, p, val, after);
  }

  /** One turn of the decoder's element loop. */
  lemma ParseElemsStep(doc: Octets, pos: nat, key: Octets, v: Value, p: nat, q: nat, rest: Doc)
    requires 1 <= pos < p <= q <= |doc| && doc[pos] != 0
    requires ReadCString(doc, pos + 1) == Some((key, p))
    requires ParseValue(doc[pos], doc, p) == Some((v, q))
    requires ParseElems(doc, q) == Some(rest)
    ensures ParseElems(doc, pos) == Some([Elem(key, v)] + rest)
  {
  }

  lemma EncodeElemsCons(d: Doc)
    requires d != []
    ensures EncodeElems(d) + [0]
         == [Tag(d[0].value)] + d[0].key + [0] + EncodeValue(d[0].value) + (EncodeElems(d[1..]) + [0])
  {
  }

  lemma {:induction false} RoundTripElems(doc: Octets, pos: nat, d: Doc)
    requires GoodDoc(d) && 1 <= pos <= |doc| < LIMIT
    requires doc[pos..] == EncodeElems(d) + [0]
    ensures ParseElems(doc, pos) == Some(NormDoc(d))
    decreases DocSize(d), 0
  {
    var tail := doc[pos..];
    if d == [] {
      assert doc[pos] == tail[0] == 0;
    } else {
      var key, v := d[0].key, d[0].value;
      var after := EncodeElems(d[1..]) + [0];
      var p := pos + |key| + 2;
      var q := p + |EncodeValue(v)|;
      EncodeElemsCons(d);
      SplitElem(doc, pos, p, Tag(v), key, EncodeValue(v), after);
      RoundTripElems(doc, q, d[1..]);
      RoundTripValue(v, doc, p, q, after);
      ParseElemsStep(doc, pos, key, NormValue(v), p, q, NormDoc(d[1..]));
    }
  }

  /** Reading an encoding followed by anything returns the document and stops exactly at its end. */
  lemma {:induction false} RoundTripDoc(d: Doc, suffix: Octets)
    requires GoodDoc(d) && |EncodeDoc(d)| < LIMIT
    ensures ParseDoc(EncodeDoc(d) + suffix) == Some((NormDoc(d), |EncodeDoc(d)|))
    decreases DocSize(d), 1
  {
    hide LE32, UInt32At, ParseElems, EncodeElems, NormDoc, GoodDoc;
    var enc := EncodeDoc(d);
    var n := |enc|;
    var b := enc + suffix;
    assert b == LE32(n) + (EncodeElems(d) + [0] + suffix);
    ReadBack32(n, EncodeElems(d) + [0] + suffix);
    assert b[..n] == enc;
    assert enc[4..] == EncodeElems(d) + [0];
    RoundTripElems(enc, 4, d);
  }

  /** No two documents share an encoding, up to Go ints becoming int32s. */
  lemma EncodingInjective(d: Doc, e: Doc)
    requires GoodDoc(d) && GoodDoc(e) && |EncodeDoc(d)| < LIMIT
    requires EncodeDoc(d) == EncodeDoc(e)
    ensures NormDoc(d) == NormDoc(e)
  {
    RoundTripDoc(d, []);
    RoundTripDoc(e, []);
  }

  /** No encoding is a proper prefix of another: a stream of documents splits in one way. */
  lemma EncodingPrefixFree(d: Doc, e: Doc, x: Octets, y: Octets)
    requires GoodDoc(d) && GoodDoc(e) && |EncodeDoc(d)| < LIMIT && |EncodeDoc(e)| < LIMIT
    requires EncodeDoc(d) + x == EncodeDoc(e) + y
    ensures EncodeDoc(d) == EncodeDoc(e) && x == y
  {
    RoundTripDoc(d, x);
    RoundTripDoc(e, y);
    var n := |EncodeDoc(d)|;
    assert EncodeDoc(d) == (EncodeDoc(d) + x)[..n] && x == (EncodeDoc(d) + x)[n..];
    assert EncodeDoc(e) == (EncodeDoc(e) + y)[..n] && y == (EncodeDoc(e) + y)[n..];
  }

  // ----------------------------------------------- what decoding depends on

  /** The outcome, success or failure, is a function of the declared bytes alone. */
  lemma DecoderIgnoresSuffix(b: Octets, suffix: Octets)
    requires |b| >= 5 && ToInt32(UInt32At(b)) <= |b|
    ensures ParseDoc(b + suffix) == ParseDoc(b)
    ensures ParseDoc(b).Some? ==> ParseDoc(b[..ParseDoc(b).value.1]) == ParseDoc(b)
  {
    var c := b + suffix;
    assert c[..4] == b[..4];
    var n := ToInt32(UInt32At(b));
    if n >= 5 {
      assert c[..n] == b[..n];
      assert b[..n][..4] == b[..4];
      assert b[..n][..n] == b[..n];
    }
  }

  // ------------------------------------------- decoded documents are normal

  lemma {:induction false} GoodValues(d: Doc)
    requires GoodDoc(d)
    ensures GoodItems(Values(d))
  {
    if d != [] {
      GoodValues(d[1..]);
      assert Values(d)[1..] == Values(d[1..]);
    }
  }

  lemma {:induction false} NormValues(d: Doc)
    requires NormDoc(d) == d
    ensures NormItems(Values(d)) == Values(d)
  {
    if d != [] {
      assert NormDoc(d)[1..] == NormDoc(d[1..]);
      assert NormDoc(d)[0] == d[0];
      NormValues(d[1..]);
      assert Values(d)[1..] == Values(d[1..]);
    }
  }

  lemma {:induction false} DecodedValueNormal(t: Byte, b: Octets, pos: nat)
    requires 1 <= pos <= |b| && ParseValue(t, b, pos).Some?
    ensures var v := ParseValue(t, b, pos).value.0;
            GoodValue(v) && NormValue(v) == v && Tag(v) == t
    decreases |b|, 0
  {
    if t == DOCUMENT || t == ARRAY {
      DecodedDocNormal(b[pos..]);
      if t == ARRAY {
        var d := ParseDoc(b[pos..]).value.0;
        GoodValues(d);
        NormValues(d);
      }
    }
  }

  lemma {:induction false} DecodedElemsNormal(doc: Octets, pos: nat)
    requires 1 <= pos <= |doc| && ParseElems(doc, pos).Some?
    ensures var d := ParseElems(doc, pos).value; GoodDoc(d) && NormDoc(d) == d
    decreases |doc|, |doc| - pos
  {
    if doc[pos] != 0 {
      var (_, p) := ReadCString(doc, pos + 1).value;
      DecodedValueNormal(doc[pos], doc, p);
      var (_, q) := ParseValue(doc[pos], doc, p).value;
      DecodedElemsNormal(doc, q);
      var d := ParseElems(doc, pos).value;
      assert d[1..] == ParseElems(doc, q).value;
    }
  }

  lemma {:induction false} DecodedDocNormal(b: Octets)
    requires ParseDoc(b).Some?
    ensures var d := ParseDoc(b).value.0; GoodDoc(d) && NormDoc(d) == d
    decreases |b|, |b| + 1
  {
    DecodedElemsNormal(b[..ParseDoc(b).value.1], 4);
  }

  // ----------------------------------------------------- growth on re-encode

  /** The cap on an incoming MongoDB message. */
  const MAX_MESSAGE := 64 * 1024 * 1024

  lemma IndexDigits(i: nat)
    requires i < 100_000_000
    ensures |Itoa(i)| <= 8
  {
    assert Pow10(2) == 100 && Pow10(4) == 10_000;
    assert Pow10(6) == 1_000_000 && Pow10(8) == 100_000_000;
    ItoaLength(i, 8);
  }

  lemma {:induction false} GrowthValue(t: Byte, b: Octets, pos: nat)
    requires 1 <= pos <= |b| <= MAX_MESSAGE && ParseValue(t, b, pos).Some?
    ensures var (v, q) := ParseValue(t, b, pos).value;
            |EncodeValue(v)| <= 5 * (q - pos)
    decreases |b|, 0
  {
    hide UInt32At, UInt64At, LE32, LE64, ParseElems, EncodeElems, IndexedFrom, Values;
    if t == DOCUMENT || t == ARRAY {
      GrowthDoc(b[pos..]);
    }
  }

  /** Both as document elements and, renumbered from `i`, as array elements. */
  lemma {:induction false} GrowthElems(doc: Octets, pos: nat, i: nat)
    requires 1 <= pos <= |doc| <= MAX_MESSAGE && ParseElems(doc, pos).Some?
    requires 2 * i <= pos
    ensures var d := ParseElems(doc, pos).value;
            && pos < |doc|
            && |EncodeElems(d)| <= 5 * (|doc| - 1 - pos)
            && |EncodeElems(IndexedFrom(Values(d), i))| <= 5 * (|doc| - 1 - pos)
    decreases |doc|, |doc| - pos
  {
    if doc[pos] != 0 {
      var t := doc[pos];
      var (key, p) := ReadCString(doc, pos + 1).value;
      var (v, q) := ParseValue(t, doc, p).value;
      GrowthValue(t, doc, p);
      GrowthElems(doc, q, i + 1);
      var d := ParseElems(doc, pos).value;
      var rest := ParseElems(doc, q).value;
      assert d == [Elem(key, v)] + rest && d[1..] == rest;
      assert |doc[pos + 1..p]| == |key| + 1;
      var e := IndexedFrom(Values(d), i);
      assert Values(d)[1..] == Values(rest);
      assert e[1..] == IndexedFrom(Values(rest), i + 1);
      IndexDigits(i);
    }
  }

  lemma {:induction false} GrowthDoc(b: Octets)
    requires |b| <= MAX_MESSAGE && ParseDoc(b).Some?
    ensures var (d, n) := ParseDoc(b).value;
            && |EncodeDoc(d)| <= 5 * n
            && |EncodeDoc(IndexedFrom(Values(d), 0))| <= 5 * n
    decreases |b|, |b| + 1
  {
    var n := ParseDoc(b).value.1;
    GrowthElems(b[..n], 4, 0);
  }

  /** Whatever a message body decodes to can be written again and reads back unchanged. */
  lemma DecodeEncodeDecode(b: Octets, suffix: Octets)
    requires |b| <= MAX_MESSAGE && ParseDoc(b).Some?
    ensures var (d, n) := ParseDoc(b).value;
            && |EncodeDoc(d)| <= 5 * n
            && |EncodeDoc(d)| < LIMIT
            && ParseDoc(EncodeDoc(d) + suffix) == Some((d, |EncodeDoc(d)|))
  {
    GrowthDoc(b);
    DecodedDocNormal(b);
    RoundTripDoc(ParseDoc(b).value.0, suffix);
  }
}
