/** The BSON specification's bytes, written out, and the codec held to them. */
module BsonLayout {
  import opened Octets
  import opened Bson
  import opened BsonTheorems
  import BsonCodec

  // --------------------------------------------------------- the specification

  /** The type byte of a value. */
  function TypeByte(v: Value): Byte {
    match v
    case Double(_) => 0x01
    case Str(_) => 0x02
    case Document(_) => 0x03
    case Array(_) => 0x04
    case Binary(_, _) => 0x05
    case ObjectId(_) => 0x07
    case Boolean(_) => 0x08
    case DateTime(_) => 0x09
    case Null => 0x0A
    case I32(_) => 0x10
    case GoInt(_) => 0x10
    case Timestamp(_, _) => 0x11
    case I64(_) => 0x12
  }

  /** A length word, the elements, a NUL; the word counts all of it. */
  predicate Framed(p: Octets) {
    |p| >= 5 && Number32(p[..4]) == |p| % 0x1_0000_0000 && p[|p| - 1] == 0
  }

  /** `p` spells the payload of `v`. */
  ghost predicate Spells(v: Value, p: Octets)
    decreases ValueSize(v), 2
  {
    match v
    case Double(bits) => |p| == 8 && Number64(p) == bits
    case Str(s) =>
      && |p| == 4 + |s| + 1 && Number32(p[..4]) == (|s| + 1) % 0x1_0000_0000
      && p[4..4 + |s|] == s && p[4 + |s|] == 0
    case Document(d) => Framed(p) && SpellsElems(d, p[4..|p| - 1])
    case Array(vs) => Framed(p) && SpellsElems(IndexedFrom(vs, 0), p[4..|p| - 1])
    case Binary(subtype, data) =>
      |p| == 5 + |data| && Number32(p[..4]) == |data| % 0x1_0000_0000 && p[4] == subtype && p[5..] == data
    case ObjectId(oid) => p == oid
    case Boolean(b) => p == if b then [0x01] else [0x00]
    case DateTime(ms) => |p| == 8 && (Number64(p) - ms) % 0x1_0000_0000_0000_0000 == 0
    case Null => p == []
    case I32(i) => |p| == 4 && (Number32(p) - i) % 0x1_0000_0000 == 0
    case GoInt(n) => |p| == 4 && (Number32(p) - n) % 0x1_0000_0000 == 0
    case Timestamp(secs, inc) => |p| == 8 && Number32(p[..4]) == inc && Number32(p[4..]) == secs
    case I64(l) => |p| == 8 && (Number64(p) - l) % 0x1_0000_0000_0000_0000 == 0
  }

  /** Type byte, key, NUL, payload. */
  ghost predicate SpellsElem(key: Octets, v: Value, e: Octets)
    decreases ValueSize(v), 3
  {
    && |e| >= |key| + 2 && e[0] == TypeByte(v) && e[1..|key| + 1] == key && e[|key| + 1] == 0
    && Spells(v, e[|key| + 2..])
  }

  /** The elements one after the other. */
  ghost predicate SpellsElems(d: Doc, bytes: Octets)
    decreases DocSize(d), 0
  {
    if d == [] then bytes == []
    else exists cut: nat :: cut <= |bytes| && SpellsElem(d[0].key, d[0].value, bytes[..cut]) && SpellsElems(d[1..], bytes[cut..])
  }

  ghost predicate SpellsDoc(d: Doc, p: Octets) {
    Framed(p) && SpellsElems(d, p[4..|p| - 1])
  }

  // --------------------------------------------------------------- array keys

  /** A decimal numeral read digit by digit. */
  function Decimal(s: Octets): int {
    if s == [] then 0 else
      var low: int := s[|s| - 1];
      10 * Decimal(s[..|s| - 1]) + (low - 48)
  }

  predicate Digits(s: Octets) {
    s != [] && forall i :: 0 <= i < |s| ==> 48 <= s[i] <= 57
  }

  /** Array keys are the plain decimal numerals: digits only, no leading zero, read back to the index. */
  lemma {:induction false} ItoaIsDecimal(n: nat)
    ensures Digits(Itoa(n)) && Decimal(Itoa(n)) == n && (n > 0 ==> Itoa(n)[0] != 48)
  {
    var s := Itoa(n);
    assert s[..0] == [];
    if n >= 10 {
      ItoaIsDecimal(n / 10);
      assert s[..|s| - 1] == Itoa(n / 10);
    }
  }

  /** An array's elements: each item under the numeral of its index. */
  lemma ArrayKeys(vs: seq<Value>, k: nat)
    requires k < |vs|
    ensures var e := IndexedFrom(vs, 0)[k]; e.value == vs[k] && Digits(e.key) && Decimal(e.key) == k && (k > 0 ==> e.key[0] != 48)
  {
    BsonCodec.IndexedAt(vs, 0, k);
    ItoaIsDecimal(k);
  }

  // ------------------------------------------------------- the encoder's bytes

  lemma SignedWord32(x: Octets, i: Int32)
    requires |x| == 4
    ensures x == LE32(FromInt32(i)) <==> (Number32(x) - i) % 0x1_0000_0000 == 0
  {
    hide LE32, Number32;
    SpellsWord32(x, FromInt32(i));
  }

  lemma SignedWord64(x: Octets, i: Int64)
    requires |x| == 8
    ensures x == LE64(FromInt64(i)) <==> (Number64(x) - i) % 0x1_0000_0000_0000_0000 == 0
  {
    hide LE64, Number64;
    SpellsWord64(x, FromInt64(i));
  }

  lemma SpellsString(s: Octets, p: Octets)
    ensures Spells(Str(s), p) <==> p == EncodeValue(Str(s))
  {
    hide LE32, Number32;
    if |p| == 4 + |s| + 1 {
      SpellsWord32(p[..4], |s| + 1);
      assert p == p[..4] + p[4..4 + |s|] + [p[4 + |s|]];
    }
    var e := EncodeValue(Str(s));
    assert e[..4] == LE32(|s| + 1) && e[4..4 + |s|] == s;
    SpellsWord32(e[..4], |s| + 1);
  }

  lemma SpellsBinary(subtype: Byte, data: Octets, p: Octets)
    ensures Spells(Binary(subtype, data), p) <==> p == EncodeValue(Binary(subtype, data))
  {
    hide LE32, Number32;
    if |p| == 5 + |data| {
      SpellsWord32(p[..4], |data|);
      assert p == p[..4] + [p[4]] + p[5..];
    }
    var e := EncodeValue(Binary(subtype, data));
    assert e[..4] == LE32(|data|) && e[5..] == data;
    SpellsWord32(e[..4], |data|);
  }

  lemma SpellsTimestamp(secs: UInt32, inc: UInt32, p: Octets)
    ensures Spells(Timestamp(secs, inc), p) <==> p == EncodeValue(Timestamp(secs, inc))
  {
    hide LE32, Number32;
    if |p| == 8 {
      SpellsWord32(p[..4], inc);
      SpellsWord32(p[4..], secs);
      assert p == p[..4] + p[4..];
    }
    var e := EncodeValue(Timestamp(secs, inc));
    assert e[..4] == LE32(inc) && e[4..] == LE32(secs);
    SpellsWord32(e[..4], inc);
    SpellsWord32(e[4..], secs);
  }

  lemma SpellsFrame(p: Octets, body: Octets)
    ensures Framed(p) && p[4..|p| - 1] == body <==> p == LE32(|body| + 5) + body + [0]
  {
    hide LE32, Number32;
    var e := LE32(|body| + 5) + body + [0];
    assert e[..4] == LE32(|body| + 5) && e[4..|e| - 1] == body;
    SpellsWord32(e[..4], |body| + 5);
    if |p| >= 5 && p[4..|p| - 1] == body {
      SpellsWord32(p[..4], |p|);
      assert p == p[..4] + p[4..|p| - 1] + [p[|p| - 1]];
    }
  }

  lemma GoIntWord(n: Int64, x: Octets)
    requires |x| == 4
    ensures x == LE32(FromInt32(Truncate32(n))) <==> (Number32(x) - n) % 0x1_0000_0000 == 0
  {
    hide LE32, Number32, Truncate32;
    SignedWord32(x, Truncate32(n));
  }

  /** Exactly the encoder's bytes spell a value. */
  lemma {:induction false} SpellsIsEncode(v: Value, p: Octets)
    ensures Spells(v, p) <==> p == EncodeValue(v)
    decreases ValueSize(v), 2
  {
    hide EncodeElems, SpellsElems, LE32, LE64, Number32, Number64, IndexedFrom;
    match v
    case Double(bits) =>
      if |p| == 8 { SpellsWord64(p, bits); }
    case Str(s) => SpellsString(s, p);
    case Document(d) => SpellsDocIsEncode(d, p);
    case Array(vs) => SpellsDocIsEncode(IndexedFrom(vs, 0), p);
    case Binary(subtype, data) => SpellsBinary(subtype, data, p);
    case ObjectId(_) =>
    case Boolean(_) =>
    case DateTime(ms) =>
      if |p| == 8 { SignedWord64(p, ms); }
    case Null =>
    case I32(i) =>
      if |p| == 4 { SignedWord32(p, i); }
    case GoInt(n) =>
      if |p| == 4 { GoIntWord(n, p); }
    case Timestamp(secs, inc) => SpellsTimestamp(secs, inc, p);
    case I64(l) =>
      if |p| == 8 { SignedWord64(p, l); }
  }

  lemma {:induction false} SpellsElemIsEncode(key: Octets, v: Value, e: Octets)
    ensures SpellsElem(key, v, e) <==> e == EncodeElem(key, v)
    decreases ValueSize(v), 3
  {
    hide EncodeValue, Spells, TypeByte, Tag;
    TypeBytes(v);
    var n := |key|;
    if |e| >= n + 2 {
      SpellsIsEncode(v, e[n + 2..]);
      FourParts(e, [Tag(v)], key, EncodeValue(v));
    }
  }

  lemma TypeBytes(v: Value)
    ensures TypeByte(v) == Tag(v)
  {}

  lemma FourParts(e: Octets, t: Octets, key: Octets, payload: Octets)
    requires |t| == 1 && |e| >= |key| + 2
    ensures e == t + key + [0] + payload <==>
            && e[0] == t[0] && e[1..|key| + 1] == key && e[|key| + 1] == 0 && e[|key| + 2..] == payload
  {
    var n := |key|;
    var full := t + key + [0] + payload;
    assert full[1..n + 1] == key && full[n + 2..] == payload && full[n + 1] == 0;
    assert e == [e[0]] + e[1..n + 1] + [e[n + 1]] + e[n + 2..];
  }

  lemma {:induction false} SpellsElemsIsEncode(d: Doc, bytes: Octets)
    ensures SpellsElems(d, bytes) <==> bytes == EncodeElems(d)
    decreases DocSize(d), 0
  {
    if d != [] {
      hide SpellsElem, EncodeElem;
      var first := EncodeElem(d[0].key, d[0].value);
      ElemsAre(d);
      hide EncodeElems;
      if SpellsElems(d, bytes) {
        var cut: nat :| cut <= |bytes| && SpellsElem(d[0].key, d[0].value, bytes[..cut]) && SpellsElems(d[1..], bytes[cut..]);
        SpellsElemIsEncode(d[0].key, d[0].value, bytes[..cut]);
        SpellsElemsIsEncode(d[1..], bytes[cut..]);
        TwoParts(bytes, cut);
      }
      if bytes == EncodeElems(d) {
        var cut := |first|;
        assert bytes[..cut] == first && bytes[cut..] == EncodeElems(d[1..]);
        SpellsElemIsEncode(d[0].key, d[0].value, bytes[..cut]);
        SpellsElemsIsEncode(d[1..], bytes[cut..]);
      }
    }
  }

  lemma ElemsAre(d: Doc)
    requires d != []
    ensures EncodeElems(d) == EncodeElem(d[0].key, d[0].value) + EncodeElems(d[1..])
  {
    hide EncodeValue;
  }

  /** The encoder writes, for every document, exactly the bytes the specification spells. */
  lemma {:induction false} SpellsDocIsEncode(d: Doc, p: Octets)
    ensures SpellsDoc(d, p) <==> p == EncodeDoc(d)
    decreases DocSize(d), 1
  {
    hide EncodeElems, SpellsElems, LE32, Framed;
    SpellsFrame(p, EncodeElems(d));
    if |p| >= 5 {
      SpellsElemsIsEncode(d, p[4..|p| - 1]);
    } else {
      FramedIsLong(p);
    }
  }

  lemma FramedIsLong(p: Octets)
    ensures Framed(p) ==> |p| >= 5
  {}

  /** The decoder reads the specification's bytes of every document, whatever follows them. */
  lemma DecodesSpelled(d: Doc, p: Octets, suffix: Octets)
    requires GoodDoc(d) && SpellsDoc(d, p) && |p| < LIMIT
    ensures ParseDoc(p + suffix) == Some((NormDoc(d), |p|))
  {
    SpellsDocIsEncode(d, p);
    RoundTripDoc(d, suffix);
  }

  // ------------------------------------------------------- the decoder's bytes

  /** A word read as a signed number. */
  function Signed32(x: Octets): int
    requires |x| == 4
  {
    if x[3] < 0x80 then Number32(x) else Number32(x) - 0x1_0000_0000
  }

  function Signed64(x: Octets): int
    requires |x| == 8
  {
    if x[7] < 0x80 then Number64(x) else Number64(x) - 0x1_0000_0000_0000_0000
  }

  lemma SignedAt(b: Octets, pos: nat)
    ensures pos + 4 <= |b| ==> UInt32At(b[pos..]) == Number32(b[pos..pos + 4])
    ensures pos + 4 <= |b| ==> ToInt32(UInt32At(b[pos..])) == Signed32(b[pos..pos + 4])
    ensures pos + 8 <= |b| ==> UInt64At(b[pos..]) == Number64(b[pos..pos + 8])
    ensures pos + 8 <= |b| ==> ToInt64(UInt64At(b[pos..])) == Signed64(b[pos..pos + 8])
  {
    hide UInt32At, UInt64At;
    if pos + 4 <= |b| {
      WordAtStart(b[pos..]);
      SliceOfTail(b, pos, 0, 4);
    }
    if pos + 8 <= |b| {
      SliceOfTail(b, pos, 0, 8);
    }
  }

  /** Every fixed-width tag, on every buffer: what it reads, or that it fails for want of bytes. */
  lemma ReadsFixedWidth(b: Octets, pos: nat)
    requires 1 <= pos <= |b|
    ensures ParseValue(0x01, b, pos) == if pos + 8 > |b| then None else Some((Double(Number64(b[pos..pos + 8])), pos + 8))
    ensures ParseValue(0x07, b, pos) == if pos + 12 > |b| then None else Some((ObjectId(b[pos..pos + 12]), pos + 12))
    ensures ParseValue(0x08, b, pos) == if pos + 1 > |b| then None else Some((Boolean(b[pos] != 0), pos + 1))
    ensures ParseValue(0x09, b, pos) == if pos + 8 > |b| then None else Some((DateTime(Signed64(b[pos..pos + 8])), pos + 8))
    ensures ParseValue(0x0A, b, pos) == Some((Null, pos))
    ensures ParseValue(0x10, b, pos) == if pos + 4 > |b| then None else Some((I32(Signed32(b[pos..pos + 4])), pos + 4))
    ensures ParseValue(0x11, b, pos) == if pos + 8 > |b| then None else
                                          Some((Timestamp(Number32(b[pos + 4..pos + 8]), Number32(b[pos..pos + 4])), pos + 8))
    ensures ParseValue(0x12, b, pos) == if pos + 8 > |b| then None else Some((I64(Signed64(b[pos..pos + 8])), pos + 8))
  {
    hide UInt32At, UInt64At, Number32, Number64, Signed32, Signed64;
    SignedAt(b, pos);
    if pos + 8 <= |b| {
      SignedAt(b, pos + 4);
    }
  }

  /** Strings and binaries, whose length word must fit; nothing else is supported. */
  lemma ReadsCounted(b: Octets, pos: nat, t: Byte)
    requires 1 <= pos <= |b|
    ensures ParseValue(0x02, b, pos) ==
            if pos + 4 > |b| then None else
              var n := Signed32(b[pos..pos + 4]);
              if n < 1 || pos + 4 + n > |b| || b[pos + 3 + n] != 0 then None
              else Some((Str(b[pos + 4..pos + 3 + n]), pos + 4 + n))
    ensures ParseValue(0x05, b, pos) ==
            if pos + 5 > |b| then None else
              var n := Signed32(b[pos..pos + 4]);
              if n < 0 || pos + 5 + n > |b| then None else Some((Binary(b[pos + 4], b[pos + 5..pos + 5 + n]), pos + 5 + n))
    ensures t !in {0x01, 0x02, 0x03, 0x04, 0x05, 0x07, 0x08, 0x09, 0x0A, 0x10, 0x11, 0x12} ==> ParseValue(t, b, pos).None?
  {
    hide UInt32At, UInt64At, Number32, Number64, Signed32, Signed64;
    SignedAt(b, pos);
  }

  /** Nested documents, and arrays as the values of one; a document needs its length word, at least 5 and within bounds. */
  lemma ReadsNested(b: Octets, pos: nat)
    requires 1 <= pos <= |b|
    ensures ParseValue(0x03, b, pos) == match ParseDoc(b[pos..])
                                        case None => None
                                        case Some((d, n)) => Some((Document(d), pos + n))
    ensures ParseValue(0x04, b, pos) == match ParseDoc(b[pos..])
                                        case None => None
                                        case Some((d, n)) => Some((Array(Values(d)), pos + n))
    ensures ParseDoc(b).Some? ==> |b| >= 5 && ParseDoc(b).value.1 == Signed32(b[0..4])
  {
    hide UInt32At, UInt64At, Number32, Number64, Signed32, Signed64, ParseElems;
    SignedAt(b, 0);
    assert b[0..] == b;
  }

  /** The values of a decoded array, in the document's order. */
  lemma {:induction false} ValuesInOrder(d: Doc, i: nat)
    requires i < |d|
    ensures Values(d)[i] == d[i].value
  {
    if i > 0 {
      ValuesInOrder(d[1..], i - 1);
    }
  }
}
