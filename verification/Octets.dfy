/** Bytes, byte strings and the fixed-width integer encodings every codec of the proxy uses. */
module Octets {

  type Byte = b: int | 0 <= b < 256

  /** Go's `[]byte` and `string` are both modelled as byte sequences. */
  type Octets = seq<Byte>

  type UInt32 = x: int | 0 <= x < 0x1_0000_0000
  type Int32 = x: int | -0x8000_0000 <= x < 0x8000_0000
  type UInt64 = x: int | 0 <= x < 0x1_0000_0000_0000_0000
  type Int64 = x: int | -0x8000_0000_0000_0000 <= x < 0x8000_0000_0000_0000

  datatype Option<+T> = None | Some(value: T) {
    predicate IsFailure() { None? }
    function PropagateFailure<U>(): Option<U> requires None? { None }
    function Extract(): T requires Some? { value }
  }

  // ---------------------------------------------------------------- integers

  function Pow256(k: nat): (p: nat)
    ensures p >= 1
  {
    if k == 0 then 1 else 256 * Pow256(k - 1)
  }

  /** The low `k` bytes of `n`, least significant first (truncating like Go's uintN conversions). */
  function LE(n: nat, k: nat): (bs: Octets)
    ensures |bs| == k
  {
    if k == 0 then [] else [n % 256] + LE(n / 256, k - 1)
  }

  function FromLE(bs: Octets): nat
  {
    if bs == [] then 0 else bs[0] + 256 * FromLE(bs[1..])
  }

  lemma {:induction false} DecodeEncodeLE(n: nat, k: nat)
    requires n < Pow256(k)
    ensures FromLE(LE(n, k)) == n
  {
    if k > 0 {
      DecodeEncodeLE(n / 256, k - 1);
      assert LE(n, k)[1..] == LE(n / 256, k - 1);
    }
  }

  lemma {:induction false} EncodeDecodeLE(bs: Octets)
    ensures FromLE(bs) < Pow256(|bs|)
    ensures LE(FromLE(bs), |bs|) == bs
  {
    if bs != [] {
      EncodeDecodeLE(bs[1..]);
      var n := FromLE(bs);
      assert n / 256 == FromLE(bs[1..]) && n % 256 == bs[0];
      assert bs == [bs[0]] + bs[1..];
    }
  }

  lemma Powers()
    ensures Pow256(1) == 0x100
    ensures Pow256(2) == 0x1_0000
    ensures Pow256(3) == 0x100_0000
    ensures Pow256(4) == 0x1_0000_0000
    ensures Pow256(8) == 0x1_0000_0000_0000_0000
  {
    assert Pow256(2) == 256 * Pow256(1);
    assert Pow256(3) == 256 * Pow256(2);
    assert Pow256(4) == 256 * Pow256(3);
    assert Pow256(5) == 256 * Pow256(4);
    assert Pow256(6) == 256 * Pow256(5);
    assert Pow256(7) == 256 * Pow256(6);
  }

  /** Two's-complement reading of a 32-bit word, Go's `int32(u)`. */
  function ToInt32(u: UInt32): (i: Int32)
  {
    if u < 0x8000_0000 then u else u - 0x1_0000_0000
  }

  function FromInt32(i: Int32): (u: UInt32)
    ensures ToInt32(u) == i
  {
    if i >= 0 then i else i + 0x1_0000_0000
  }

  function ToInt64(u: UInt64): (i: Int64)
  {
    if u < 0x8000_0000_0000_0000 then u else u - 0x1_0000_0000_0000_0000
  }

  function FromInt64(i: Int64): (u: UInt64)
    ensures ToInt64(u) == i
  {
    if i >= 0 then i else i + 0x1_0000_0000_0000_0000
  }

  function LE32(n: nat): (bs: Octets)
    ensures |bs| == 4
  {
    LE(n, 4)
  }

  function LE64(n: nat): (bs: Octets)
    ensures |bs| == 8
  {
    LE(n, 8)
  }

  /** The little-endian 32-bit word at the start of `bs`. */
  function UInt32At(bs: Octets): (u: UInt32)
    requires |bs| >= 4
  {
    Powers();
    EncodeDecodeLE(bs[..4]);
    FromLE(bs[..4])
  }

  function UInt64At(bs: Octets): (u: UInt64)
    requires |bs| >= 8
  {
    Powers();
    EncodeDecodeLE(bs[..8]);
    FromLE(bs[..8])
  }

  /** Reading a word back: the first four bytes of `LE32(n) + rest` spell `n`. */
  lemma ReadBack32(n: UInt32, rest: Octets)
    ensures UInt32At(LE32(n) + rest) == n
  {
    Powers();
    DecodeEncodeLE(n, 4);
    assert (LE32(n) + rest)[..4] == LE32(n);
  }

  lemma ReadBack64(n: UInt64, rest: Octets)
    ensures UInt64At(LE64(n) + rest) == n
  {
    Powers();
    DecodeEncodeLE(n, 8);
    assert (LE64(n) + rest)[..8] == LE64(n);
  }

  lemma WriteBack32(bs: Octets)
    requires |bs| >= 4
    ensures LE32(UInt32At(bs)) == bs[..4]
  {
    EncodeDecodeLE(bs[..4]);
  }

  // --------------------------------------------------- what the words spell

  lemma {:induction false} MulGap(m: nat, a: nat, b: nat)
    requires a < b
    ensures m * b >= m * a + m
    decreases b
  {
    if a + 1 < b {
      MulGap(m, a, b - 1);
      assert m * b == m * (b - 1) + m;
    }
  }

  lemma DivUnique(n: nat, d: nat, q: nat, r: nat)
    requires r < d && n == d * q + r
    ensures n / d == q
  {
    var p := n / d;
    assert n == d * p + n % d;
    if p < q {
      MulGap(d, p, q);
    } else if q < p {
      MulGap(d, q, p);
    }
  }

  lemma DivDiv(n: nat, b: nat)
    requires b >= 1
    ensures n / 256 / b == n / (256 * b)
  {
    var m := n / 256;
    var q, r := m / b, m % b;
    assert m == b * q + r;
    assert n == (256 * b) * q + (256 * r + n % 256);
    DivUnique(n, 256 * b, q, 256 * r + n % 256);
  }

  /** Byte `i` of a little-endian word is the `i`-th digit to the base 256. */
  lemma {:induction false} ByteOfLE(n: nat, k: nat, i: nat)
    requires i < k
    ensures LE(n, k)[i] == n / Pow256(i) % 256
  {
    if i > 0 {
      ByteOfLE(n / 256, k - 1, i - 1);
      DivDiv(n, Pow256(i - 1));
    }
  }

  lemma ThreeBytes(n: nat)
    ensures LE(n, 3) == [n % 256, n / 256 % 256, n / 0x1_0000 % 256]
  {
    Powers();
    ByteOfLE(n, 3, 0);
    ByteOfLE(n, 3, 1);
    ByteOfLE(n, 3, 2);
  }

  /** Two, four and eight bytes as numbers, the weights written out. */
  function Number16(x: Octets): nat
    requires |x| == 2
  {
    var a: int, b: int := x[0], x[1];
    a + 0x100 * b
  }

  function Number32(x: Octets): (n: nat)
    requires |x| == 4
    ensures n < 0x1_0000_0000
  {
    var a: int, b: int, c: int, d: int := x[0], x[1], x[2], x[3];
    a + 0x100 * b + 0x1_0000 * c + 0x100_0000 * d
  }

  function Number64(x: Octets): (n: nat)
    requires |x| == 8
    ensures n < 0x1_0000_0000_0000_0000
  {
    Number32(x[..4]) + 0x1_0000_0000 * Number32(x[4..])
  }

  lemma FromLE32(x: Octets)
    requires |x| == 4
    ensures FromLE(x) == Number32(x)
  {
    assert x[1..][1..] == x[2..] && x[2..][1..] == x[3..] && x[3..][1..] == [];
    assert FromLE(x[3..]) == x[3];
    assert FromLE(x[2..]) == x[2] + 256 * FromLE(x[3..]);
  }

  lemma {:induction false} FromLEConcat(a: Octets, b: Octets)
    ensures FromLE(a + b) == FromLE(a) + Pow256(|a|) * FromLE(b)
  {
    if a == [] {
      assert a + b == b;
    } else {
      assert (a + b)[1..] == a[1..] + b;
      FromLEConcat(a[1..], b);
      Scale(FromLE(a[1..]), Pow256(|a| - 1), FromLE(b));
    }
  }

  lemma Scale(x: nat, p: nat, y: nat)
    ensures 256 * (x + p * y) == 256 * x + 256 * p * y
  {}

  lemma FromLE64(x: Octets)
    requires |x| == 8
    ensures FromLE(x) == Number64(x)
  {
    assert x == x[..4] + x[4..];
    FromLEConcat(x[..4], x[4..]);
    FromLE32(x[..4]);
    FromLE32(x[4..]);
    Powers();
  }

  /** Four bytes are the word of `n` exactly when they spell `n` modulo 2^32; likewise eight. */
  lemma SpellsWord32(x: Octets, n: nat)
    requires |x| == 4
    ensures x == LE32(n) <==> Number32(x) == n % 0x1_0000_0000
  {
    LowWord(n, 4);
    Powers();
    FromLE32(LE32(n));
    FromLE32(x);
    EncodeDecodeLE(x);
    EncodeDecodeLE(LE32(n));
  }

  lemma SpellsWord64(x: Octets, n: nat)
    requires |x| == 8
    ensures x == LE64(n) <==> Number64(x) == n % 0x1_0000_0000_0000_0000
  {
    LowWord(n, 8);
    Powers();
    FromLE64(LE64(n));
    FromLE64(x);
    EncodeDecodeLE(x);
    EncodeDecodeLE(LE64(n));
  }

  lemma {:induction false} LowWord(n: nat, k: nat)
    ensures FromLE(LE(n, k)) == n % Pow256(k)
  {
    if k > 0 {
      LowWord(n / 256, k - 1);
      assert LE(n, k)[1..] == LE(n / 256, k - 1);
      ModSplit(n, Pow256(k - 1));
    }
  }

  lemma ModSplit(n: nat, b: nat)
    requires b >= 1
    ensures n % 256 + 256 * (n / 256 % b) == n % (256 * b)
  {
    var m := n / 256;
    var q, r := m / b, m % b;
    assert m == b * q + r;
    assert n == (256 * b) * q + (256 * r + n % 256);
    DivUnique(n, 256 * b, q, 256 * r + n % 256);
  }

  lemma WordAtStart(b: Octets)
    ensures |b| >= 4 ==> UInt32At(b) == Number32(b[..4])
    ensures |b| >= 8 ==> UInt64At(b) == Number64(b[..8])
  {
    if |b| >= 4 {
      FromLE32(b[..4]);
    }
    if |b| >= 8 {
      FromLE64(b[..8]);
    }
  }

  /** ASCII text as bytes (any other character becomes a question mark). */
  function Ascii(s: string): (b: Octets)
    ensures |b| == |s|
  {
    seq(|s|, i requires 0 <= i < |s| => if s[i] < 128 as char then s[i] as int else 0x3F)
  }

  // ------------------------------------------------------------- big endian

  function BE32(n: UInt32): (bs: Octets)
    ensures |bs| == 4
  {
    var high, mid, low := n / 0x1_0000 / 256, n / 0x1_0000 % 256, n % 0x1_0000;
    [high, mid, low / 256, low % 256]
  }

  function FromBE32(bs: Octets): (n: UInt32)
    requires |bs| >= 4
  {
    var a: int, b: int, c: int, d: int := bs[0], bs[1], bs[2], bs[3];
    a * 0x100_0000 + b * 0x1_0000 + c * 0x100 + d
  }

  lemma BigEndianRoundTrip(n: UInt32, rest: Octets)
    ensures FromBE32(BE32(n) + rest) == n
  {
    var word := BE32(n);
    var bs := word + rest;
    assert bs[0] == word[0] && bs[1] == word[1] && bs[2] == word[2] && bs[3] == word[3];
  }

  /** A big-endian word is the little-endian one backwards. */
  lemma BigEndianBytes(n: UInt32)
    ensures var w := BE32(n); Number32([w[3], w[2], w[1], w[0]]) == n
  {
    BigEndianRoundTrip(n, []);
    assert BE32(n) + [] == BE32(n);
  }

  // ------------------------------------------------------------------ slices

  lemma SliceOfTail(b: Octets, pos: nat, i: nat, j: nat)
    requires i <= j && pos + j <= |b|
    ensures b[pos..][i..j] == b[pos + i..pos + j]
  {}

  lemma TailOfTail(b: Octets, pos: nat, i: nat)
    requires pos + i <= |b|
    ensures b[pos..][i..] == b[pos + i..]
  {}

  lemma TwoParts(b: Octets, i: nat)
    requires i <= |b|
    ensures b == b[..i] + b[i..]
  {}

  lemma ThreeParts(b: Octets, i: nat, j: nat)
    requires i <= j <= |b|
    ensures b == b[..i] + b[i..j] + b[j..]
  {}

  lemma Regroup(a: Octets, b: Octets, c: Octets, d: Octets)
    ensures a + b + c + d == a + (b + (c + d))
  {}

  /** A field at `pos`, and what follows it. */
  lemma Peel(b: Octets, pos: nat, head: Octets, tail: Octets)
    requires pos <= |b| && b[pos..] == head + tail
    ensures |b| == pos + |head| + |tail|
    ensures b[pos..pos + |head|] == head && b[pos + |head|..] == tail
    ensures head != [] ==> b[pos] == head[0]
  {
    SliceOfTail(b, pos, 0, |head|);
    TailOfTail(b, pos, |head|);
    assert (head + tail)[..|head|] == head && (head + tail)[|head|..] == tail;
    assert head != [] ==> b[pos..][0] == head[0];
  }

  // ------------------------------------------------------------ byte search

  predicate Free(bs: Octets, c: Byte) {
    c !in bs
  }

  predicate NulFree(bs: Octets) {
    Free(bs, 0)
  }

  /** Index of the first `c` in `b` at or after `from`. */
  function FindByte(b: Octets, from: nat, c: Byte): (r: Option<nat>)
    ensures r.Some? ==> from <= r.value < |b| && b[r.value] == c && c !in b[from..r.value]
    ensures r.None? ==> forall i :: from <= i < |b| ==> b[i] != c
    decreases |b| - from
  {
    if from >= |b| then None
    else if b[from] == c then Some(from)
    else
      var r := FindByte(b, from + 1, c);
      assert r.Some? ==> b[from..r.value] == [b[from]] + b[from + 1..r.value];
      r
  }

  /** The scanning loop shared by readCString, readNulString and indexByte. */
  method IndexByte(b: Octets, from: nat, c: Byte) returns (r: Option<nat>)
    ensures r == FindByte(b, from, c)
  {
    var i := from;
    while i < |b|
      invariant from <= i
      invariant FindByte(b, from, c) == FindByte(b, i, c)
    {
      if b[i] == c {
        return Some(i);
      }
      i := i + 1;
    }
    r := None;
  }

  /** A `c`-free run followed by `c` is found exactly where it ends. */
  lemma {:induction false} FindTerminator(b: Octets, from: nat, s: Octets, c: Byte)
    requires from + |s| < |b|
    requires b[from..from + |s|] == s && Free(s, c)
    requires b[from + |s|] == c
    ensures FindByte(b, from, c) == Some(from + |s|)
    decreases |s|
  {
    if s != [] {
      assert b[from] == s[0];
      assert b[from + 1..from + |s|] == s[1..];
      FindTerminator(b, from + 1, s[1..], c);
    }
  }

  /** readCString / readNulString: the string at `pos` and the position after its NUL. */
  function ReadCString(b: Octets, pos: nat): (r: Option<(Octets, nat)>)
    ensures r.Some? ==>
              && pos < r.value.1 <= |b|
              && NulFree(r.value.0)
              && b[pos..r.value.1] == r.value.0 + [0]
  {
    match FindByte(b, pos, 0)
    case None => None
    case Some(i) => Some((b[pos..i], i + 1))
  }

  lemma ReadCStringAt(b: Octets, pos: nat, s: Octets)
    requires NulFree(s) && pos + |s| < |b|
    requires b[pos..pos + |s| + 1] == s + [0]
    ensures ReadCString(b, pos) == Some((s, pos + |s| + 1))
  {
    assert b[pos..pos + |s|] == b[pos..pos + |s| + 1][..|s|] == s;
    assert b[pos + |s|] == b[pos..pos + |s| + 1][|s|];
    FindTerminator(b, pos, s, 0);
  }
}
