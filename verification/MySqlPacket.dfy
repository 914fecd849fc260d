/** MySQL packet framing: 3-byte length, sequence id, and the splitting of large payloads. */
module MySqlPacket {
  import opened Octets

  /** The protocol's largest payload. The framing is modelled for every maximum up to it. */
  const MAX_PACKET_PAYLOAD := 0xFF_FFFF

  type Max = m: nat | 1 <= m <= MAX_PACKET_PAYLOAD witness MAX_PACKET_PAYLOAD

  function Next(id: Byte): Byte {
    (id + 1) % 256
  }

  function FrameHeader(n: nat, id: Byte): (h: Octets)
    ensures |h| == 4
  {
    LE(n, 3) + [id]
  }

  /** The bytes of a payload: maximal frames, then one shorter (possibly empty) frame. */
  function Frames(max: Max, id: Byte, payload: Octets): (out: Octets)
    ensures |out| >= 4
    decreases |payload|
  {
    if |payload| < max then FrameHeader(|payload|, id) + payload
    else FrameHeader(max, id) + payload[..max] + Frames(max, Next(id), payload[max..])
  }

  datatype Packet = Packet(id: Byte, payload: Octets, rest: Octets)

  function Prefixed(chunk: Octets, r: Option<Packet>): Option<Packet> {
    match r
    case None => None
    case Some(p) => Some(p.(payload := chunk + p.payload))
  }

  function Length(stream: Octets): (n: nat)
    requires |stream| >= 4
    ensures n < 0x100_0000
  {
    Powers();
    EncodeDecodeLE(stream[..3]);
    FromLE(stream[..3])
  }

  /** ReadPacket on a byte stream: the last frame's id, the reassembled payload, the bytes behind it. */
  function Read(max: Max, stream: Octets): (r: Option<Packet>)
    decreases |stream|
  {
    if |stream| < 4 then None else
      var n := Length(stream);
      if 4 + n > |stream| then None
      else if n < max then Some(Packet(stream[3], stream[4..4 + n], stream[4 + n..]))
      else Prefixed(stream[4..4 + n], Read(max, stream[4 + n..]))
  }

  /** How many maximal frames precede the last one. */
  function FullFrames(max: Max, n: nat): nat
    decreases n
  {
    if n < max then 0 else 1 + FullFrames(max, n - max)
  }

  lemma {:induction false} FullFramesRemainder(max: Max, n: nat) returns (r: nat)
    ensures r < max && n == max * FullFrames(max, n) + r
    decreases n
  {
    if n < max {
      r := n;
      assert max * 0 == 0;
    } else {
      r := FullFramesRemainder(max, n - max);
      var q := FullFrames(max, n - max);
      assert max * (1 + q) == max + max * q;
    }
  }

  lemma FullFramesIsQuotient(max: Max, n: nat)
    ensures FullFrames(max, n) == n / max
  {
    var r := FullFramesRemainder(max, n);
    DivUnique(n, max, FullFrames(max, n), r);
  }

  function Advance(id: Byte, k: nat): Byte {
    (id + k) % 256
  }

  lemma AdvanceZero(id: Byte)
    ensures Advance(id, 0) == id
  {
  }

  lemma AdvanceNext(id: Byte, q: nat)
    ensures Advance(id, 1 + q) == Advance(Next(id), q)
  {
  }

  lemma ReadOneFrame(max: Max, id: Byte, chunk: Octets, tail: Octets)
    requires |chunk| <= max
    ensures var s := FrameHeader(|chunk|, id) + chunk + tail;
            Read(max, s) == if |chunk| < max then Some(Packet(id, chunk, tail))
                            else Prefixed(chunk, Read(max, tail))
  {
    var n := |chunk|;
    var s := FrameHeader(n, id) + chunk + tail;
    Powers();
    DecodeEncodeLE(n, 3);
    assert s[..3] == LE(n, 3) && s[3] == id;
    assert s[4..4 + n] == chunk && s[4 + n..] == tail;
  }

  /** Reassembly undoes splitting for every payload, exact multiples of the maximum included. */
  lemma {:induction false} ReadWritten(max: Max, id: Byte, payload: Octets, rest: Octets)
    ensures Read(max, Frames(max, id, payload) + rest)
         == Some(Packet(Advance(id, FullFrames(max, |payload|)), payload, rest))
    decreases |payload|
  {
    hide Read, FrameHeader, Next, Advance;
    var s := Frames(max, id, payload) + rest;
    AdvanceZero(id);
    if |payload| < max {
      ReadOneFrame(max, id, payload, rest);
    } else {
      var chunk, more := payload[..max], payload[max..];
      var tail := Frames(max, Next(id), more) + rest;
      assert s == FrameHeader(max, id) + chunk + tail;
      ReadOneFrame(max, id, chunk, tail);
      ReadWritten(max, Next(id), more, rest);
      AdvanceNext(id, FullFrames(max, |more|));
      assert chunk + more == payload;
    }
  }

  /** The sequence id read is the starting id plus the quotient, modulo 256. */
  lemma ReadWrittenId(max: Max, id: Byte, payload: Octets, rest: Octets)
    ensures Read(max, Frames(max, id, payload) + rest)
         == Some(Packet((id + |payload| / max) % 256, payload, rest))
  {
    hide Read, Frames, FullFrames;
    ReadWritten(max, id, payload, rest);
    FullFramesIsQuotient(max, |payload|);
  }

  /** Whatever is read, the bytes consumed are the payload's plus one header per frame. */
  lemma {:induction false} ReadConsumes(max: Max, stream: Octets)
    requires Read(max, stream).Some?
    requires max == MAX_PACKET_PAYLOAD
    ensures var p := Read(max, stream).value;
            && |stream| == |p.payload| + 4 * (FullFrames(max, |p.payload|) + 1) + |p.rest|
            && p.rest == stream[|stream| - |p.rest|..]
    decreases |stream|
  {
    var n := Length(stream);
    if n >= max {
      ReadConsumes(max, stream[4 + n..]);
      var p, q := Read(max, stream).value, Read(max, stream[4 + n..]).value;
      assert |p.payload| == max + |q.payload|;
    }
  }

  /** A packet cut short anywhere is an error, never a shorter packet. */
  lemma {:induction false} TruncatedFails(max: Max, id: Byte, payload: Octets, k: nat)
    requires k < |Frames(max, id, payload)|
    ensures Read(max, Frames(max, id, payload)[..k]).None?
    decreases |payload|
  {
    var out := Frames(max, id, payload);
    var s := out[..k];
    if k >= 4 {
      var n := if |payload| < max then |payload| else max;
      var chunk := payload[..n];
      Powers();
      DecodeEncodeLE(n, 3);
      assert s[..3] == LE(n, 3);
      if n == max && k >= 4 + n {
        var tail := Frames(max, Next(id), payload[max..]);
        assert out == FrameHeader(max, id) + chunk + tail;
        assert s[4 + n..] == tail[..k - 4 - n];
        TruncatedFails(max, Next(id), payload[max..], k - 4 - n);
      }
    }
  }

  // -------------------------------------------------------------- the loops

  /** WritePacket: frames appended to the stream, and the next sequence id to use. */
  method WritePacket(max: Max, w: Octets, id: Byte, payload: Octets) returns (out: Octets, next: Byte)
    ensures out == w + Frames(max, id, payload)
    ensures next == Next((id + |payload| / max) % 256)
  {
    hide FrameHeader, Next;
    out, next := w, id;
    var left := payload;
    FullFramesIsQuotient(max, |payload|);
    ghost var last := Advance(id, FullFrames(max, |payload|));
    while true
      invariant out + Frames(max, next, left) == w + Frames(max, id, payload)
      invariant Advance(next, FullFrames(max, |left|)) == last
      decreases |left|
    {
      var n := if |left| > max then max else |left|;
      WriteStep(max, next, left, n, out);
      out := out + FrameHeader(n, next);
      out := out + left[..n];
      next := Next(next);
      left := left[n..];
      if n < max {
        return;
      }
      if |left| == 0 {
        WriteStep(max, next, left, 0, out);
        out := out + FrameHeader(0, next);
        next := Next(next);
        return;
      }
    }
  }

  /** One turn of the write loop. */
  lemma WriteStep(max: Max, id: Byte, left: Octets, n: nat, out: Octets)
    requires n == if |left| > max then max else |left|
    ensures var now := out + FrameHeader(n, id) + left[..n];
            && (n < max ==> out + Frames(max, id, left) == now && Advance(id, FullFrames(max, |left|)) == id)
            && (n < max && n == 0 ==> out + Frames(max, id, left) == out + FrameHeader(0, id))
            && (n == max ==>
                  && out + Frames(max, id, left) == now + Frames(max, Next(id), left[n..])
                  && Advance(id, FullFrames(max, |left|)) == Advance(Next(id), FullFrames(max, |left[n..]|)))
  {
    hide FrameHeader, Next, Advance;
    AdvanceZero(id);
    if n < max {
      assert left[..n] == left;
      assert out + (FrameHeader(n, id) + left) == out + FrameHeader(n, id) + left;
    } else {
      AdvanceNext(id, FullFrames(max, |left| - max));
      var h, more := FrameHeader(max, id), Frames(max, Next(id), left[max..]);
      assert out + (h + left[..max] + more) == out + h + left[..max] + more;
    }
  }

  /** ReadPacket: header, chunk, and another frame while the chunk is maximal. */
  method ReadPacket(max: Max, stream: Octets) returns (r: Option<Packet>)
    ensures r == Read(max, stream)
  {
    hide Length;
    var s := stream;
    var payload: Octets := [];
    assert Prefixed([], Read(max, stream)) == Read(max, stream) by { PrefixedNothing(Read(max, stream)); }
    while true
      invariant Prefixed(payload, Read(max, s)) == Read(max, stream)
      decreases |s|
    {
      if |s| < 4 {
        return None;
      }
      var length := Length(s);
      var id := s[3];
      if 4 + length > |s| {
        return None;
      }
      var chunk := s[4..4 + length];
      var rest := s[4 + length..];
      PrefixedTwice(payload, chunk, Read(max, rest));
      payload := payload + chunk;
      if length < max {
        return Some(Packet(id, payload, rest));
      }
      s := rest;
    }
  }

  lemma PrefixedNothing(r: Option<Packet>)
    ensures Prefixed([], r) == r
  {
    if r.Some? {
      assert [] + r.value.payload == r.value.payload;
    }
  }

  lemma PrefixedTwice(a: Octets, b: Octets, r: Option<Packet>)
    ensures Prefixed(a, Prefixed(b, r)) == Prefixed(a + b, r)
  {
    if r.Some? {
      assert a + (b + r.value.payload) == a + b + r.value.payload;
    }
  }

  /** The four header bytes: the length, least significant byte first, and the id. */
  lemma HeaderLayout(n: nat, id: Byte)
    ensures FrameHeader(n, id) == [n % 256, n / 256 % 256, n / 0x1_0000 % 256, id]
  {
    ThreeBytes(n);
  }
}
