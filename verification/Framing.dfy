// The wire format of a message: a two-byte little-endian length followed by the payload.
// Encode is what Session::SendMsg appends, Frames and Rest are what the loop of
// Session::ExtractMsg makes of a byte stream when every allocation succeeds.
module Framing {

  type Byte = x: int | 0 <= x < 256

  type Payload = seq<Byte>

  const HEADER_SIZE := 2
  const SHORT_MAX := 32767

  /** The low sixteen bits of a size_t, as memcpy takes them from a little-endian host. */
  function HeaderBytes(size: nat): (h: seq<Byte>)
    ensures |h| == HEADER_SIZE
  {
    [size % 256, (size / 256) % 256]
  }

  /** The signed short stored in the first two bytes. */
  function Header(s: seq<Byte>): (h: int)
    requires |s| >= HEADER_SIZE
    ensures -SHORT_MAX - 1 <= h <= SHORT_MAX
  {
    var raw := (s[0] as int) + 256 * (s[1] as int);
    if raw <= SHORT_MAX then raw else raw - 65536
  }

  function Encode(p: Payload): seq<Byte> {
    HeaderBytes(|p|) + p
  }

  function EncodeAll(ps: seq<Payload>): seq<Byte> {
    if ps == [] then [] else Encode(ps[0]) + EncodeAll(ps[1..])
  }

  /** The payload sizes the header and the allocator can represent. */
  predicate Sendable(p: Payload) {
    1 <= |p| <= SHORT_MAX
  }

  predicate AllSendable(ps: seq<Payload>) {
    forall i | 0 <= i < |ps| :: Sendable(ps[i])
  }

  predicate HasFrame(s: seq<Byte>) {
    |s| >= HEADER_SIZE && 0 < Header(s) <= |s| - HEADER_SIZE
  }

  function FirstFrame(s: seq<Byte>): (p: Payload)
    requires HasFrame(s)
    ensures Sendable(p)
  {
    s[HEADER_SIZE..HEADER_SIZE + Header(s)]
  }

  function AfterFrame(s: seq<Byte>): (t: seq<Byte>)
    requires HasFrame(s)
    ensures |t| < |s|
  {
    s[HEADER_SIZE + Header(s)..]
  }

  lemma FrameExtent(s: seq<Byte>)
    requires HasFrame(s)
    ensures HEADER_SIZE + |FirstFrame(s)| <= |s|
    ensures AfterFrame(s) == s[HEADER_SIZE + |FirstFrame(s)|..]
  {
  }

  function Frames(s: seq<Byte>): (fs: seq<Payload>)
    ensures AllSendable(fs)
    decreases |s|
  {
    if HasFrame(s) then [FirstFrame(s)] + Frames(AfterFrame(s)) else []
  }

  function Rest(s: seq<Byte>): (r: seq<Byte>)
    ensures !HasFrame(r)
    decreases |s|
  {
    if HasFrame(s) then Rest(AfterFrame(s)) else s
  }

  /** A stream in which the loop of ExtractMsg never meets a frame of length zero. */
  predicate ZeroFree(s: seq<Byte>) {
    var r := Rest(s);
    |r| >= HEADER_SIZE ==> Header(r) != 0
  }

  // ------------------------------------------------------------------ one frame

  lemma HeaderRoundTrip(n: nat, s: seq<Byte>)
    requires n <= SHORT_MAX
    ensures Header(HeaderBytes(n) + s) == n
  {
    assert n / 256 % 256 == n / 256;
  }

  /** The length as it stands on the wire: low byte first, and negative from 32768 on. */
  lemma {:induction false} HeaderOnTheWire(p: Payload, low: Byte, high: Byte, s: seq<Byte>)
    ensures |Encode(p)| == |p| + 2 && Encode(p)[2..] == p
    ensures |p| < 65536 ==> Encode(p)[0] as int + 256 * Encode(p)[1] as int == |p|
    ensures Header([low, high] + s) == low + 256 * high - if high < 128 then 0 else 65536
  {
    assert ([low, high] + s)[0] == low && ([low, high] + s)[1] == high;
  }

  lemma DecodeEncoded(p: Payload, s: seq<Byte>)
    requires Sendable(p)
    ensures HasFrame(Encode(p) + s)
    ensures FirstFrame(Encode(p) + s) == p
    ensures AfterFrame(Encode(p) + s) == s
    ensures Frames(Encode(p) + s) == [p] + Frames(s)
    ensures Rest(Encode(p) + s) == Rest(s)
  {
    assert Encode(p) + s == HeaderBytes(|p|) + (p + s);
    HeaderRoundTrip(|p|, p + s);
    assert FirstFrame(Encode(p) + s) == p;
    assert AfterFrame(Encode(p) + s) == s;
  }

  /** Exactly the payloads of 1 to 32767 bytes come back from the stream as they went in. */
  lemma FrameRoundTripIff(p: Payload)
    ensures (Frames(Encode(p)) == [p] && Rest(Encode(p)) == []) <==> 1 <= |p| <= 32767
  {
    if Sendable(p) {
      assert Encode(p) + [] == Encode(p);
      DecodeEncoded(p, []);
    } else {
      assert !AllSendable([p]) by {
        assert !Sendable([p][0]);
      }
    }
  }

  // --------------------------------------------------------------- whole streams

  lemma {:induction false} EncodeAllAppend(ps: seq<Payload>, qs: seq<Payload>)
    ensures EncodeAll(ps + qs) == EncodeAll(ps) + EncodeAll(qs)
  {
    if ps == [] {
      assert ps + qs == qs;
    } else {
      assert (ps + qs)[1..] == ps[1..] + qs;
      EncodeAllAppend(ps[1..], qs);
    }
  }

  /** A printed stream followed by more bytes decodes to the printed payloads first. */
  lemma {:induction false} StreamRoundTrip(ps: seq<Payload>, s: seq<Byte>)
    requires AllSendable(ps)
    ensures Frames(EncodeAll(ps) + s) == ps + Frames(s)
    ensures Rest(EncodeAll(ps) + s) == Rest(s)
  {
    if ps == [] {
      assert EncodeAll(ps) + s == s;
    } else {
      assert EncodeAll(ps) + s == Encode(ps[0]) + (EncodeAll(ps[1..]) + s);
      DecodeEncoded(ps[0], EncodeAll(ps[1..]) + s);
      StreamRoundTrip(ps[1..], s);
      assert [ps[0]] + (ps[1..] + Frames(s)) == ps + Frames(s);
    }
  }

  /** Nothing is dropped or invented by decoding: the frames and the tail print back to the stream. */
  lemma {:induction false} Reassemble(s: seq<Byte>)
    ensures EncodeAll(Frames(s)) + Rest(s) == s
    decreases |s|
  {
    hide *;
    if HasFrame(s) {
      var t := AfterFrame(s);
      Reassemble(t);
      EncodeFirstFrame(s);
      Unfolded(s);
      Regroup(Encode(FirstFrame(s)), EncodeAll(Frames(t)), Rest(t));
    } else {
      NoneLeft(s);
    }
  }

  lemma {:induction false} Regroup(a: seq<Byte>, b: seq<Byte>, c: seq<Byte>)
    ensures (a + b) + c == a + (b + c)
  {
  }

  lemma {:induction false} NoneLeft(s: seq<Byte>)
    requires !HasFrame(s)
    ensures EncodeAll(Frames(s)) + Rest(s) == s
  {
  }

  lemma {:induction false} Unfolded(s: seq<Byte>)
    requires HasFrame(s)
    ensures EncodeAll(Frames(s)) == Encode(FirstFrame(s)) + EncodeAll(Frames(AfterFrame(s)))
    ensures Rest(s) == Rest(AfterFrame(s))
  {
    hide Encode, FirstFrame, AfterFrame, HasFrame;
    assert Frames(s)[1..] == Frames(AfterFrame(s));
  }

  lemma EncodeFirstFrame(s: seq<Byte>)
    requires HasFrame(s)
    ensures Encode(FirstFrame(s)) + AfterFrame(s) == s
  {
    var h := Header(s);
    assert h == (s[0] as int) + 256 * (s[1] as int);
    assert HeaderBytes(h) == s[..HEADER_SIZE];
  }

  /** More bytes never take back a frame that is already complete. */
  lemma FrameIsStable(a: seq<Byte>, b: seq<Byte>)
    requires HasFrame(a)
    ensures HasFrame(a + b)
    ensures FirstFrame(a + b) == FirstFrame(a)
    ensures AfterFrame(a + b) == AfterFrame(a) + b
  {
  }

  /** Decoding is incremental: keep the tail of what has arrived and decode it with what arrives next. */
  lemma {:induction false} DecodeIncrementally(a: seq<Byte>, b: seq<Byte>)
    ensures Frames(a + b) == Frames(a) + Frames(Rest(a) + b)
    ensures Rest(a + b) == Rest(Rest(a) + b)
    decreases |a|
  {
    if HasFrame(a) {
      FrameIsStable(a, b);
      DecodeIncrementally(AfterFrame(a), b);
    }
  }

  // ------------------------------------------------------------ the first n frames

  /** What is left of the stream when its first n frames have been cut out. */
  function AfterFrames(s: seq<Byte>, n: nat): seq<Byte>
    requires n <= |Frames(s)|
    decreases n
  {
    if n == 0 then s else AfterFrames(AfterFrame(s), n - 1)
  }

  lemma {:induction false} CutFrames(s: seq<Byte>, n: nat)
    requires n <= |Frames(s)|
    ensures Frames(s) == Frames(s)[..n] + Frames(AfterFrames(s, n))
    ensures Rest(AfterFrames(s, n)) == Rest(s)
    ensures n < |Frames(s)| <==> HasFrame(AfterFrames(s, n))
    ensures n < |Frames(s)| ==> FirstFrame(AfterFrames(s, n)) == Frames(s)[n]
    ensures !HasFrame(AfterFrames(s, n)) ==> AfterFrames(s, n) == Rest(s)
    ensures ZeroFree(s) ==> ZeroFree(AfterFrames(s, n))
    decreases n
  {
    if n > 0 {
      CutFrames(AfterFrame(s), n - 1);
      assert Frames(s)[1..] == Frames(AfterFrame(s));
    }
  }

  lemma {:induction false} CutOneMore(s: seq<Byte>, n: nat)
    requires n < |Frames(s)|
    ensures HasFrame(AfterFrames(s, n))
    ensures AfterFrames(s, n + 1) == AfterFrame(AfterFrames(s, n))
    decreases n
  {
    if n > 0 {
      assert Frames(s)[1..] == Frames(AfterFrame(s));
      CutOneMore(AfterFrame(s), n - 1);
    }
  }

  lemma {:induction false} CutShortens(s: seq<Byte>, n: nat)
    requires n <= |Frames(s)|
    ensures |AfterFrames(s, n)| <= |s| && (n > 0 ==> |AfterFrames(s, n)| < |s|)
    decreases n
  {
    if n > 0 {
      assert Frames(s)[1..] == Frames(AfterFrame(s));
      CutShortens(AfterFrame(s), n - 1);
    }
  }

  // ------------------------------------------------------------- arbitrary chunks

  function Flatten(chunks: seq<seq<Byte>>): seq<Byte> {
    if chunks == [] then [] else chunks[0] + Flatten(chunks[1..])
  }

  /** What the receiver has handed over and what it still buffers. */
  datatype Received = Received(frames: seq<Payload>, buffered: seq<Byte>)

  /** One completed read: append the piece, extract, compact. */
  function ReceiveChunk(r: Received, chunk: seq<Byte>): Received {
    Received(r.frames + Frames(r.buffered + chunk), Rest(r.buffered + chunk))
  }

  function ReceiveAll(r: Received, chunks: seq<seq<Byte>>): Received
    decreases |chunks|
  {
    if chunks == [] then r else ReceiveAll(ReceiveChunk(r, chunks[0]), chunks[1..])
  }

  lemma TwoPieces(r: Received, a: seq<Byte>, b: seq<Byte>)
    ensures ReceiveChunk(ReceiveChunk(r, a), b) == ReceiveChunk(r, a + b)
  {
    hide Frames, Rest;
    var x := r.buffered + a;
    DecodeIncrementally(x, b);
    assert r.buffered + (a + b) == x + b;
    assert (r.frames + Frames(x)) + Frames(Rest(x) + b) == r.frames + (Frames(x) + Frames(Rest(x) + b));
  }

  /** However the stream is cut, the messages and the undecoded tail are those of the whole stream. */
  lemma {:induction false} ChunkingIndependence(r: Received, chunks: seq<seq<Byte>>)
    requires !HasFrame(r.buffered)
    ensures ReceiveAll(r, chunks) == ReceiveChunk(r, Flatten(chunks))
    decreases |chunks|
  {
    if chunks == [] {
      assert r.buffered + [] == r.buffered;
    } else {
      TwoPieces(r, chunks[0], Flatten(chunks[1..]));
      ChunkingIndependence(ReceiveChunk(r, chunks[0]), chunks[1..]);
    }
  }

  /**
   * A buffer without a complete frame waits in vain, whatever may still be received into it, if and only if the
   * pending length is not positive or makes the frame longer than the buffer.
   */
  lemma {:induction false} WaitsInVainIff(buffered: seq<Byte>, capacity: nat)
    requires HEADER_SIZE <= |buffered| <= capacity
    requires !HasFrame(buffered)
    ensures (forall more: seq<Byte> | |buffered| + |more| <= capacity :: !HasFrame(buffered + more))
            <==> Header(buffered) <= 0 || HEADER_SIZE + Header(buffered) > capacity
  {
    forall more: seq<Byte>
      ensures Header(buffered + more) == Header(buffered)
    {
    }
    if 0 < Header(buffered) <= capacity - HEADER_SIZE {
      var more := seq(capacity - |buffered|, _ => 0 as Byte);
      assert HasFrame(buffered + more);
    }
  }

  /** A full buffer without a complete frame always waits in vain. */
  lemma {:induction false} FullWaitsInVain(buffered: seq<Byte>, capacity: nat)
    requires HEADER_SIZE <= |buffered| == capacity
    requires !HasFrame(buffered)
    ensures Header(buffered) <= 0 || HEADER_SIZE + Header(buffered) > capacity
  {
  }

  /** At every cut of a printed stream no length of zero is in front. */
  lemma {:induction false} PrintedIsZeroFree(ps: seq<Payload>, a: seq<Byte>, b: seq<Byte>)
    requires AllSendable(ps)
    requires EncodeAll(ps) == a + b
    ensures ZeroFree(a)
  {
    StreamRoundTrip(ps, []);
    assert EncodeAll(ps) + [] == a + b;
    DecodeIncrementally(a, b);
    hide Frames, Encode, EncodeAll;
    assert Rest(Rest(a) + b) == [];
    if |Rest(a)| >= HEADER_SIZE {
      TailIsShorterThanFrame(Rest(a), b);
      assert Header(Rest(a) + b) == Header(Rest(a));
    }
  }

  /** A tail without a complete frame, continued to a printable stream, is shorter than its first frame. */
  lemma TailIsShorterThanFrame(r: seq<Byte>, b: seq<Byte>)
    requires !HasFrame(r) && |r| >= HEADER_SIZE && Rest(r + b) == []
    ensures HasFrame(r + b) && |r| < HEADER_SIZE + |FirstFrame(r + b)|
    ensures Frames(r + b) != [] && Frames(r + b)[0] == FirstFrame(r + b)
  {
    assert Header(r + b) == Header(r);
  }

  /**
   * Receiving never wedges on a stream that SendMsg printed: at every cut of the stream, the bytes
   * left over after extraction are strictly fewer than the capacity if every frame fits the buffer.
   */
  lemma NeverWedges(ps: seq<Payload>, a: seq<Byte>, b: seq<Byte>, capacity: nat)
    requires AllSendable(ps)
    requires forall i | 0 <= i < |ps| :: HEADER_SIZE + |ps[i]| <= capacity
    requires EncodeAll(ps) == a + b
    requires HEADER_SIZE <= capacity
    ensures |Rest(a)| < capacity
  {
    var tail := Frames(Rest(a) + b);
    assert ps == Frames(a) + tail && Rest(Rest(a) + b) == [] by {
      StreamRoundTrip(ps, []);
      assert EncodeAll(ps) + [] == a + b;
      assert ps + Frames([]) == ps;
      DecodeIncrementally(a, b);
    }
    if |Rest(a)| >= HEADER_SIZE {
      TailIsShorterThanFrame(Rest(a), b);
      assert ps[|Frames(a)|] == tail[0];
    }
  }
}
