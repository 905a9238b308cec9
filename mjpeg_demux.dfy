/** The MJPEG frame demultiplexer of the stream camera's stdout handler.

    raspivid writes MJPEG as JPEG images back to back with no container. The
    handler keeps an accumulating buffer, drops bytes before the first
    occurrence of a fixed 7-byte signature, and emits every slice from one
    signature up to the next as a frame, keeping the unfinished tail. */
module MjpegDemux {
  import opened Types

  /** The start-of-frame signature `FF D8 FF DB 00 84 00`. */
  const Signature: seq<Byte> := [0xFF, 0xD8, 0xFF, 0xDB, 0x00, 0x84, 0x00]

  /** The signature starts at offset `i` of `b`. */
  predicate SignatureAt(b: seq<Byte>, i: int) {
    0 <= i && i + |Signature| <= |b| && b[i..i + |Signature|] == Signature
  }

  /** `b` holds a signature somewhere. */
  ghost predicate HasSignature(b: seq<Byte>) {
    exists p :: SignatureAt(b, p)
  }

  /** A frame: a signature at offset 0 and no other signature occurrence. */
  ghost predicate IsFrame(f: seq<Byte>) {
    SignatureAt(f, 0) && forall p :: SignatureAt(f, p) ==> p == 0
  }

  /** `Buffer.indexOf(signature, from)`: the first offset at or after `from`
      where the signature starts, or -1 when there is none. */
  function IndexOf(b: seq<Byte>, from: nat): (r: int)
    ensures r == -1 || (from <= r && SignatureAt(b, r))
    decreases |b| - from
  {
    if from + |Signature| > |b| then -1
    else if b[from..from + |Signature|] == Signature then from
    else IndexOf(b, from + 1)
  }

  /** What a scan leaves: the frames emitted, in order, and the bytes kept. */
  datatype Scan = Scan(frames: seq<seq<Byte>>, rest: seq<Byte>)

  /** The effect of the handler's `while (true)` loop on a buffer `b`
      (the old buffer with the new chunk appended). */
  function Demux(b: seq<Byte>): Scan
    decreases |b|
  {
    var i := IndexOf(b, 0);
    if i == -1 then Scan([], b)
    else
      var aligned := b[i..];
      var j := IndexOf(aligned, |Signature|);
      if j == -1 then Scan([], aligned)
      else
        var tail := Demux(aligned[j..]);
        Scan([aligned[..j]] + tail.frames, tail.rest)
  }

  /** The handler's extraction loop, run over the accumulated buffer `input`:
      it returns the frames emitted and the new buffer. */
  method ExtractFrames(input: seq<Byte>) returns (frames: seq<seq<Byte>>, buffer: seq<Byte>)
    ensures Scan(frames, buffer) == Demux(input)
  {
    buffer := input;
    frames := [];
    while true
      invariant Demux(input) == Scan(frames + Demux(buffer).frames, Demux(buffer).rest)
      decreases |buffer|
    {
      var signatureIndex := IndexOf(buffer, 0);
      if signatureIndex == -1 {
        break;
      }
      DemuxSkipsLeadingBytes(buffer);
      if signatureIndex > 0 {
        buffer := buffer[signatureIndex..];
      } else {
        assert buffer[0..] == buffer;
      }
      var nextSignatureIndex := IndexOf(buffer, |Signature|);
      if nextSignatureIndex == -1 {
        break;
      }
      EmitFrame(frames, buffer, nextSignatureIndex);
      frames := frames + [buffer[..nextSignatureIndex]];
      buffer := buffer[nextSignatureIndex..];
    }
  }

  /** How many bytes the scan drops: those before the first signature, or none. */
  function Lead(b: seq<Byte>): (n: nat)
    ensures n <= |b|
  {
    var i := IndexOf(b, 0);
    if i == -1 then 0 else i
  }

  function Flatten(chunks: seq<seq<Byte>>): seq<Byte> {
    if chunks == [] then [] else chunks[0] + Flatten(chunks[1..])
  }

  // ----- helper facts -------------------------------------------------------

  /** A byte inside an occurrence of the signature. */
  lemma SignatureBytes(b: seq<Byte>, i: int, d: int)
    requires SignatureAt(b, i) && 0 <= d < |Signature|
    ensures b[i + d] == Signature[d]
  {
    assert b[i..i + |Signature|][d] == b[i + d];
  }

  /** Two occurrences of the signature never overlap. */
  lemma {:induction false} NoOverlap(b: seq<Byte>, i: int, k: int)
    requires SignatureAt(b, i) && SignatureAt(b, k) && i < k
    ensures i + |Signature| <= k
  {
    if k < i + |Signature| {
      var d := k - i;
      SignatureBytes(b, k, 0);
      SignatureBytes(b, i, d);
      assert d == 2;
      SignatureBytes(b, k, 1);
      SignatureBytes(b, i, 3);
    }
  }

  /** A failed search means no occurrence at or after the start offset. */
  lemma {:induction false} IndexOfNone(b: seq<Byte>, from: nat, p: int)
    requires IndexOf(b, from) == -1 && from <= p
    ensures !SignatureAt(b, p)
    decreases |b| - from
  {
    if from < p && from + |Signature| <= |b| {
      IndexOfNone(b, from + 1, p);
    }
  }

  /** A successful search skips no occurrence. */
  lemma {:induction false} IndexOfBefore(b: seq<Byte>, from: nat, p: int)
    requires IndexOf(b, from) != -1 && from <= p < IndexOf(b, from)
    ensures !SignatureAt(b, p)
    decreases |b| - from
  {
    if from < p {
      IndexOfBefore(b, from + 1, p);
    }
  }

  /** A search returns the first occurrence at or after its start offset. */
  lemma {:induction false} IndexOfFirst(b: seq<Byte>, from: nat, q: nat)
    requires from <= q && SignatureAt(b, q)
    requires forall p :: from <= p < q ==> !SignatureAt(b, p)
    ensures IndexOf(b, from) == q
    decreases q - from
  {
    if from < q {
      IndexOfFirst(b, from + 1, q);
    }
  }

  /** A search that succeeds in `b` finds the same offset in any extension of `b`. */
  lemma {:induction false} IndexOfExtend(b: seq<Byte>, c: seq<Byte>, from: nat)
    requires IndexOf(b, from) != -1
    ensures IndexOf(b + c, from) == IndexOf(b, from)
    decreases |b| - from
  {
    assert (b + c)[from..from + |Signature|] == b[from..from + |Signature|];
    if !SignatureAt(b, from) {
      IndexOfExtend(b, c, from + 1);
    }
  }

  lemma SignatureShift(b: seq<Byte>, i: nat, p: int)
    requires i <= |b|
    ensures SignatureAt(b[i..], p) <==> (0 <= p && SignatureAt(b, i + p))
  {
    if 0 <= p && p + |Signature| <= |b| - i {
      assert b[i..][p..p + |Signature|] == b[i + p..i + p + |Signature|];
    }
  }

  lemma SignaturePrefix(b: seq<Byte>, j: nat, p: int)
    requires j <= |b|
    ensures SignatureAt(b[..j], p) <==> (SignatureAt(b, p) && p + |Signature| <= j)
  {
    if 0 <= p && p + |Signature| <= j {
      assert b[..j][p..p + |Signature|] == b[p..p + |Signature|];
    }
  }

  lemma SignatureExtend(b: seq<Byte>, c: seq<Byte>, p: int)
    requires SignatureAt(b, p)
    ensures SignatureAt(b + c, p)
  {
    assert (b + c)[p..p + |Signature|] == b[p..p + |Signature|];
  }

  lemma SignatureRestrict(b: seq<Byte>, c: seq<Byte>, p: int)
    requires SignatureAt(b + c, p) && p + |Signature| <= |b|
    ensures SignatureAt(b, p)
  {
    assert (b + c)[p..p + |Signature|] == b[p..p + |Signature|];
  }

  /** Dropping the bytes before the first signature leaves a buffer that starts
      with the signature and does not change the scan. */
  lemma DemuxSkipsLeadingBytes(b: seq<Byte>)
    requires IndexOf(b, 0) != -1
    ensures SignatureAt(b[IndexOf(b, 0)..], 0)
    ensures Demux(b[IndexOf(b, 0)..]) == Demux(b)
  {
    var i := IndexOf(b, 0);
    var a := b[i..];
    SignatureShift(b, i, 0);
    assert IndexOf(a, 0) == 0;
    assert a[0..] == a;
  }

  /** One round of the scan over a buffer that starts with a signature and
      holds a second one: the first frame is emitted and the scan goes on. */
  lemma DemuxNextFrame(a: seq<Byte>, j: int)
    requires SignatureAt(a, 0) && IndexOf(a, |Signature|) == j && j != -1
    ensures Demux(a) == Scan([a[..j]] + Demux(a[j..]).frames, Demux(a[j..]).rest)
  {

  }

  /** A buffer that starts with the only signature it holds is kept as it is. */
  lemma DemuxLastFrame(a: seq<Byte>)
    requires SignatureAt(a, 0) && IndexOf(a, |Signature|) == -1
    ensures Demux(a) == Scan([], a)
  {

  }

  /** The loop step that emits a frame keeps the loop invariant. */
  lemma EmitFrame(frames: seq<seq<Byte>>, a: seq<Byte>, j: int)
    requires SignatureAt(a, 0) && IndexOf(a, |Signature|) == j && j != -1
    ensures Scan(frames + Demux(a).frames, Demux(a).rest)
         == Scan((frames + [a[..j]]) + Demux(a[j..]).frames, Demux(a[j..]).rest)
  {

  }

  lemma FlattenCons(f: seq<Byte>, fs: seq<seq<Byte>>)
    ensures Flatten([f] + fs) == f + Flatten(fs)
  {
    assert ([f] + fs)[0] == f;
    assert ([f] + fs)[1..] == fs;
  }

  lemma FlattenAppend(a: seq<seq<Byte>>, b: seq<seq<Byte>>)
    ensures Flatten(a + b) == Flatten(a) + Flatten(b)
  {
    if a == [] {
      assert a + b == b;
    } else {
      assert (a + b)[0] == a[0];
      assert (a + b)[1..] == a[1..] + b;
      FlattenAppend(a[1..], b);
    }
  }

  // ----- properties of the scan ----------------------------------------------

  /** Without a signature nothing is emitted and the buffer is kept whole,
      leading bytes included. */
  lemma DemuxWithoutSignature(b: seq<Byte>)
    requires !HasSignature(b)
    ensures Demux(b) == Scan([], b)
  {
    var i := IndexOf(b, 0);
    if i != -1 {
      assert false;
    }
  }

  /** After a scan the buffer holds at most one signature, at offset 0: once a
      signature has been seen the buffer begins on a frame boundary. */
  lemma {:induction false} DemuxRestAligned(b: seq<Byte>)
    ensures forall p :: SignatureAt(Demux(b).rest, p) ==> p == 0
    ensures HasSignature(b) ==> SignatureAt(Demux(b).rest, 0)
    decreases |b|
  {
    var i := IndexOf(b, 0);
    if i == -1 {
      forall p | SignatureAt(b, p) ensures false {
        IndexOfNone(b, 0, p);
      }
    } else {
      var a := b[i..];
      DemuxSkipsLeadingBytes(b);
      var j := IndexOf(a, |Signature|);
      if j == -1 {
        DemuxLastFrame(a);
        forall p | SignatureAt(a, p) ensures p == 0 {
          if p != 0 {
            NoOverlap(a, 0, p);
            IndexOfNone(a, |Signature|, p);
          }
        }
      } else {
        DemuxNextFrame(a, j);
        SignatureShift(a, j, 0);
        DemuxRestAligned(a[j..]);
        assert HasSignature(a[j..]);
      }
    }
  }

  /** Every emitted frame starts with the signature and holds no other occurrence of it. */
  lemma {:induction false} DemuxFramesAreFrames(b: seq<Byte>)
    ensures forall k :: 0 <= k < |Demux(b).frames| ==> IsFrame(Demux(b).frames[k])
    decreases |b|
  {
    var i := IndexOf(b, 0);
    if i != -1 {
      var a := b[i..];
      DemuxSkipsLeadingBytes(b);
      var j := IndexOf(a, |Signature|);
      if j != -1 {
        DemuxNextFrame(a, j);
        FirstFrameIsFrame(a, j);
        DemuxFramesAreFrames(a[j..]);
      }
    }
  }

  /** The slice from the first signature to the second is a frame. */
  lemma FirstFrameIsFrame(a: seq<Byte>, j: int)
    requires SignatureAt(a, 0) && IndexOf(a, |Signature|) == j && j != -1
    ensures IsFrame(a[..j])
  {
    var f := a[..j];
    SignaturePrefix(a, j, 0);
    forall p | SignatureAt(f, p) ensures p == 0 {
      SignaturePrefix(a, j, p);
      if p != 0 {
        NoOverlap(a, 0, p);
        IndexOfBefore(a, |Signature|, p);
      }
    }
  }

  /** Conservation: the frames followed by the kept buffer are exactly the
      input without the bytes before its first signature, and those dropped
      bytes hold no signature start. */
  lemma {:induction false} DemuxConserves(b: seq<Byte>)
    ensures Flatten(Demux(b).frames) + Demux(b).rest == b[Lead(b)..]
    ensures forall p :: 0 <= p < Lead(b) ==> !SignatureAt(b, p)
    decreases |b|
  {
    var i := IndexOf(b, 0);
    if i == -1 {
      assert b[0..] == b;
    } else {
      forall p | 0 <= p < i ensures !SignatureAt(b, p) {
        IndexOfBefore(b, 0, p);
      }
      var a := b[i..];
      DemuxSkipsLeadingBytes(b);
      var j := IndexOf(a, |Signature|);
      if j == -1 {
        DemuxLastFrame(a);
      } else {
        DemuxConserves(a[j..]);
        ConservesFrame(a, j);
      }
    }
  }

  /** The step of `DemuxConserves` that emits one frame. */
  lemma ConservesFrame(a: seq<Byte>, j: int)
    requires SignatureAt(a, 0) && IndexOf(a, |Signature|) == j && j != -1
    requires Flatten(Demux(a[j..]).frames) + Demux(a[j..]).rest == a[j..][Lead(a[j..])..]
    ensures Flatten(Demux(a).frames) + Demux(a).rest == a
  {
    var f, t := a[..j], Demux(a[j..]);
    DemuxNextFrame(a, j);
    SignatureShift(a, j, 0);
    assert Lead(a[j..]) == 0 && a[j..][0..] == a[j..];
    FlattenCons(f, t.frames);
    JoinFrame(f, Flatten(t.frames), t.rest, a, j);
  }

  lemma JoinFrame(f: seq<Byte>, x: seq<Byte>, y: seq<Byte>, a: seq<Byte>, j: int)
    requires 0 <= j <= |a| && f == a[..j] && x + y == a[j..]
    ensures (f + x) + y == a
  {
    assert (f + x) + y == f + (x + y);
  }

  /** Termination measure: each frame takes at least 7 bytes of the input. */
  lemma {:induction false} DemuxFrameCount(b: seq<Byte>)
    ensures |Demux(b).frames| * |Signature| <= |b| - |Demux(b).rest|
    decreases |b|
  {
    var i := IndexOf(b, 0);
    if i != -1 {
      var a := b[i..];
      var j := IndexOf(a, |Signature|);
      if j != -1 {
        DemuxFrameCount(a[j..]);
      }
    }
  }

  /** Scanning `b + c` at once emits what scanning `b` emits, followed by what
      scanning the kept buffer plus `c` emits, and keeps what the latter keeps. */
  ghost predicate SplitsAt(b: seq<Byte>, c: seq<Byte>) {
    Demux(b + c).frames == Demux(b).frames + Demux(Demux(b).rest + c).frames
    && Demux(b + c).rest == Demux(Demux(b).rest + c).rest
  }

  /** Chunking independence, one step: a scan may stop after any prefix `b`
      of its input and resume on the kept buffer followed by the remainder `c`. */
  lemma {:induction false} DemuxAppend(b: seq<Byte>, c: seq<Byte>)
    ensures Demux(b + c).frames == Demux(b).frames + Demux(Demux(b).rest + c).frames
    ensures Demux(b + c).rest == Demux(Demux(b).rest + c).rest
    decreases |b|
  {
    var i := IndexOf(b, 0);
    if i == -1 {
      forall p | SignatureAt(b, p) ensures false {
        IndexOfNone(b, 0, p);
      }
      DemuxWithoutSignature(b);
      assert SplitsAt(b, c);
    } else {
      var a := b[i..];
      DemuxSkipsLeadingBytes(b);
      var j := IndexOf(a, |Signature|);
      if j == -1 {
        DemuxLastFrame(a);
        assert SplitsAt(a, c);
      } else {
        DemuxAppend(a[j..], c);
        SplitsAfterFrame(a, c, j);
      }
      SplitsAligned(b, c);
    }
  }

  /** A split of the aligned buffer is a split of the original one. */
  lemma SplitsAligned(b: seq<Byte>, c: seq<Byte>)
    requires IndexOf(b, 0) != -1 && SplitsAt(b[IndexOf(b, 0)..], c)
    ensures SplitsAt(b, c)
  {
    var i := IndexOf(b, 0);
    IndexOfExtend(b, c, 0);
    DemuxFrom(b, i);
    DemuxFrom(b + c, i);
    SliceAppend(b, c, i);
    SplitsTransfer(b[i..], b, c, b[i..] + c, b + c);
  }

  /** `Demux` of a buffer whose first signature is at `i` is `Demux` of its suffix from `i`. */
  lemma DemuxFrom(b: seq<Byte>, i: int)
    requires IndexOf(b, 0) == i && i != -1
    ensures Demux(b) == Demux(b[i..])
  {

  }

  lemma SliceAppend(b: seq<Byte>, c: seq<Byte>, i: nat)
    requires i <= |b|
    ensures (b + c)[i..] == b[i..] + c
  {
  }

  lemma SplitsTransfer(a: seq<Byte>, b: seq<Byte>, c: seq<Byte>, ac: seq<Byte>, bc: seq<Byte>)
    requires ac == a + c && bc == b + c && Demux(a) == Demux(b) && Demux(ac) == Demux(bc)
    requires SplitsAt(a, c)
    ensures SplitsAt(b, c)
  {
  }

  /** A split after the first frame is a split before it. */
  lemma SplitsAfterFrame(a: seq<Byte>, c: seq<Byte>, j: int)
    requires SignatureAt(a, 0) && IndexOf(a, |Signature|) == j && j != -1
    requires SplitsAt(a[j..], c)
    ensures SplitsAt(a, c)
  {
    var f, t := a[..j], Demux(a[j..]);
    DemuxNextFrame(a, j);
    DemuxAppendFrame(a, c, j);
    Associate([f], t.frames, Demux(t.rest + c).frames);
  }

  /** Appending bytes to a buffer with a complete first frame keeps that frame. */
  lemma DemuxAppendFrame(a: seq<Byte>, c: seq<Byte>, j: int)
    requires SignatureAt(a, 0) && IndexOf(a, |Signature|) == j && j != -1
    ensures Demux(a + c) == Scan([a[..j]] + Demux(a[j..] + c).frames, Demux(a[j..] + c).rest)
  {
    SignatureExtend(a, c, 0);
    IndexOfExtend(a, c, |Signature|);
    DemuxNextFrame(a + c, j);
    assert (a + c)[..j] == a[..j];
    assert (a + c)[j..] == a[j..] + c;
  }

  /** A kept buffer is stable: scanning it again emits nothing and keeps it. */
  lemma DemuxRestStable(b: seq<Byte>)
    ensures Demux(Demux(b).rest) == Scan([], Demux(b).rest)
  {
    var r := Demux(b).rest;
    DemuxRestAligned(b);
    var i := IndexOf(r, 0);
    if i != -1 {
      assert i == 0;
      DemuxSkipsLeadingBytes(r);
      assert r[0..] == r;
      if IndexOf(r, |Signature|) != -1 {
        assert false;
      }
      DemuxLastFrame(r);
    }
  }

  /** The handler run over a sequence of chunks, starting from the buffer `kept`:
      each chunk is appended to the buffer and the buffer is scanned. */
  function Feed(kept: seq<Byte>, chunks: seq<seq<Byte>>): Scan
    decreases |chunks|
  {
    if chunks == [] then Scan([], kept)
    else
      var step := Demux(kept + chunks[0]);
      var later := Feed(step.rest, chunks[1..]);
      Scan(step.frames + later.frames, later.rest)
  }

  /** Chunking independence over a whole input: feeding the chunks one by one
      emits the frames of one scan over their concatenation and keeps the same
      buffer, however the input is split (signatures split across chunks included). */
  lemma {:induction false} DemuxChunked(kept: seq<Byte>, chunks: seq<seq<Byte>>)
    requires Demux(kept) == Scan([], kept)
    ensures Feed(kept, chunks) == Demux(kept + Flatten(chunks))
    decreases |chunks|
  {
    if chunks == [] {
      assert kept + Flatten(chunks) == kept;
    } else {
      var step := Demux(kept + chunks[0]);
      DemuxRestStable(kept + chunks[0]);
      DemuxChunked(step.rest, chunks[1..]);
      ChunkStep(kept, chunks);
    }
  }

  /** The step of `DemuxChunked` that consumes one chunk. */
  lemma ChunkStep(kept: seq<Byte>, chunks: seq<seq<Byte>>)
    requires chunks != []
    requires Feed(Demux(kept + chunks[0]).rest, chunks[1..])
          == Demux(Demux(kept + chunks[0]).rest + Flatten(chunks[1..]))
    ensures Feed(kept, chunks) == Demux(kept + Flatten(chunks))
  {
    var b, more := kept + chunks[0], Flatten(chunks[1..]);
    DemuxAppend(b, more);
    Associate(kept, chunks[0], more);
  }

  /** Framing round trip: frames laid back to back, followed by a buffer that
      starts with a signature, are recovered exactly, one frame event each. */
  lemma {:induction false} DemuxOfFrames(fs: seq<seq<Byte>>, tail: seq<Byte>)
    requires forall k :: 0 <= k < |fs| ==> IsFrame(fs[k])
    requires SignatureAt(tail, 0)
    ensures Demux(Flatten(fs) + tail) == Scan(fs + Demux(tail).frames, Demux(tail).rest)
    decreases |fs|
  {
    if fs == [] {
      assert Flatten(fs) + tail == tail;
    } else {
      var f, after := fs[0], Flatten(fs[1..]) + tail;
      assert Flatten(fs) + tail == f + after;
      FramesThenSignature(fs[1..], tail);
      assert IsFrame(f);
      OneFrameThenSignature(f, after);
      DemuxOfFrames(fs[1..], tail);
      ConsFrames(fs, Demux(tail).frames);
    }
  }

  lemma ConsFrames(fs: seq<seq<Byte>>, more: seq<seq<Byte>>)
    requires fs != []
    ensures [fs[0]] + (fs[1..] + more) == fs + more
  {

  }

  /** A frame followed by a buffer that starts with a signature is emitted as is. */
  lemma OneFrameThenSignature(f: seq<Byte>, after: seq<Byte>)
    requires IsFrame(f) && SignatureAt(after, 0)
    ensures Demux(f + after) == Scan([f] + Demux(after).frames, Demux(after).rest)
  {
    var b := f + after;
    FrameThenSignature(f, after);
    DemuxNextFrame(b, |f|);
    assert b[..|f|] == f;
    assert b[|f|..] == after;
  }

  /** Back-to-back frames followed by a buffer that starts with a signature
      start with a signature. */
  lemma FramesThenSignature(fs: seq<seq<Byte>>, tail: seq<Byte>)
    requires fs != [] ==> SignatureAt(fs[0], 0)
    requires SignatureAt(tail, 0)
    ensures SignatureAt(Flatten(fs) + tail, 0)
  {
    if fs == [] {
      assert Flatten(fs) + tail == tail;
    } else {
      var f, more := fs[0], Flatten(fs[1..]);
      assert Flatten(fs) == f + more;
      Associate(f, more, tail);
      SignatureExtend(f, more + tail, 0);
    }
  }

  /** In a frame followed by a signature, the second signature the scan finds
      is the one right after the frame. */
  lemma FrameThenSignature(f: seq<Byte>, after: seq<Byte>)
    requires IsFrame(f) && SignatureAt(after, 0)
    ensures SignatureAt(f + after, 0)
    ensures IndexOf(f + after, |Signature|) == |f|
  {
    var b := f + after;
    SignatureExtend(f, after, 0);
    SignatureShift(b, |f|, 0);
    assert b[|f|..] == after;
    forall p | |Signature| <= p < |f| ensures !SignatureAt(b, p) {
      if SignatureAt(b, p) {
        if p + |Signature| <= |f| {
          SignatureRestrict(f, after, p);
        } else {
          NoOverlap(b, p, |f|);
        }
      }
    }
    IndexOfFirst(b, |Signature|, |f|);
  }

  /** A signature followed by fewer than 7 bytes is a frame. */
  lemma ShortFrame(f: seq<Byte>)
    requires |Signature| <= |f| < 2 * |Signature| && f[..|Signature|] == Signature
    ensures IsFrame(f)
  {
    assert SignatureAt(f, 0);
    forall p | SignatureAt(f, p) ensures p == 0 {
      if p != 0 { NoOverlap(f, 0, p); }
    }
  }

  /** A buffer that is a single signature, or starts with the signature followed
      by fewer than 7 bytes, is kept whole. */
  lemma ShortTail(t: seq<Byte>)
    requires |Signature| <= |t| < 2 * |Signature| && t[..|Signature|] == Signature
    ensures Demux(t) == Scan([], t)
  {

  }

  // ----- worked examples -----------------------------------------------------

  /** Three signatures in one chunk, each followed by fewer than 7 other bytes
      (`[SIG, 1, 2, SIG, 3, SIG, 4]`, say): two frames, `SIG + x` and `SIG + y`;
      `SIG + z` stays buffered awaiting the next signature. */
  lemma ThreeSignaturesOneChunk(x: seq<Byte>, y: seq<Byte>, z: seq<Byte>)
    requires |x| < |Signature| && |y| < |Signature| && |z| < |Signature|
    ensures Demux(Signature + x + Signature + y + Signature + z)
         == Scan([Signature + x, Signature + y], Signature + z)
  {
    var f1, f2, tail := Signature + x, Signature + y, Signature + z;
    SignatureFirst(x);
    SignatureFirst(y);
    SignatureFirst(z);
    ShortFrame(f1);
    ShortFrame(f2);
    ShortTail(tail);
    TwoFrames(f1, f2, tail);
    assert [f1, f2] + [] == [f1, f2];
    Associate(f1, Signature, y);
    Associate(f1 + f2, Signature, z);
  }

  lemma TwoFrames(f1: seq<Byte>, f2: seq<Byte>, tail: seq<Byte>)
    requires IsFrame(f1) && IsFrame(f2) && SignatureAt(tail, 0)
    ensures Demux((f1 + f2) + tail) == Scan([f1, f2] + Demux(tail).frames, Demux(tail).rest)
  {
    assert Flatten([f1, f2]) == f1 + f2 by {
      FlattenCons(f1, [f2]);
      FlattenCons(f2, []);
    }
    DemuxOfFrames([f1, f2], tail);
  }

  lemma SignatureFirst(x: seq<Byte>)
    ensures (Signature + x)[..|Signature|] == Signature
  {
  }

  /** A frame delivered in any number of chunks, followed by the start of the
      next frame (a signature split across chunks included), is emitted once and
      whole, and the next frame's start is kept. */
  lemma FrameAcrossChunks(chunks: seq<seq<Byte>>, f: seq<Byte>, next: seq<Byte>)
    requires IsFrame(f) && SignatureAt(next, 0) && Demux(next) == Scan([], next)
    requires Flatten(chunks) == f + next
    ensures Feed([], chunks) == Scan([f], next)
  {
    var empty: seq<Byte> := [];
    assert Demux(empty) == Scan([], empty) by {
      assert IndexOf(empty, 0) == -1;
    }
    DemuxChunked(empty, chunks);
    assert Feed(empty, chunks) == Demux(f + next) by {
      assert empty + Flatten(chunks) == f + next;
    }
    assert Demux(f + next) == Scan([f], next) by {
      assert Flatten([f]) == f by {
        FlattenCons(f, []);
      }
      DemuxOfFrames([f], next);
      assert [f] + Demux(next).frames == [f];
    }
  }
}
