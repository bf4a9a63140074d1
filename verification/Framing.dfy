/** Cutting a byte stream into messages, whatever pieces the bytes arrive in. */
module Framing {
  import opened MsgPack
  import opened MsgPackFormats

  datatype Frame = Frame(obj: Value, vec: seq<Byte>)

  /** What a reader has made of its input: the frames, what is left in the buffer, and whether it gave up. */
  datatype Drained = Drained(frames: seq<Frame>, rest: seq<Byte>, failed: bool)

  // ----- the reference: the whole stream at once -----

  function DrainAll(buf: seq<Byte>): Drained
    decreases |buf|
  {
    match One(buf)
    case More => Drained([], buf, false)
    case Invalid => Drained([], buf, true)
    case Got(v, len) =>
      var d := DrainAll(buf[len..]);
      d.(frames := [Frame(v, buf[..len])] + d.frames)
  }

  function Vecs(frames: seq<Frame>): seq<Byte> {
    if frames == [] then [] else frames[0].vec + Vecs(frames[1..])
  }

  function Flatten(chunks: seq<seq<Byte>>): seq<Byte> {
    if chunks == [] then [] else chunks[0] + Flatten(chunks[1..])
  }

  predicate IsFrame(f: Frame) {
    One(f.vec) == Got(f.obj, |f.vec|)
  }

  // ----- the reader: one piece after the other -----

  function Feed(d: Drained, chunk: seq<Byte>): Drained {
    if d.failed then d
    else
      var next := DrainAll(d.rest + chunk);
      next.(frames := d.frames + next.frames)
  }

  function FeedAll(d: Drained, chunks: seq<seq<Byte>>): Drained
    decreases |chunks|
  {
    if chunks == [] then d else FeedAll(Feed(d, chunks[0]), chunks[1..])
  }

  /** After a failure nothing is read any more, so what is left may differ. */
  predicate SameOutput(a: Drained, b: Drained) {
    a.frames == b.frames && a.failed == b.failed && (!a.failed ==> a.rest == b.rest)
  }

  // ----- frames and the bytes they are made of -----

  /** Nothing is dropped, repeated or moved, and reading stops only for want of bytes or at a bad one. */
  lemma {:induction false} FramesPartitionTheBytes(buf: seq<Byte>)
    ensures Vecs(DrainAll(buf).frames) + DrainAll(buf).rest == buf
    ensures !DrainAll(buf).failed <==> One(DrainAll(buf).rest) == More
    decreases |buf|
  {
    if One(buf).Got? {
      var len := One(buf).len;
      FramesPartitionTheBytes(buf[len..]);
      var tail := DrainAll(buf[len..]);
      VecsCons(Frame(One(buf).value, buf[..len]), tail.frames);
      SplitTwice(buf, len, Vecs(tail.frames), tail.rest);
    }
  }

  lemma SplitTwice(buf: seq<Byte>, len: nat, first: seq<Byte>, second: seq<Byte>)
    requires len <= |buf| && first + second == buf[len..]
    ensures (buf[..len] + first) + second == buf
  {
    assert (buf[..len] + first) + second == buf[..len] + (first + second);
  }

  lemma VecsCons(f: Frame, frames: seq<Frame>)
    ensures Vecs([f] + frames) == f.vec + Vecs(frames)
  {
    assert ([f] + frames)[1..] == frames;
  }

  /** Every frame is one value, from its first byte to its last. */
  lemma {:induction false} EveryFrameIsOneValue(buf: seq<Byte>, k: nat)
    requires k < |DrainAll(buf).frames|
    ensures IsFrame(DrainAll(buf).frames[k]) && |DrainAll(buf).frames[k].vec| > 0
    decreases |buf|
  {
    var len := One(buf).len;
    if k == 0 {
      OneLooksNoFurther(buf, len);
    } else {
      EveryFrameIsOneValue(buf[len..], k - 1);
    }
  }

  lemma {:induction false} DrainInTwo(a: seq<Byte>, b: seq<Byte>)
    ensures SameOutput(Feed(DrainAll(a), b), DrainAll(a + b))
    decreases |a|
  {
    OneIsStable(a, b);
    if One(a).Got? {
      var len := One(a).len;
      assert (a + b)[len..] == a[len..] + b && (a + b)[..len] == a[..len];
      DrainInTwo(a[len..], b);
    }
  }

  // ----- the main result -----

  lemma {:induction false} FedSoFar(d: Drained, seen: seq<Byte>, chunks: seq<seq<Byte>>)
    requires SameOutput(d, DrainAll(seen))
    ensures SameOutput(FeedAll(d, chunks), DrainAll(seen + Flatten(chunks)))
    decreases |chunks|
  {
    if chunks == [] {
      assert seen + Flatten(chunks) == seen;
    } else {
      DrainInTwo(seen, chunks[0]);
      assert seen + Flatten(chunks) == (seen + chunks[0]) + Flatten(chunks[1..]);
      FedSoFar(Feed(d, chunks[0]), seen + chunks[0], chunks[1..]);
    }
  }

  /** The frames depend on the bytes alone, not on how they were split into reads. */
  lemma ChunkingIndependent(chunks: seq<seq<Byte>>)
    ensures SameOutput(FeedAll(Drained([], [], false), chunks), DrainAll(Flatten(chunks)))
  {
    assert [] + Flatten(chunks) == Flatten(chunks);
    FedSoFar(Drained([], [], false), [], chunks);
  }

  lemma SplitsAgree(chunks: seq<seq<Byte>>, chunks': seq<seq<Byte>>)
    requires Flatten(chunks) == Flatten(chunks')
    ensures SameOutput(FeedAll(Drained([], [], false), chunks), FeedAll(Drained([], [], false), chunks'))
  {
    ChunkingIndependent(chunks);
    ChunkingIndependent(chunks');
  }

  /** Messages sent one after the other are received one by one, and nothing remains. */
  lemma {:induction false} SentIsReceived(frames: seq<Frame>)
    requires forall f :: f in frames ==> IsFrame(f)
    ensures DrainAll(Vecs(frames)) == Drained(frames, [], false)
  {
    if frames != [] {
      var f, others := frames[0], Vecs(frames[1..]);
      assert IsFrame(f);
      OneIsStable(f.vec, others);
      assert (f.vec + others)[..|f.vec|] == f.vec && (f.vec + others)[|f.vec|..] == others;
      SentIsReceived(frames[1..]);
    }
  }

  // ----- messages, in whatever formats they are written -----

  function FrameOf(p: Packed): Frame
    requires Legal(p)
  {
    Frame(ValueOf(p), BytesOf(p))
  }

  function FramesOf(ps: seq<Packed>): seq<Frame>
    requires AllLegal(ps)
  {
    if ps == [] then [] else [FrameOf(ps[0])] + FramesOf(ps[1..])
  }

  /** A frame is a value with the bytes of one of its encodings, and nothing else is. */
  lemma FramesAreEncodings(f: Frame)
    ensures IsFrame(f) <==> exists p :: Legal(p) && f == FrameOf(p)
  {
    if IsFrame(f) {
      var p := ReadIsEncoded(f.vec);
      StandsIsRead(p, f.vec);
      assert f == FrameOf(p);
    }
    forall p | Legal(p) && f == FrameOf(p)
      ensures IsFrame(f)
    {
      EncodedIsRead(p, []);
      assert BytesOf(p) + [] == BytesOf(p);
    }
  }

  lemma {:induction false} FramesOfAreFrames(ps: seq<Packed>)
    requires AllLegal(ps)
    ensures Vecs(FramesOf(ps)) == AllBytes(ps) && forall f | f in FramesOf(ps) :: IsFrame(f)
    decreases |ps|
  {
    if ps != [] {
      FramesOfAreFrames(ps[1..]);
      VecsCons(FrameOf(ps[0]), FramesOf(ps[1..]));
      FramesAreEncodings(FrameOf(ps[0]));
    }
  }

  /** Messages that are sent one after the other, and split into any reads, are received one by one. */
  lemma MessagesAreReceived(ps: seq<Packed>, chunks: seq<seq<Byte>>)
    requires AllLegal(ps) && Flatten(chunks) == AllBytes(ps)
    ensures FeedAll(Drained([], [], false), chunks) == Drained(FramesOf(ps), [], false)
  {
    FramesOfAreFrames(ps);
    SentIsReceived(FramesOf(ps));
    ChunkingIndependent(chunks);
  }

  // ----- the decoder and its read loop -----

  class BytesMut {
    var data: seq<Byte>

    constructor ()
      ensures data == []
    {
      data := [];
    }
  }

  datatype Decoded = Item(frame: Frame) | NotYet | InvalidData

  /** Takes the first frame off the buffer; without one the buffer stays as it is. */
  method Decode(src: BytesMut) returns (r: Decoded)
    modifies src
    ensures match One(old(src.data))
            case Got(v, len) => r == Item(Frame(v, old(src.data)[..len])) && src.data == old(src.data)[len..]
            case More => r == NotYet && src.data == old(src.data)
            case Invalid => r == InvalidData && src.data == old(src.data)
    ensures r.Item? ==> IsFrame(r.frame) && r.frame.vec + src.data == old(src.data) && r.frame.vec != []
  {
    match One(src.data)
    case More =>
      r := NotYet;
    case Invalid =>
      r := InvalidData;
    case Got(obj, len) =>
      OneLooksNoFurther(src.data, len);
      var vec := src.data[..len];
      src.data := src.data[len..];
      r := Item(Frame(obj, vec));
  }

  function After(frames: seq<Frame>, d: Drained): Drained {
    d.(frames := frames + d.frames)
  }

  lemma OneMoreFrame(frames: seq<Frame>, buf: seq<Byte>)
    requires One(buf).Got?
    ensures var len := One(buf).len;
      After(frames, DrainAll(buf)) == After(frames + [Frame(One(buf).value, buf[..len])], DrainAll(buf[len..]))
  {
  }

  /** Empties the buffer frame by frame. */
  method DrainBuffer(src: BytesMut) returns (frames: seq<Frame>, failed: bool)
    modifies src
    ensures Drained(frames, src.data, failed) == DrainAll(old(src.data))
  {
    frames, failed := [], false;
    while true
      invariant After(frames, DrainAll(src.data)) == DrainAll(old(src.data))
      decreases |src.data|
    {
      ghost var was := src.data;
      var r := Decode(src);
      match r
      case NotYet =>
        return;
      case InvalidData =>
        return frames, true;
      case Item(frame) =>
        OneMoreFrame(frames, was);
        frames := frames + [frame];
    }
  }

  /** Reads every chunk, up to the first failure. */
  method ReadLoop(chunks: seq<seq<Byte>>) returns (frames: seq<Frame>, rest: seq<Byte>, failed: bool)
    ensures SameOutput(Drained(frames, rest, failed), DrainAll(Flatten(chunks)))
    ensures !failed ==> Vecs(frames) + rest == Flatten(chunks)
  {
    var buf := new BytesMut();
    frames := [];
    ghost var none := Drained([], [], false);
    for i := 0 to |chunks|
      invariant FeedAll(none, chunks) == FeedAll(Drained(frames, buf.data, false), chunks[i..])
      invariant fresh(buf)
    {
      buf.data := buf.data + chunks[i];
      var more, bad := DrainBuffer(buf);
      frames := frames + more;
      assert chunks[i..][1..] == chunks[i + 1..];
      if bad {
        FailureIsFinal(Drained(frames, buf.data, true), chunks[i + 1..]);
        ChunkingIndependent(chunks);
        return frames, buf.data, true;
      }
    }
    ChunkingIndependent(chunks);
    FramesPartitionTheBytes(Flatten(chunks));
    return frames, buf.data, false;
  }

  lemma {:induction false} FailureIsFinal(d: Drained, chunks: seq<seq<Byte>>)
    requires d.failed
    ensures FeedAll(d, chunks) == d
    decreases |chunks|
  {
    if chunks != [] {
      FailureIsFinal(Feed(d, chunks[0]), chunks[1..]);
    }
  }
}
