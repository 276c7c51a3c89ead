/** Streams of self-delimiting items: reading back what was written, also when the stream is cut. */
module Streams {
  import opened Bytes

  /** `parse` takes at least one byte for every item it delivers. */
  ghost predicate Consuming<T(!new)>(parse: bytes -> Read<T>)
  {
    forall s :: parse(s).Got? ==> |parse(s).rest| < |s|
  }

  /** `encode` and `parse` fit: an item is read back whatever follows, and never from a part of it. */
  ghost predicate Fits<T(!new)>(encode: T -> bytes, parse: bytes -> Read<T>, ok: T -> bool)
  {
    && (forall v | ok(v) :: encode(v) != [])
    && (forall v, rest | ok(v) :: parse(encode(v) + rest) == Got(v, rest))
    && (forall v, n | ok(v) && 0 <= n < |encode(v)| :: parse(encode(v)[..n]).Fail?)
  }

  function Stream<T(!new)>(encode: T -> bytes, items: seq<T>): bytes
  {
    if items == [] then [] else encode(items[0]) + Stream(encode, items[1..])
  }

  /** A connection's reader: items until the first error, and that error. */
  function ParseAll<T(!new)>(parse: bytes -> Read<T>, s: bytes): (seq<T>, IoError)
    requires Consuming(parse)
    decreases |s|
  {
    match parse(s)
    case Fail(e) => ([], e)
    case Got(v, rest) => var (items, e) := ParseAll(parse, rest); ([v] + items, e)
  }

  /** How many of the items lie wholly within the first `n` bytes. */
  function Whole<T(!new)>(encode: T -> bytes, items: seq<T>, n: nat): (k: nat)
    ensures k <= |items|
  {
    if items == [] || n < |encode(items[0])| then 0
    else 1 + Whole(encode, items[1..], n - |encode(items[0])|)
  }

  lemma {:induction false} WholeMeaning<T(!new)>(encode: T -> bytes, items: seq<T>, n: nat)
    requires n <= |Stream(encode, items)|
    ensures |Stream(encode, items[..Whole(encode, items, n)])| <= n
    ensures Whole(encode, items, n) < |items| ==> n < |Stream(encode, items[..Whole(encode, items, n) + 1])|
  {
    if items != [] {
      var k := Whole(encode, items, n);
      if n < |encode(items[0])| {
        assert items[..1] == [items[0]];
        assert Stream(encode, items[..1]) == encode(items[0]) + Stream(encode, items[..1][1..]);
      } else {
        WholeMeaning(encode, items[1..], n - |encode(items[0])|);
        assert items[..k][1..] == items[1..][..k - 1];
        if k < |items| { assert items[..k + 1][1..] == items[1..][..k]; }
      }
    }
  }

  /**
   * Truncation: whatever prefix of the stream arrives, the reader delivers exactly the items wholly inside
   * it, in order, and then an error; it never makes up an item from the rest.
   */
  lemma {:induction false} CutStream<T(!new)>(encode: T -> bytes, parse: bytes -> Read<T>, ok: T -> bool,
                                              items: seq<T>, n: nat)
    requires Consuming(parse) && Fits(encode, parse, ok)
    requires forall v | v in items :: ok(v)
    requires n <= |Stream(encode, items)|
    requires parse([]).Fail?
    ensures ParseAll(parse, Stream(encode, items)[..n]).0 == items[..Whole(encode, items, n)]
  {
    if items != [] {
      var first, rest := encode(items[0]), Stream(encode, items[1..]);
      assert ok(items[0]);
      if n < |first| {
        assert (first + rest)[..n] == first[..n];
      } else {
        assert (first + rest)[..n] == first + rest[..n - |first|];
        CutStream(encode, parse, ok, items[1..], n - |first|);
        var k := Whole(encode, items, n);
        assert items[..k] == [items[0]] + items[1..][..k - 1];
      }
    }
  }

  /** Round trip: the whole stream reads back as exactly the items written. */
  lemma {:induction false} WholeStream<T(!new)>(encode: T -> bytes, parse: bytes -> Read<T>, ok: T -> bool, items: seq<T>)
    requires Consuming(parse) && Fits(encode, parse, ok)
    requires forall v | v in items :: ok(v)
    requires parse([]).Fail?
    ensures ParseAll(parse, Stream(encode, items)) == (items, parse([]).error)
  {
    if items != [] {
      assert ok(items[0]);
      WholeStream(encode, parse, ok, items[1..]);
      assert items == [items[0]] + items[1..];
      assert Stream(encode, items) == encode(items[0]) + Stream(encode, items[1..]);
    }
  }

  lemma {:induction false} StreamSnoc<T(!new)>(encode: T -> bytes, items: seq<T>, last: T)
    ensures Stream(encode, items + [last]) == Stream(encode, items) + encode(last)
  {
    if items == [] {
      assert (items + [last])[1..] == [];
    } else {
      StreamSnoc(encode, items[1..], last);
      assert (items + [last])[1..] == items[1..] + [last];
    }
  }

  /**
   * A connection on which the last item was cut short while being written, and of which only the first
   * `n` bytes arrived, still delivers a prefix of the items that were written completely.
   */
  lemma PartialWrite<T(!new)>(encode: T -> bytes, parse: bytes -> Read<T>, ok: T -> bool,
                              items: seq<T>, last: T, part: nat, n: nat)
    requires Consuming(parse) && Fits(encode, parse, ok) && parse([]).Fail?
    requires (forall v | v in items :: ok(v)) && ok(last)
    requires part < |encode(last)| && n <= |Stream(encode, items)| + part
    ensures ParseAll(parse, (Stream(encode, items) + encode(last)[..part])[..n]).0 <= items
  {
    var all := items + [last];
    StreamSnoc(encode, items, last);
    assert (Stream(encode, items) + encode(last)[..part])[..n] == Stream(encode, all)[..n];
    CutStream(encode, parse, ok, all, n);
    WholeMeaning(encode, all, n);
    var k := Whole(encode, all, n);
    assert all[..|all|] == all;
    assert k <= |items|;
    assert all[..k] == items[..k];
  }
}

/** The two frame formats of the protocol. */
module Frames {
  import opened Bytes
  import opened GoInts
  import opened Streams

  /** What a client writes: id and payload (client.go:408-415, client_request.go:167-172). */
  datatype Frame = Frame(id: u64, payload: bytes)

  /** What the server writes: id, error text and output (server_request.go:59-91). */
  datatype Reply = Reply(id: u64, body: Body)
  datatype Body = Body(err: bytes, out: bytes)

  function FrameBytes(f: Frame): bytes
  {
    if |f.payload| < TWO63 then U64(f.id) + Chunk(f.payload) else []
  }

  function ParseFrame(s: bytes): Read<Frame>
  {
    match ReadU64(s)
    case Fail(e) => Fail(e)
    case Got(id, s1) =>
      match ReadChunk(s1)
      case Fail(e) => Fail(e)
      case Got(payload, rest) => Got(Frame(id, payload), rest)
  }

  function ReplyBytes(r: Reply): bytes
  {
    if |r.body.err| < TWO63 && |r.body.out| < TWO63
    then U64(r.id) + Chunk(r.body.err) + Chunk(r.body.out)
    else []
  }

  /** The layout of a request on the wire, by place. */
  lemma FrameLayout(f: Frame)
    requires |f.payload| < TWO63
    ensures var b := FrameBytes(f);
            |b| == 16 + |f.payload| && Word(b[0..8]) == f.id && Word(b[8..16]) == |f.payload| && b[16..] == f.payload
  {
    var b := FrameBytes(f);
    assert b[0..8] == U64(f.id) && b[8..16] == U64(|f.payload|);
    BigEndian(f.id, b[0..8]);
    BigEndian(|f.payload|, b[8..16]);
  }

  /** The layout of a reply on the wire, by place: id, length and text of the error, length and bytes of the output. */
  lemma ReplyLayout(r: Reply)
    requires |r.body.err| < TWO63 && |r.body.out| < TWO63
    ensures var b, m := ReplyBytes(r), 16 + |r.body.err|;
            && |b| == m + 8 + |r.body.out|
            && Word(b[0..8]) == r.id && Word(b[8..16]) == |r.body.err| && b[16..m] == r.body.err
            && Word(b[m..m + 8]) == |r.body.out| && b[m + 8..] == r.body.out
  {
    var b, m := ReplyBytes(r), 16 + |r.body.err|;
    assert b[0..8] == U64(r.id) && b[8..16] == U64(|r.body.err|) && b[m..m + 8] == U64(|r.body.out|);
    BigEndian(r.id, b[0..8]);
    BigEndian(|r.body.err|, b[8..16]);
    BigEndian(|r.body.out|, b[m..m + 8]);
  }

  function ParseReply(s: bytes): Read<Reply>
  {
    match ReadU64(s)
    case Fail(e) => Fail(e)
    case Got(id, s1) =>
      match ReadChunk(s1)
      case Fail(e) => Fail(e)
      case Got(err, s2) =>
        match ReadChunk(s2)
        case Fail(e) => Fail(e)
        case Got(out, rest) => Got(Reply(id, Body(err, out)), rest)
  }

  ghost predicate FrameFits(f: Frame) { Sendable(f.payload) }

  ghost predicate ReplyFits(r: Reply) { Sendable(r.body.err) && Sendable(r.body.out) }

  lemma FramesFit()
    ensures Consuming(ParseFrame) && Fits(FrameBytes, ParseFrame, FrameFits)
    ensures ParseFrame([]) == Fail(EOF)
  {
    forall f: Frame, rest: bytes | FrameFits(f) ensures ParseFrame(FrameBytes(f) + rest) == Got(f, rest) {
      assert FrameBytes(f) + rest == U64(f.id) + (Chunk(f.payload) + rest);
      ReadU64At(f.id, Chunk(f.payload) + rest);
      ReadChunkAt(f.payload, rest);
    }
    forall f: Frame, n | FrameFits(f) && 0 <= n < |FrameBytes(f)| ensures ParseFrame(FrameBytes(f)[..n]).Fail? {
      FrameCut(f, n);
    }
  }

  /** A cut frame ends in a clean EOF at the borders of its numbers and in its payload, else in an unexpected one. */
  lemma FrameCut(f: Frame, n: nat)
    requires FrameFits(f) && n < |FrameBytes(f)|
    ensures ParseFrame(FrameBytes(f)[..n]) == Fail(if 0 < n < 8 || 8 < n < 16 then UnexpectedEOF else EOF)
  {
    if n >= 8 {
      assert FrameBytes(f)[..n] == U64(f.id) + Chunk(f.payload)[..n - 8];
      ReadU64At(f.id, Chunk(f.payload)[..n - 8]);
      ReadChunkCut(f.payload, n - 8);
    }
  }

  lemma RepliesFit()
    ensures Consuming(ParseReply) && Fits(ReplyBytes, ParseReply, ReplyFits)
    ensures ParseReply([]) == Fail(EOF)
  {
    forall r: Reply, rest: bytes | ReplyFits(r) ensures ParseReply(ReplyBytes(r) + rest) == Got(r, rest) {
      assert ReplyBytes(r) + rest == U64(r.id) + (Chunk(r.body.err) + (Chunk(r.body.out) + rest));
      ReadU64At(r.id, Chunk(r.body.err) + (Chunk(r.body.out) + rest));
      ReadChunkAt(r.body.err, Chunk(r.body.out) + rest);
      ReadChunkAt(r.body.out, rest);
    }
    forall r: Reply, n | ReplyFits(r) && 0 <= n < |ReplyBytes(r)| ensures ParseReply(ReplyBytes(r)[..n]).Fail? {
      ReplyCut(r, n);
    }
  }

  lemma ReplyCut(r: Reply, n: nat)
    requires ReplyFits(r) && n < |ReplyBytes(r)|
    ensures ParseReply(ReplyBytes(r)[..n]).Fail?
  {
    var err, out := Chunk(r.body.err), Chunk(r.body.out);
    if n >= 8 {
      if n - 8 < |err| {
        assert ReplyBytes(r)[..n] == U64(r.id) + err[..n - 8];
        ReadU64At(r.id, err[..n - 8]);
        ReadChunkCut(r.body.err, n - 8);
      } else {
        var m := n - 8 - |err|;
        assert ReplyBytes(r)[..n] == U64(r.id) + (err + out[..m]);
        ReadU64At(r.id, err + out[..m]);
        ReadChunkAt(r.body.err, out[..m]);
        ReadChunkCut(r.body.out, m);
      }
    }
  }

  /** For any requests, and any cut of their stream, the server reads exactly those wholly inside it. */
  lemma RequestStream(frames: seq<Frame>, n: nat)
    requires forall f | f in frames :: FrameFits(f)
    requires n <= |Stream(FrameBytes, frames)|
    ensures Consuming(ParseFrame)
    ensures ParseAll(ParseFrame, Stream(FrameBytes, frames)) == (frames, EOF)
    ensures ParseAll(ParseFrame, Stream(FrameBytes, frames)[..n]).0 == frames[..Whole(FrameBytes, frames, n)]
  {
    FramesFit();
    WholeStream(FrameBytes, ParseFrame, FrameFits, frames);
    CutStream(FrameBytes, ParseFrame, FrameFits, frames, n);
  }

  /** For any replies, and any cut of their stream, the client reads exactly those wholly inside it. */
  lemma ReplyStream(replies: seq<Reply>, n: nat)
    requires forall r | r in replies :: ReplyFits(r)
    requires n <= |Stream(ReplyBytes, replies)|
    ensures Consuming(ParseReply)
    ensures ParseAll(ParseReply, Stream(ReplyBytes, replies)) == (replies, EOF)
    ensures ParseAll(ParseReply, Stream(ReplyBytes, replies)[..n]).0 == replies[..Whole(ReplyBytes, replies, n)]
  {
    RepliesFit();
    WholeStream(ReplyBytes, ParseReply, ReplyFits, replies);
    CutStream(ReplyBytes, ParseReply, ReplyFits, replies, n);
  }
}
