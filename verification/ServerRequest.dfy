/** The server's request object: frame parser and reply printer (server_request.go). */
module ServerRequests {
  import opened Bytes
  import opened Frames
  import opened GoInts
  import opened IO
  import opened Wrappers

  /** What the error of a handler becomes on the wire: an empty text looks like no error. */
  function ErrorText(err: Option<bytes>): bytes
  {
    if err.Some? then err.value else []
  }

  /** What is in the fields when the parser ends, also when it fails: id, declared length and payload so far. */
  function FieldsRead(s: bytes): (u64, u64, bytes)
  {
    match ReadU64(s)
    case Fail(_) => (0, 0, [])
    case Got(id, s1) =>
      match ReadU64(s1)
      case Fail(_) => (id, 0, [])
      case Got(n, s2) => (id, n, if CopyN(s2, ToInt(n)).Got? then CopyN(s2, ToInt(n)).value else s2)
  }

  class ServerRequest {
    var id: u64
    var err: Option<bytes>
    var input: bytes
    var payloadLen: u64
    var output: bytes
    var errLen: u64
    var errBuf: bytes

    ghost predicate Blank()
      reads this
    {
      id == 0 && err == None && input == [] && payloadLen == 0 && output == [] && errLen == 0 && errBuf == []
    }

    constructor ()
      ensures Blank()
    {
      id, err, input, payloadLen, output, errLen, errBuf := 0, None, [], 0, [], 0, [];
    }

    /** `readFrom`: on a blank request this is the frame parser. */
    method ReadFrom(source: Source) returns (error: Option<IoError>)
      requires Blank()
      modifies this, source
      ensures match ParseFrame(old(source.data))
              case Got(frame, rest) =>
                error == None && id == frame.id && input == frame.payload && source.data == rest
              case Fail(e) => error == Some(e) && source.data == []
      ensures (id, payloadLen, input) == FieldsRead(old(source.data))
      ensures err == None && output == [] && errLen == 0 && errBuf == []
    {
      var n := source.ReadNumber();
      if n.Fail? { return Some(n.error); }
      id := n.value;
      n := source.ReadNumber();
      if n.Fail? { return Some(n.error); }
      payloadLen := n.value;
      var payload := source.Copy(ToInt(payloadLen));
      if payload.Fail? {
        input := input + n.rest;
        assert input == n.rest;
        return Some(payload.error);
      }
      input := input + payload.value;
      error := None;
    }

    /** `writeTo`: the reply reaches the writer as far as it takes it. */
    method WriteTo(sink: Sink) returns (ok: bool)
      requires errLen == 0
      requires |ErrorText(err)| < TWO63 && |output| < TWO63
      modifies this, sink
      ensures Wrote(old(sink.sent), old(sink.room), ReplyBytes(Reply(old(id), Body(ErrorText(old(err)), old(output)))),
                    sink.sent, sink.room, ok)
    {
      ghost var sent, room := sink.sent, sink.room;
      ghost var err', out' := Chunk(ErrorText(err)), Chunk(output);
      ok := sink.Write(U64(id));
      if !ok {
        WroteFirst(sent, room, U64(id), sink.sent, sink.room, err');
        WroteFirst(sent, room, U64(id) + err', sink.sent, sink.room, out');
        return;
      }
      ghost var sent1, room1 := sink.sent, sink.room;
      ok := WriteError(sink);
      WroteBoth(sent, room, U64(id), sent1, room1, err', sink.sent, sink.room, ok);
      if !ok {
        WroteFirst(sent, room, U64(id) + err', sink.sent, sink.room, out');
        return;
      }
      ghost var sent2, room2 := sink.sent, sink.room;
      ok := WriteOutput(sink);
      WroteBoth(sent, room, U64(id) + err', sent2, room2, out', sink.sent, sink.room, ok);
    }

    /** The error text with its length; an empty text is not written. */
    method WriteError(sink: Sink) returns (ok: bool)
      requires errLen == 0 && |ErrorText(err)| < TWO63
      modifies this`errBuf, this`errLen, sink
      ensures Wrote(old(sink.sent), old(sink.room), Chunk(ErrorText(err)), sink.sent, sink.room, ok)
    {
      ghost var sent, room := sink.sent, sink.room;
      if err.Some? {
        errBuf := err.value;
        errLen := |errBuf|;
      }
      ok := sink.Write(U64(errLen));
      if !ok {
        WroteFirst(sent, room, U64(errLen), sink.sent, sink.room, ErrorText(err));
      } else if errLen > 0 {
        ghost var sent1, room1 := sink.sent, sink.room;
        ok := sink.Write(errBuf);
        WroteBoth(sent, room, U64(errLen), sent1, room1, errBuf, sink.sent, sink.room, ok);
      } else {
        assert Chunk(ErrorText(err)) == U64(errLen);
      }
    }

    /** The output with its length; an empty output is not written. */
    method WriteOutput(sink: Sink) returns (ok: bool)
      requires |output| < TWO63
      modifies this`output, sink
      ensures Wrote(old(sink.sent), old(sink.room), Chunk(old(output)), sink.sent, sink.room, ok)
    {
      ghost var sent, room, out := sink.sent, sink.room, output;
      ok := sink.Write(U64(|output|));
      if !ok {
        WroteFirst(sent, room, U64(|out|), sink.sent, sink.room, out);
      } else if |output| > 0 {
        ghost var sent1, room1 := sink.sent, sink.room;
        ok := sink.Write(output);
        output := [];
        WroteBoth(sent, room, U64(|out|), sent1, room1, out, sink.sent, sink.room, ok);
      } else {
        assert Chunk(out) == U64(|out|);
      }
    }

    /** `reset`: whatever the request was used for, it is like new. */
    method Reset()
      modifies this
      ensures Blank()
    {
      id, err := 0, None;
      input, payloadLen := [], 0;
      output, errLen, errBuf := [], 0, errBuf[..0];
    }
  }

  /** The server's `connectionReader` on a stream that ends: each frame is read into a blank request. */
  method ReadConnection(source: Source) returns (frames: seq<Frame>, error: IoError)
    modifies source
    ensures Streams.Consuming(ParseFrame) && (frames, error) == Streams.ParseAll(ParseFrame, old(source.data))
  {
    FramesFit();
    frames := [];
    ghost var s := source.data;
    ghost var all := Streams.ParseAll(ParseFrame, s);
    assert [] + all.0 == all.0;
    while true
      invariant Consume(frames, source.data) == Streams.ParseAll(ParseFrame, s)
      decreases |source.data|
    {
      ConsumeStep(frames, source.data);
      var request := new ServerRequest();
      var e := request.ReadFrom(source);
      if e.Some? {
        return frames, e.value;
      }
      frames := frames + [Frame(request.id, request.input)];
    }
  }

  /** What the loop delivers when it has the given frames and the stream still holds `s`. */
  ghost function Consume(frames: seq<Frame>, s: bytes): (seq<Frame>, IoError)
    requires Streams.Consuming(ParseFrame)
  {
    var (more, e) := Streams.ParseAll(ParseFrame, s);
    (frames + more, e)
  }

  lemma ConsumeStep(frames: seq<Frame>, s: bytes)
    requires Streams.Consuming(ParseFrame)
    ensures match ParseFrame(s)
            case Fail(e) => Consume(frames, s) == (frames, e)
            case Got(f, rest) => |rest| < |s| && Consume(frames, s) == Consume(frames + [f], rest)
  {
    assert frames + [] == frames;
    if ParseFrame(s).Got? {
      var Got(f, rest) := ParseFrame(s);
      var more := Streams.ParseAll(ParseFrame, rest).0;
      assert frames + ([f] + more) == frames + [f] + more;
    }
  }
}
