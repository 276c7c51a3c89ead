/** The client's request object: encoder, reply decoder and recycling (client_request.go). */
module ClientRequests {
  import opened Bytes
  import opened Codecs
  import opened Frames
  import opened GoInts
  import opened IO
  import opened Wrappers

  /** The payload of a request: the method's name and the encoded arguments (client_request.go:140-165). */
  function Payload(codec: Codec, name: slice, args: seq<Value>): bytes
  {
    Chunk(name) + EncodeAll(codec, args).0
  }

  /** Where the encoding of argument `i` starts, with its length, in the payload. */
  function ArgumentAt(codec: Codec, name: slice, args: seq<Value>, i: nat): nat
    requires i <= |args| && Encodes(codec, args)
  {
    if i == 0 then 8 + |name| else ArgumentAt(codec, name, args, i - 1) + 8 + |codec.encode(args[i - 1]).value|
  }

  /** The payload begins with the length and the bytes of the name. */
  lemma NameLayout(codec: Codec, name: slice, args: seq<Value>)
    ensures var p := Payload(codec, name, args);
            |p| >= 8 + |name| && Word(p[0..8]) == |name| && p[8..8 + |name|] == name
  {
    var p := Payload(codec, name, args);
    assert p[0..] == Chunk(name) + EncodeAll(codec, args).0;
    ChunkAt(p, 0, name, EncodeAll(codec, args).0);
  }

  /** Each argument, in order, has its length and its bytes behind those before it. */
  lemma PayloadLayout(codec: Codec, name: slice, args: seq<Value>, i: nat)
    requires Encodes(codec, args) && i < |args|
    ensures
      var p, at, raw := Payload(codec, name, args), ArgumentAt(codec, name, args, i), codec.encode(args[i]).value;
      at + 8 + |raw| <= |p| && Word(p[at..at + 8]) == |raw| && p[at + 8..at + 8 + |raw|] == raw
  {
    var p, at, raw := Payload(codec, name, args), ArgumentAt(codec, name, args, i), codec.encode(args[i]).value;
    ArgumentsFrom(codec, name, args, i);
    EncodeFrom(codec, args, i);
    ChunkAt(p, at, raw, EncodeAll(codec, args[i + 1..]).0);
  }

  lemma ChunkAt(p: bytes, at: nat, raw: bytes, rest: bytes)
    requires at <= |p| && Sendable(raw) && p[at..] == Chunk(raw) + rest
    ensures at + 8 + |raw| <= |p| && Word(p[at..at + 8]) == |raw| && p[at + 8..at + 8 + |raw|] == raw
  {
    assert |p[at..]| == 8 + |raw| + |rest|;
    assert p[at..at + 8] == p[at..][..8] == U64(|raw|);
    BigEndian(|raw|, p[at..at + 8]);
    assert p[at + 8..at + 8 + |raw|] == p[at..][8..8 + |raw|] == raw;
  }

  lemma {:induction false} ArgumentsFrom(codec: Codec, name: slice, args: seq<Value>, i: nat)
    requires Encodes(codec, args) && i <= |args|
    ensures ArgumentAt(codec, name, args, i) <= |Payload(codec, name, args)|
    ensures Payload(codec, name, args)[ArgumentAt(codec, name, args, i)..] == EncodeAll(codec, args[i..]).0
  {
    if i == 0 {
      assert args[0..] == args;
    } else {
      ArgumentsFrom(codec, name, args, i - 1);
      EncodeFrom(codec, args, i - 1);
      var p, at, raw := Payload(codec, name, args), ArgumentAt(codec, name, args, i - 1), codec.encode(args[i - 1]).value;
      assert p[at..] == Chunk(raw) + EncodeAll(codec, args[i..]).0;
      assert p[at + 8 + |raw|..] == p[at..][8 + |raw|..];
    }
  }

  /** Everything that `readFrom` leaves behind, apart from the signal. */
  datatype ReplyRead = ReplyRead(status: Status, err: Option<bytes>, errLen: u64, payloadLen: u64,
                                 rBuf: bytes, values: seq<Value>, rest: bytes)

  /** The first half of `readFrom`: the error text. */
  function ReadErrorPart(err: Option<bytes>, payloadLen: u64, rBuf: bytes, errLen: u64, s: bytes): ReplyRead
  {
    match ReadU64(s)
    case Fail(e) => ReplyRead(Failed(e.Message()), err, errLen, payloadLen, rBuf, [], [])
    case Got(n, s1) =>
      if n == 0 then ReplyRead(Success, err, n, payloadLen, rBuf, [], s1)
      else if ToInt(n) < 0 then ReplyRead(Panicked, err, n, payloadLen, rBuf, [], s1)
      else match CopyN(s1, ToInt(n))
        case Fail(e) => ReplyRead(Failed(e.Message()), err, n, payloadLen, rBuf + s1, [], [])
        case Got(text, s2) => ReplyRead(Success, Some(rBuf + text), n, payloadLen, rBuf + text, [], s2)
  }

  /** The second half: the payload and the values decoded from it. */
  function ReadPayloadPart(codec: Codec, targets: seq<Type>, r: ReplyRead): ReplyRead
  {
    match ReadU64(r.rest)
    case Fail(e) => r.(status := Failed(e.Message()), rest := [])
    case Got(n, s1) =>
      if ToInt(n) < 0 then r.(status := Panicked, payloadLen := n, rBuf := [], rest := s1)
      else match CopyN(s1, ToInt(n))
        case Fail(e) => r.(status := Failed(e.Message()), payloadLen := n, rBuf := s1, rest := [])
        case Got(payload, s2) =>
          var d := DecodeAll(codec, targets, payload, true);
          r.(status := d.status, payloadLen := n, rBuf := d.rest, values := d.values, rest := s2)
  }

  function ReadReply(codec: Codec, targets: seq<Type>, err: Option<bytes>, payloadLen: u64, rBuf: bytes, errLen: u64,
                     s: bytes): ReplyRead
  {
    var r := ReadErrorPart(err, payloadLen, rBuf, errLen, s);
    if r.status.Success? then ReadPayloadPart(codec, targets, r) else r
  }

  /** What the caller gets from a reply frame's body: error and results, or a failure to read it. */
  function Outcome(codec: Codec, targets: seq<Type>, body: Body): (Status, Option<bytes>, seq<Value>)
  {
    var d := DecodeAll(codec, targets, body.out, true);
    (d.status, if body.err == [] then None else Some(body.err), d.values)
  }

  /** The error that a request is left with once a reply's error text was taken. */
  function ErrorAfter(err: Option<bytes>, text: bytes): Option<bytes> { if text == [] then err else Some(text) }

  /** A request whose buffer is empty reads a whole reply to the outcome of its body, and exactly the reply's bytes. */
  lemma ReadsReply(codec: Codec, targets: seq<Type>, err: Option<bytes>, payloadLen: u64, errLen: u64, body: Body, rest: bytes)
    requires Sendable(body.err) && Sendable(body.out)
    ensures var r := ReadReply(codec, targets, err, payloadLen, [], errLen, Chunk(body.err) + Chunk(body.out) + rest);
            var (status, _, values) := Outcome(codec, targets, body);
            r.status == status && r.values == values && r.err == ErrorAfter(err, body.err) && r.rest == rest
  {
    assert Chunk(body.err) + Chunk(body.out) + rest == Chunk(body.err) + (Chunk(body.out) + rest);
    ErrorPartAt(err, payloadLen, errLen, body.err, Chunk(body.out) + rest);
    PayloadPartAt(codec, targets, ReadErrorPart(err, payloadLen, [], errLen, Chunk(body.err) + (Chunk(body.out) + rest)), body.out, rest);
  }

  /** A blank request reads a whole reply to the outcome of its body, and exactly the reply's bytes. */
  lemma ReadsWholeReply(codec: Codec, targets: seq<Type>, reply: Reply, rest: bytes)
    requires ReplyFits(reply)
    ensures var r := ReadReply(codec, targets, None, 0, [], 0, ReplyBytes(reply)[8..] + rest);
            (r.status, r.err, r.values) == Outcome(codec, targets, reply.body) && r.rest == rest
  {
    assert ReplyBytes(reply)[8..] == Chunk(reply.body.err) + Chunk(reply.body.out);
    ReadsReply(codec, targets, None, 0, 0, reply.body, rest);
  }

  /**
   * Truncation: of a reply that is cut short anywhere, however many targets there are, the reading fails; its
   * error text has been taken if and only if it lies wholly in the part that arrived.
   */
  lemma CutReplyFails(codec: Codec, targets: seq<Type>, err: Option<bytes>, payloadLen: u64, errLen: u64, body: Body, n: nat)
    requires Sendable(body.err) && Sendable(body.out) && n < |Chunk(body.err) + Chunk(body.out)|
    ensures var r := ReadReply(codec, targets, err, payloadLen, [], errLen, (Chunk(body.err) + Chunk(body.out))[..n]);
            r.status.Failed? && r.err == if n < |Chunk(body.err)| then err else ErrorAfter(err, body.err)
  {
    var first, second := Chunk(body.err), Chunk(body.out);
    if n < |first| {
      assert (first + second)[..n] == first[..n];
      CutErrorPart(err, payloadLen, errLen, body.err, n);
    } else {
      var m := n - |first|;
      assert (first + second)[..n] == first + second[..m];
      ErrorPartAt(err, payloadLen, errLen, body.err, second[..m]);
      CutPayloadPart(codec, targets, ReadErrorPart(err, payloadLen, [], errLen, first + second[..m]), body.out, m);
    }
  }

  lemma CutErrorPart(err: Option<bytes>, payloadLen: u64, errLen: u64, text: bytes, n: nat)
    requires Sendable(text) && n < |Chunk(text)|
    ensures var r := ReadErrorPart(err, payloadLen, [], errLen, Chunk(text)[..n]); r.status.Failed? && r.err == err
  {
    if n >= 8 {
      assert Chunk(text)[..n] == U64(|text|) + text[..n - 8];
      ReadU64At(|text|, text[..n - 8]);
    }
  }

  lemma CutPayloadPart(codec: Codec, targets: seq<Type>, r: ReplyRead, out: bytes, n: nat)
    requires Sendable(out) && n < |Chunk(out)| && r.rest == Chunk(out)[..n]
    ensures var p := ReadPayloadPart(codec, targets, r); p.status.Failed? && p.err == r.err
  {
    if n >= 8 {
      assert Chunk(out)[..n] == U64(|out|) + out[..n - 8];
      ReadU64At(|out|, out[..n - 8]);
    }
  }

  /** Reading a reply puts nothing back. */
  lemma ReadTakes(codec: Codec, targets: seq<Type>, err: Option<bytes>, payloadLen: u64, rBuf: bytes, errLen: u64, s: bytes)
    ensures |ReadReply(codec, targets, err, payloadLen, rBuf, errLen, s).rest| <= |s|
  {
  }

  lemma ErrorPartAt(err: Option<bytes>, payloadLen: u64, errLen: u64, text: bytes, rest: bytes)
    requires Sendable(text)
    ensures ReadErrorPart(err, payloadLen, [], errLen, Chunk(text) + rest)
         == ReplyRead(Success, ErrorAfter(err, text), |text|, payloadLen, text, [], rest)
  {
    assert Chunk(text) + rest == U64(|text|) + (text + rest);
    ReadU64At(|text|, text + rest);
    assert (text + rest)[..|text|] == text && (text + rest)[|text|..] == rest;
    assert [] + text == text;
    assert text == [] ==> text + rest == rest;
  }

  lemma PayloadPartAt(codec: Codec, targets: seq<Type>, r: ReplyRead, out: bytes, rest: bytes)
    requires Sendable(out) && r.rest == Chunk(out) + rest
    ensures var d := DecodeAll(codec, targets, out, true);
            ReadPayloadPart(codec, targets, r) == r.(status := d.status,
                 payloadLen := |out|, rBuf := d.rest, values := d.values, rest := rest)
  {
    assert Chunk(out) + rest == U64(|out|) + (out + rest);
    ReadU64At(|out|, out + rest);
    assert (out + rest)[..|out|] == out && (out + rest)[|out|..] == rest;
    assert out == [] ==> out + rest == rest;
  }

  class ClientRequest {
    const codec: Codec
    var err: Option<bytes>
    var skip: bool
    /** Tokens in the channel `done` of capacity one. */
    var done: nat
    /** Whether that channel has been closed, which nothing undoes. */
    var closed: bool
    var args: seq<Value>
    var reply: seq<Type>
    /** What has been stored through the reply pointers. */
    var replied: seq<Value>
    var rBuf: bytes
    var errLen: u64
    var payloadLen: u64
    var wBuf: bytes
    var name: slice
    var nameLen: u64

    /** Nothing distinguishes such a request from a new one. */
    ghost predicate Blank()
      reads this
    {
      && err == None && !skip && done == 0 && !closed
      && args == [] && reply == []
      && rBuf == [] && errLen == 0 && payloadLen == 0
      && wBuf == [] && name == [] && nameLen == 0
    }

    constructor (codec: Codec)
      ensures this.codec == codec && Blank() && replied == []
    {
      this.codec := codec;
      err, skip, done, closed := None, false, 0, false;
      args, reply, replied := [], [], [];
      rBuf, errLen, payloadLen := [], 0, 0;
      wBuf, name, nameLen := [], [], 0;
    }

    /** `Client.Request` with `Args` and `Reply` on a pooled object. */
    method Prepare(name: slice, args: seq<Value>, reply: seq<Type>)
      requires Blank()
      modifies this
      ensures Prepared(name, args, reply)
    {
      this.name := name;
      this.nameLen := |name|;
      this.args := args;
      this.reply := reply;
      this.replied := [];
    }

    /** A request that is ready to be sent, as the pool's history does not show. */
    ghost predicate Prepared(name: slice, args: seq<Value>, reply: seq<Type>)
      reads this
    {
      && err == None && done == 0 && !closed
      && this.args == args && this.reply == reply && replied == []
      && rBuf == [] && errLen == 0 && payloadLen == 0
      && wBuf == [] && this.name == name && nameLen == |name|
    }

    /**
     * `writeTo`: the payload's length and the payload reach the writer as far as it takes them; an argument
     * that does not encode sends nothing.
     */
    method WriteTo(sink: Sink) returns (ok: bool)
      requires nameLen == |name|
      requires |wBuf + Payload(codec, name, args)| < TWO63
      modifies this`wBuf, sink
      ensures
        if Encodes(codec, args)
        then Wrote(old(sink.sent), old(sink.room), Chunk(old(wBuf) + Payload(codec, name, args)), sink.sent, sink.room, ok)
        else !ok && sink.sent == old(sink.sent) && sink.room == old(sink.room)
      ensures ok ==> wBuf == []
    {
      EncodesMeaning(codec, args);
      ok := BuildPayload();
      if ok {
        ghost var sent, room, whole := sink.sent, sink.room, wBuf;
        ok := sink.Write(U64(|wBuf|));
        if ok {
          ghost var sent1, room1 := sink.sent, sink.room;
          ok := sink.Write(wBuf);
          wBuf := if ok then [] else wBuf;
          WroteBoth(sent, room, U64(|whole|), sent1, room1, whole, sink.sent, sink.room, ok);
        } else {
          WroteFirst(sent, room, U64(|whole|), sink.sent, sink.room, whole);
        }
      }
    }

    /** The first part of `writeTo`: the payload is collected in `wBuf`. */
    method BuildPayload() returns (ok: bool)
      requires nameLen == |name|
      modifies this`wBuf
      ensures ok <==> EncodeAll(codec, args).1 == None
      ensures ok ==> wBuf == old(wBuf) + Payload(codec, name, args)
    {
      wBuf := wBuf + U64(nameLen);
      wBuf := wBuf + name;
      for i := 0 to |args|
        invariant old(wBuf) + Payload(codec, name, args) == wBuf + EncodeAll(codec, args[i..]).0
        invariant EncodeAll(codec, args).1 == EncodeAll(codec, args[i..]).1
      {
        EncodeFrom(codec, args, i);
        match codec.encode(args[i])
        case Err(_) => return false;
        case Ok(raw) =>
          Regroup(wBuf, U64(|raw|), raw, EncodeAll(codec, args[i + 1..]).0);
          wBuf := wBuf + U64(|raw|);
          wBuf := wBuf + raw;
      }
      ok := true;
    }

    /**
     * `readFrom`: a token is put into `done`, which must have room for it, however the reading ends; the
     * fields end as `ReadReply` says.
     */
    method ReadFrom(source: Source) returns (status: Status)
      requires done == 0 && !closed
      modifies this`done, this`err, this`errLen, this`payloadLen, this`rBuf, this`replied, source
      ensures done == 1
      ensures ReplyRead(status, err, errLen, payloadLen, rBuf, replied, source.data)
        == ReadReply(codec, reply, old(err), old(payloadLen), old(rBuf), old(errLen), old(source.data))
    {
      replied := [];
      status := ReadError(source);
      if status == Success {
        status := ReadPayload(source);
      }
      done := done + 1;
    }

    method ReadError(source: Source) returns (status: Status)
      modifies this`err, this`errLen, this`rBuf, source
      ensures ReplyRead(status, err, errLen, payloadLen, rBuf, [], source.data)
        == ReadErrorPart(old(err), payloadLen, old(rBuf), old(errLen), old(source.data))
    {
      var n := source.ReadNumber();
      if n.Fail? { return Failed(n.error.Message()); }
      errLen := n.value;
      if errLen > 0 {
        if ToInt(errLen) < 0 { return Panicked; }
        ghost var s1 := source.data;
        var text := source.Copy(ToInt(errLen));
        if text.Fail? {
          rBuf := rBuf + n.rest;
          return Failed(text.error.Message());
        }
        rBuf := rBuf + text.value;
        err := Some(rBuf);
      }
      status := Success;
    }

    method ReadPayload(source: Source) returns (status: Status)
      requires replied == []
      modifies this`payloadLen, this`rBuf, this`replied, source
      ensures ReplyRead(status, err, errLen, payloadLen, rBuf, replied, source.data)
        == ReadPayloadPart(codec, reply, ReplyRead(Success, err, errLen, old(payloadLen), old(rBuf), [], old(source.data)))
    {
      var n := source.ReadNumber();
      if n.Fail? { return Failed(n.error.Message()); }
      payloadLen := n.value;
      rBuf := [];
      if ToInt(payloadLen) < 0 { return Panicked; }
      var payload := source.Copy(ToInt(payloadLen));
      if payload.Fail? {
        rBuf := n.rest;
        return Failed(payload.error.Message());
      }
      rBuf := payload.value;
      status := DecodeReply(rBuf);
    }

    /** The loop over the reply pointers. */
    method DecodeReply(payload: bytes) returns (status: Status)
      requires replied == [] && rBuf == payload
      modifies this`rBuf, this`replied
      ensures Decoded(status, replied, rBuf) == DecodeAll(codec, reply, payload, true)
    {
      DecodeNone(codec, reply, payload, true, []);
      for i := 0 to |reply|
        invariant DecodeAll(codec, reply, payload, true) == After(replied, DecodeAll(codec, reply[i..], rBuf, true))
      {
        DecodeFrom(codec, reply, i, rBuf, true, replied);
        var v;
        status, v := DecodeNext(reply[i]);
        if status != Success {
          return;
        }
        replied := replied + [v.value];
      }
      DecodeNone(codec, reply, rBuf, true, replied);
      status := Success;
    }

    /** One round of that loop. */
    method DecodeNext(t: Type) returns (status: Status, v: Option<Value>)
      modifies this`rBuf
      ensures Item(status, v, rBuf) == DecodeOne(codec, t, old(rBuf), true)
    {
      var size := ReadU64(rBuf);
      rBuf := if size.Got? then size.rest else [];
      if size.Fail? { return Failed(size.error.Message()), None; }
      if ToInt(size.value) < 0 { return Panicked, None; }
      var raw := CopyN(rBuf, ToInt(size.value));
      rBuf := if raw.Got? then raw.rest else [];
      if raw.Fail? { return Failed(raw.error.Message()), None; }
      match codec.decode(raw.value, t)
      case Err(text) => return Failed(text), None;
      case Ok(value) => return Success, Some(value);
    }

    /** `close(request.done)`, which panics when done twice. */
    method Close()
      requires !closed
      modifies this`closed
      ensures closed
    {
      closed := true;
    }

    /** `reset`: whatever was done with the request before, it is like new, and `done` is drained. */
    method Reset()
      requires done <= 1 && !closed
      modifies this
      ensures Blank()
    {
      err, skip := None, false;
      name, args, reply := name[..0], args[..0], reply[..0];
      errLen, nameLen, payloadLen := 0, 0, 0;
      rBuf, wBuf := [], [];
      if done > 0 {
        done := done - 1;
      }
    }
  }

  /** What `connectionWriter` puts on the wire for one request: a prefix of its frame, all of it if nothing fails. */
  method WriteFrame(id: u64, request: ClientRequest, sink: Sink) returns (ok: bool)
    requires request.nameLen == |request.name| && request.wBuf == []
    requires |Payload(request.codec, request.name, request.args)| < TWO63
    modifies request`wBuf, sink
    ensures WroteRequest(old(sink.sent), old(sink.room), Frame(id, Payload(request.codec, request.name, request.args)),
                         Encodes(request.codec, request.args), sink, ok)
  {
    ghost var payload := Payload(request.codec, request.name, request.args);
    assert [] + payload == payload;
    ghost var sent, room := sink.sent, sink.room;
    ok := sink.Write(U64(id));
    if ok {
      ghost var sent1, room1 := sink.sent, sink.room;
      ok := request.WriteTo(sink);
      if Encodes(request.codec, request.args) {
        WroteBoth(sent, room, U64(id), sent1, room1, Chunk(payload), sink.sent, sink.room, ok);
      }
    } else {
      WroteFirst(sent, room, U64(id), sink.sent, sink.room, Chunk(payload));
    }
  }

  /** As much of the frame was written as the sink takes; of a request that does not encode, only the id. */
  ghost predicate WroteFrame(sent: bytes, room: nat, f: Frame, encodes: bool, sent': bytes, room': nat, ok: bool)
  {
    if encodes then Wrote(sent, room, FrameBytes(f), sent', room', ok)
    else !ok && Wrote(sent, room, U64(f.id), sent', room', room >= 8)
  }

  ghost predicate WroteRequest(sent: bytes, room: nat, f: Frame, encodes: bool, sink: Sink, ok: bool)
    reads sink
  {
    WroteFrame(sent, room, f, encodes, sink.sent, sink.room, ok)
  }
}
