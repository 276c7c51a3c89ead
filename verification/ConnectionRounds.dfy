/**
 * The methods of a connection are runs of the step system, and the bytes on its wires are the frames there:
 * what was proved about `Links` holds of the code in `ClientConnections`.
 */
module ConnectionRounds {
  import opened Bytes
  import opened ClientConnections
  import opened ClientRequests
  import opened Frames
  import opened GoInts
  import opened IO
  import opened Links
  import opened Sequences
  import opened Streams
  import opened Wrappers
  import ReplyReading

  lemma OneStep(cfg: Config, l: Link, e: Event)
    ensures Steps(cfg, l, [e]) == Step(cfg, l, e)
  {
    assert [e][1..] == [];
  }

  lemma ThenSteps(cfg: Config, l: Link, e: Event, l': Link, more: seq<Event>)
    requires Step(cfg, l, e) == Some(l')
    ensures Steps(cfg, l, [e] + more) == Steps(cfg, l', more)
  {
    assert ([e] + more)[1..] == more;
  }

  // ----- the writer's round -----

  /** The steps of one round: `started` tells whether a failed write got beyond the id. */
  function WriterEvents(cancelled: bool, skip: bool, id: u64, r: Written, started: bool): seq<Event>
  {
    if cancelled then [Check(true)]
    else
      (if skip then [Check(false)] else [Check(false), Register(id), CountUp])
      + (match r
         case Overflow => []
         case Broken => if started then [WriteId(true), WriteRest(false)] else [WriteId(false)]
         case Sent => [WriteId(true), WriteRest(true)]
         case Returned => [WriteId(true), WriteRest(true), Recycle])
  }

  function WriterAfter(r: Written): Writer
  {
    match r
    case Overflow => WriterDone(true)
    case Broken => WriterDone(false)
    case _ => Selecting
  }

  /** What the round does to the connection besides the table: the frame on the wire, or a broken wire. */
  function AfterWrite(cfg: Config, l: Link, cancelled: bool, call: Call, id: u64, r: Written): Link
  {
    l.(writer := WriterAfter(r),
       intact := l.intact && (r == Returned || r == Sent),
       toServer := if l.intact && !cancelled && (r == Returned || r == Sent) then l.toServer + [Frame(id, cfg.payload(call))] else l.toServer)
  }

  /** From the id on: the frame is written, or part of it. */
  lemma FrameSteps(cfg: Config, l: Link, call: Call, id: u64, r: Written, started: bool)
    requires l.writer == WritingId(call, id) && r != Overflow && (r == Returned <==> cfg.oneWay(call) && r != Broken)
    ensures Steps(cfg, l, WriterEvents(false, true, id, r, started)[1..]) == Some(AfterWrite(cfg, l, false, call, id, r))
  {
    var events := WriterEvents(false, true, id, r, started)[1..];
    if r == Broken {
      if started {
        var l' := l.(writer := WritingRest(call, id));
        assert events == [WriteId(true)] + [WriteRest(false)];
        ThenSteps(cfg, l, WriteId(true), l', [WriteRest(false)]);
        OneStep(cfg, l', WriteRest(false));
      } else {
        assert events == [WriteId(false)];
        OneStep(cfg, l, WriteId(false));
      }
    } else {
      WholeFrameSteps(cfg, l, call, id, r);
      assert events == if r == Returned then [WriteId(true), WriteRest(true), Recycle] else [WriteId(true), WriteRest(true)];
    }
  }

  lemma WholeFrameSteps(cfg: Config, l: Link, call: Call, id: u64, r: Written)
    requires l.writer == WritingId(call, id) && (r == Returned || r == Sent) && (r == Returned <==> cfg.oneWay(call))
    ensures Steps(cfg, l, if r == Returned then [WriteId(true), WriteRest(true), Recycle] else [WriteId(true), WriteRest(true)])
         == Some(AfterWrite(cfg, l, false, call, id, r))
  {
    var l1 := l.(writer := WritingRest(call, id));
    if r == Returned {
      var l2 := Step(cfg, l1, WriteRest(true)).value;
      assert [WriteId(true), WriteRest(true), Recycle] == [WriteId(true)] + ([WriteRest(true)] + [Recycle]);
      ThenSteps(cfg, l, WriteId(true), l1, [WriteRest(true)] + [Recycle]);
      ThenSteps(cfg, l1, WriteRest(true), l2, [Recycle]);
      OneStep(cfg, l2, Recycle);
    } else {
      assert [WriteId(true), WriteRest(true)] == [WriteId(true)] + [WriteRest(true)];
      ThenSteps(cfg, l, WriteId(true), l1, [WriteRest(true)]);
      OneStep(cfg, l1, WriteRest(true));
    }
  }

  /** The registration, counted. */
  lemma RegisterSteps(cfg: Config, l: Link, names: map<ClientRequest, Call>, pending: map<u64, ClientRequest>, requestId: u64,
                      request: ClientRequest, id: u64)
    requires Shows(pending, requestId, names, l) && request in names && l.writer == Registering(names[request])
    requires NextFree(pending.Keys, FirstId(requestId), id)
    ensures var l' := l.(pending := l.pending[id := names[request]], requestId := id, registrations := l.registrations + 1,
                         writer := if |pending| > cfg.pendingRequests then WriterDone(true) else WritingId(names[request], id),
                         intact := l.intact && |pending| <= cfg.pendingRequests);
            Steps(cfg, l, [Register(id), CountUp]) == Some(l') && Shows(pending[id := request], id, names, l')
  {
    RegisterRefines(cfg, l, names, pending, requestId, request, id);
    var l1 := Step(cfg, l, Register(id)).value;
    assert [Register(id), CountUp] == [Register(id)] + [CountUp];
    ThenSteps(cfg, l, Register(id), l1, [CountUp]);
    OneStep(cfg, l1, CountUp);
  }

  lemma {:induction false} StepsTwice(cfg: Config, l: Link, a: seq<Event>, b: seq<Event>)
    requires Steps(cfg, l, a).Some?
    ensures Steps(cfg, l, a + b) == Steps(cfg, Steps(cfg, l, a).value, b)
    decreases |a|
  {
    if a == [] {
      assert a + b == b;
    } else {
      assert (a + b)[1..] == a[1..] + b;
      StepsTwice(cfg, Step(cfg, l, a[0]).value, a[1..], b);
    }
  }

  /**
   * A round of the writer, as the contract of `WriteOne` has it, is a run of the connection's steps: it leaves
   * the same table, the writer where it is then, and on the wire the frame with the id of the round.
   */
  lemma WriteOneRuns(cfg: Config, l: Link, names: map<ClientRequest, Call>, pending: map<u64, ClientRequest>, requestId: u64,
                     request: ClientRequest, pending': map<u64, ClientRequest>, requestId': u64,
                     cancelled: bool, r: Written, started: bool)
    requires Shows(pending, requestId, names, l) && request in names && l.writer == Taken(names[request])
    requires WriterRound(cfg.pendingRequests, cancelled, cfg.oneWay(names[request]), pending, requestId, request, pending', requestId', r)
    ensures
      var call, skip := names[request], cfg.oneWay(names[request]);
      var id := if skip then 0 else requestId';
      var run := Steps(cfg, l, WriterEvents(cancelled, skip, id, r, started));
      && run.Some? && Shows(pending', requestId', names, run.value) && run.value.writer == WriterAfter(r)
      && run.value.toServer == AfterWrite(cfg, l, cancelled, call, id, r).toServer
      && run.value.intact == AfterWrite(cfg, l, cancelled, call, id, r).intact
      && run.value.reader == l.reader && run.value.main == l.main && run.value.handlers == l.handlers
      && run.value.responses == l.responses && run.value.replying == l.replying && run.value.toClient == l.toClient
  {
    var call, skip := names[request], cfg.oneWay(names[request]);
    if cancelled {
      OneStep(cfg, l, Check(true));
    } else if skip {
      var events, l' := WriterEvents(false, true, 0, r, started), l.(writer := WritingId(call, 0));
      FrameSteps(cfg, l', call, 0, r, started);
      assert events == [Check(false)] + events[1..];
      ThenSteps(cfg, l, Check(false), l', events[1..]);
    } else {
      CalledRound(cfg, l, names, pending, requestId, request, requestId', r, started);
    }
  }

  lemma CalledRound(cfg: Config, l: Link, names: map<ClientRequest, Call>, pending: map<u64, ClientRequest>, requestId: u64,
                    request: ClientRequest, id: u64, r: Written, started: bool)
    requires Shows(pending, requestId, names, l) && request in names && l.writer == Taken(names[request])
    requires WriterRound(cfg.pendingRequests, false, false, pending, requestId, request, pending[id := request], id, r)
    requires !cfg.oneWay(names[request])
    ensures
      var run := Steps(cfg, l, WriterEvents(false, false, id, r, started));
      var l1 := l.(pending := l.pending[id := names[request]], requestId := id, registrations := l.registrations + 1);
      run == Some(AfterWrite(cfg, l1, false, names[request], id, r)) && Shows(pending[id := request], id, names, run.value)
  {
    var call, events := names[request], WriterEvents(false, false, id, r, started);
    var registering := l.(writer := Registering(call));
    RegisterSteps(cfg, registering, names, pending, requestId, request, id);
    var l' := Steps(cfg, registering, [Register(id), CountUp]).value;
    var rest := WriterEvents(false, true, id, r, started)[1..];
    assert events == [Check(false)] + ([Register(id), CountUp] + rest);
    ThenSteps(cfg, l, Check(false), registering, [Register(id), CountUp] + rest);
    StepsTwice(cfg, registering, [Register(id), CountUp], rest);
    if r == Overflow {
      assert rest == [];
    } else {
      FrameSteps(cfg, l', call, id, r, started);
    }
  }

  // ----- the wire to the server -----

  /** The bytes of some of these frames, the first ones, and then nothing that parses. */
  ghost predicate FrameWire(data: bytes, frames: seq<Frame>)
  {
    exists k: nat, tail ::
      k <= |frames| && data == Stream(FrameBytes, frames[..k]) + tail && ParseFrame(tail).Fail?
  }

  /** What the server's reader takes from the wire is its first frame. */
  lemma FrameArrives(data: bytes, frames: seq<Frame>)
    requires FrameWire(data, frames) && (forall f | f in frames :: FrameFits(f)) && ParseFrame(data).Got?
    ensures frames != [] && ParseFrame(data).value == frames[0] && FrameWire(ParseFrame(data).rest, frames[1..])
  {
    var k: nat, tail :| k <= |frames| && data == Stream(FrameBytes, frames[..k]) + tail && ParseFrame(tail).Fail?;
    NoFrame(frames, tail);
    if k > 0 {
      var more := Stream(FrameBytes, frames[1..][..k - 1]) + tail;
      FirstFrame(frames, k, tail);
      assert frames[0] in frames;
      WholeFrameParses(frames[0], more);
    }
  }

  lemma NoFrame(frames: seq<Frame>, tail: bytes)
    ensures Stream(FrameBytes, frames[..0]) + tail == tail
  {
  }

  lemma FirstFrame(frames: seq<Frame>, k: nat, tail: bytes)
    requires 0 < k <= |frames|
    ensures Stream(FrameBytes, frames[..k]) + tail == FrameBytes(frames[0]) + (Stream(FrameBytes, frames[1..][..k - 1]) + tail)
  {
    assert frames[..k][1..] == frames[1..][..k - 1];
  }

  lemma WholeFrameParses(f: Frame, rest: bytes)
    requires FrameFits(f)
    ensures ParseFrame(FrameBytes(f) + rest) == Read.Got(f, rest)
  {
    FramesFit();
  }

  /**
   * A frame written to a sound wire is on it behind the others; a frame written in part, or only the id of a
   * request that does not encode, is not there at all.
   */
  lemma RequestSent(data: bytes, frames: seq<Frame>, room: nat, f: Frame, encodes: bool, data': bytes, room': nat, ok: bool)
    requires data == Stream(FrameBytes, frames) && FrameFits(f) && WroteFrame(data, room, f, encodes, data', room', ok)
    ensures if ok then data' == Stream(FrameBytes, frames + [f]) else FrameWire(data', frames)
  {
    if encodes {
      FrameSent(data, frames, room, f, data', room', ok);
    } else {
      var part := U64(f.id)[..Min(8, room)];
      IdAlone(f.id, Min(8, room));
      assert frames[..|frames|] == frames;
      assert data' == Stream(FrameBytes, frames[..|frames|]) + part;
    }
  }

  /** An id by itself, or part of it, is no frame. */
  lemma IdAlone(id: u64, n: nat)
    requires n <= 8
    ensures ParseFrame(U64(id)[..n]).Fail?
  {
    if n == 8 {
      assert U64(id)[..8] == U64(id) + [];
      ReadU64At(id, []);
    }
  }

  lemma FrameSent(data: bytes, frames: seq<Frame>, room: nat, f: Frame, data': bytes, room': nat, ok: bool)
    requires data == Stream(FrameBytes, frames) && FrameFits(f) && Wrote(data, room, FrameBytes(f), data', room', ok)
    ensures if ok then data' == Stream(FrameBytes, frames + [f]) else FrameWire(data', frames)
  {
    StreamSnoc(FrameBytes, frames, f);
    if ok {
      assert FrameBytes(f)[..|FrameBytes(f)|] == FrameBytes(f);
    } else {
      FrameCut(f, room);
      assert frames[..|frames|] == frames;
      assert data' == Stream(FrameBytes, frames[..|frames|]) + FrameBytes(f)[..room];
    }
  }

  /** Whatever arrives of a sound wire that is cut. */
  lemma FrameWireCut(data: bytes, frames: seq<Frame>, n: nat)
    requires data == Stream(FrameBytes, frames) && (forall f | f in frames :: FrameFits(f)) && n <= |data|
    ensures FrameWire(data[..n], frames)
  {
    StreamPrefix(frames, n);
  }

  lemma {:induction false} StreamPrefix(frames: seq<Frame>, n: nat)
    requires n <= |Stream(FrameBytes, frames)| && forall f | f in frames :: FrameFits(f)
    ensures FrameWire(Stream(FrameBytes, frames)[..n], frames)
  {
    if frames == [] {
      NoneOnWire(frames, []);
    } else {
      var first, rest := FrameBytes(frames[0]), Stream(FrameBytes, frames[1..]);
      if n < |first| {
        FrameCut(frames[0], n);
        assert (first + rest)[..n] == first[..n];
        NoneOnWire(frames, first[..n]);
      } else {
        StreamPrefix(frames[1..], n - |first|);
        assert (first + rest)[..n] == first + rest[..n - |first|];
        OneMoreOnWire(frames, rest[..n - |first|]);
      }
    }
  }

  lemma NoneOnWire(frames: seq<Frame>, tail: bytes)
    requires ParseFrame(tail).Fail?
    ensures FrameWire(tail, frames)
  {
    NoFrame(frames, tail);
  }

  lemma OneMoreOnWire(frames: seq<Frame>, data: bytes)
    requires frames != [] && FrameWire(data, frames[1..])
    ensures FrameWire(FrameBytes(frames[0]) + data, frames)
  {
    var k: nat, tail :| k <= |frames| - 1 && data == Stream(FrameBytes, frames[1..][..k]) + tail && ParseFrame(tail).Fail?;
    FirstFrame(frames, k + 1, tail);
  }

  // ----- the wire to the client and the reader's round -----

  /** The bytes of these replies, up to some point. */
  ghost predicate ReplyWire(data: bytes, replies: seq<Reply>)
  {
    data <= Stream(ReplyBytes, replies)
  }

  /** A reply written to a sound wire is on it behind the others, perhaps cut short, in which case the wire is broken. */
  lemma ReplySent(data: bytes, replies: seq<Reply>, room: nat, r: Reply, data': bytes, room': nat, ok: bool)
    requires data == Stream(ReplyBytes, replies) && ReplyFits(r) && Wrote(data, room, ReplyBytes(r), data', room', ok)
    ensures ReplyWire(data', replies + [r]) && (ok ==> data' == Stream(ReplyBytes, replies + [r]))
  {
    StreamSnoc(ReplyBytes, replies, r);
    var n := Min(|ReplyBytes(r)|, room);
    assert ReplyBytes(r) == ReplyBytes(r)[..n] + ReplyBytes(r)[n..];
    assert Stream(ReplyBytes, replies + [r]) == data' + ReplyBytes(r)[n..];
  }

  /** A reply that was written in part: its beginning is on the wire, and nothing more gets there. */
  lemma BrokenReplySteps(cfg: Config, l: Link, r: Reply)
    requires l.replying == Some(r) && l.intact
    ensures Steps(cfg, l, [WriteReply(true), Cut(|l.toServer|, |l.toClient| + 1)])
         == Some(l.(replying := None, toClient := l.toClient + [r], intact := false))
  {
    var l' := l.(replying := None, toClient := l.toClient + [r]);
    var cut := Cut(|l.toServer|, |l.toClient| + 1);
    assert [WriteReply(true), cut] == [WriteReply(true)] + [cut];
    ThenSteps(cfg, l, WriteReply(true), l', [cut]);
    OneStep(cfg, l', cut);
    assert l'.toServer[..|l.toServer|] == l'.toServer && l'.toClient[..|l.toClient| + 1] == l'.toClient;
  }

  /** The steps of one round of the server's writer. */
  function ReplyEvents(l: Link, ok: bool): seq<Event>
  {
    if !l.intact then [WriteReply(ok)]
    else if ok then [WriteReply(true)]
    else [WriteReply(true), Cut(|l.toServer|, |l.toClient| + 1)]
  }

  /**
   * A round of the server's writer, as the contract of `WriteTo` has it, is a run of the connection's steps.
   * `data` is what the sink has taken and the client has not read yet. As long as the wire is sound it holds
   * exactly the replies on it; a reply that was written in part leaves a beginning of them, its own id perhaps
   * included, on a wire that is broken from then on.
   */
  lemma WriteReplyRuns(cfg: Config, l: Link, r: Reply, consumed: bytes, data: bytes, room: nat, sent': bytes, room': nat, ok: bool)
    requires l.replying == Some(r) && ReplyFits(r)
    requires l.intact ==> data == Stream(ReplyBytes, l.toClient)
    requires Wrote(consumed + data, room, ReplyBytes(r), sent', room', ok)
    ensures
      var run := Steps(cfg, l, ReplyEvents(l, ok));
      && run.Some? && run.value.replying == None && run.value.intact == (l.intact && ok)
      && run.value == l.(replying := None, toClient := run.value.toClient, intact := run.value.intact)
      && |consumed| <= |sent'| && sent'[..|consumed|] == consumed
      && (l.intact && ok ==> sent'[|consumed|..] == Stream(ReplyBytes, run.value.toClient))
      && (l.intact ==> ReplyWire(sent'[|consumed|..], run.value.toClient))
      && (!l.intact ==> run.value.toClient == l.toClient)
  {
    var data' := sent'[|consumed|..];
    Consumed(consumed, data, room, ReplyBytes(r), sent', room', ok);
    if !l.intact {
      OneStep(cfg, l, WriteReply(ok));
    } else {
      ReplySent(data, l.toClient, room, r, data', room', ok);
      if ok { OneStep(cfg, l, WriteReply(true)); } else { BrokenReplySteps(cfg, l, r); }
    }
  }

  /** Writing does not depend on how much of what was written before has been read. */
  lemma Consumed(consumed: bytes, data: bytes, room: nat, b: bytes, sent': bytes, room': nat, ok: bool)
    requires Wrote(consumed + data, room, b, sent', room', ok)
    ensures |consumed| <= |sent'| && sent'[..|consumed|] == consumed && Wrote(data, room, b, sent'[|consumed|..], room', ok)
  {
    assert sent' == consumed + (data + b[..Min(|b|, room)]);
  }

  /** The error text of the reply lies wholly in what has arrived. */
  predicate TextArrived(data: bytes, reply: Reply) { |data| >= 16 + |reply.body.err| }

  /** What the reader makes of the bytes on the wire, given what the request under the first id brings. */
  lemma ReplyArrives(data: bytes, replies: seq<Reply>, reading: Reading)
    requires ReplyWire(data, replies) && (forall r | r in replies :: ReplyFits(r)) && ReadU64(data).Got? && reading.rBuf == []
    ensures replies != [] && ReadU64(data).value == replies[0].id
    ensures
      var r, body := reading.Read(ReadU64(data).rest), replies[0].body;
      && r.err == (if TextArrived(data, replies[0]) then ErrorAfter(reading.err, body.err) else reading.err)
      && (r.status.Success? ==> TextArrived(data, replies[0]) && ReplyWire(r.rest, replies[1..])
                                && Outcome(reading.codec, reading.targets, body).0.Success?)
  {
    if replies != [] {
      var first, rest := ReplyBytes(replies[0]), Stream(ReplyBytes, replies[1..]);
      assert data == (first + rest)[..|data|];
      if |data| < |first| {
        assert data == first[..|data|];
        CutArrives(data, replies[0], reading);
      } else {
        var more := rest[..|data| - |first|];
        assert data == first + more && more <= rest;
        ReplyReading.WholeAfterId(replies[0], more);
        ReadsReply(reading.codec, reading.targets, reading.err, reading.payloadLen, reading.errLen, replies[0].body, more);
      }
    }
  }

  lemma CutArrives(data: bytes, reply: Reply, reading: Reading)
    requires ReplyFits(reply) && 8 <= |data| < |ReplyBytes(reply)| && data == ReplyBytes(reply)[..|data|] && reading.rBuf == []
    ensures ReadU64(data).Got? && ReadU64(data).value == reply.id
    ensures var r := reading.Read(ReadU64(data).rest);
            r.status.Failed? && r.err == if TextArrived(data, reply) then ErrorAfter(reading.err, reply.body.err) else reading.err
  {
    ReplyReading.CutAfterId(reply, |data|);
    CutReplyFails(reading.codec, reading.targets, reading.err, reading.payloadLen, reading.errLen, reply.body, |data| - 8);
  }

  /**
   * A round of the reader, as the contract of `ReadOne` has it, on bytes that are a beginning of the replies on
   * the wire, is a run of the connection's steps: it takes the same request from the table, leaves it with the
   * error that the step says, and a whole reply leaves the bytes of the others.
   */
  lemma ReadOneRuns(cfg: Config, l: Link, names: map<ClientRequest, Call>, pending: map<u64, ClientRequest>, requestId: u64,
                    data: bytes, reading: Reading)
    requires Shows(pending, requestId, names, l) && l.reader == Waiting
    requires ReplyWire(data, l.toClient) && (forall r | r in l.toClient :: ReplyFits(r)) && reading.rBuf == []
    requires ReadU64(data).Got? && ReadU64(data).value in pending ==>
      forall body :: cfg.decodes(names[pending[ReadU64(data).value]], body) <==> Outcome(reading.codec, reading.targets, body).0.Success?
    ensures ReadU64(data).Fail? ==> Steps(cfg, l, [FailRead]) == Some(l.(reader := ReaderDone(false)))
    ensures ReadU64(data).Got? ==> l.toClient != [] && l.toClient[0].id == ReadU64(data).value
    ensures ReadU64(data).Got? && ReadU64(data).value !in pending ==>
      Steps(cfg, l, [ReadId, Match]) == Some(l.(toClient := l.toClient[1..], reader := ReaderDone(true)))
    ensures ReadU64(data).Got? && ReadU64(data).value in pending ==>
      var id, r, reply := ReadU64(data).value, reading.Read(ReadU64(data).rest), l.toClient[0];
      var l' := l.(toClient := l.toClient[1..], pending := l.pending - {id},
                   reader := if r.status.Success? then Waiting else ReaderDone(false));
      && Steps(cfg, l, [ReadId, Match, CountDown, ReadBody(r.status.Success?, TextArrived(data, reply))]) == Some(l')
      && Shows(pending - {id}, requestId, names, l')
      && r.err == (if TextArrived(data, reply) then ErrorAfter(reading.err, reply.body.err) else reading.err)
      && (r.status.Success? ==> ReplyWire(r.rest, l'.toClient))
  {
    if ReadU64(data).Fail? {
      OneStep(cfg, l, FailRead);
    } else {
      ReplyArrives(data, l.toClient, reading);
      var id := ReadU64(data).value;
      if id !in pending {
        var l' := Step(cfg, l, ReadId).value;
        assert [ReadId, Match] == [ReadId] + [Match];
        ThenSteps(cfg, l, ReadId, l', [Match]);
        OneStep(cfg, l', Match);
      } else {
        ReplySteps(cfg, l, reading.Read(ReadU64(data).rest).status.Success?, TextArrived(data, l.toClient[0]));
      }
    }
  }

  lemma ReplySteps(cfg: Config, l: Link, ok: bool, taken: bool)
    requires l.reader == Waiting && l.toClient != [] && l.toClient[0].id in l.pending
    requires ok ==> taken && cfg.decodes(l.pending[l.toClient[0].id], l.toClient[0].body)
    ensures Steps(cfg, l, [ReadId, Match, CountDown, ReadBody(ok, taken)])
         == Some(l.(toClient := l.toClient[1..], pending := l.pending - {l.toClient[0].id},
                    reader := if ok then Waiting else ReaderDone(false)))
  {
    var l1 := Step(cfg, l, ReadId).value;
    var l2 := Step(cfg, l1, Match).value;
    var last := [CountDown, ReadBody(ok, taken)];
    assert [ReadId, Match, CountDown, ReadBody(ok, taken)] == [ReadId] + ([Match] + last);
    ThenSteps(cfg, l, ReadId, l1, [Match] + last);
    ThenSteps(cfg, l1, Match, l2, last);
    LastReplySteps(cfg, l2, ok, taken);
  }

  lemma LastReplySteps(cfg: Config, l: Link, ok: bool, taken: bool)
    requires l.reader.Discounting? && (ok ==> taken && cfg.decodes(l.reader.call, l.reader.reply.body))
    ensures Steps(cfg, l, [CountDown, ReadBody(ok, taken)]) == Some(l.(reader := if ok then Waiting else ReaderDone(false)))
  {
    var l' := l.(reader := Filling(l.reader.call, l.reader.reply));
    assert [CountDown, ReadBody(ok, taken)] == [CountDown] + [ReadBody(ok, taken)];
    ThenSteps(cfg, l, CountDown, l', [ReadBody(ok, taken)]);
    OneStep(cfg, l', ReadBody(ok, taken));
  }

  // ----- the teardown -----

  function ReleaseEvents(ids: seq<u64>): seq<Event>
  {
    if ids == [] then [Finish] else [Release(ids[0]), CountRelease] + ReleaseEvents(ids[1..])
  }

  /**
   * The loop of `ReleaseAll`, over the pending ids in any order, is a run of the connection's steps: everything
   * is released, and the connection is gone.
   */
  lemma {:induction false} ReleaseAllRuns(cfg: Config, l: Link, ids: seq<u64>)
    requires l.main.Releasing? && (forall id :: id in ids <==> id in l.pending) && NoRepeats(ids)
    ensures Steps(cfg, l, ReleaseEvents(ids)) == Some(l.(pending := map[], main := Gone))
    decreases |ids|
  {
    if ids == [] {
      assert l.pending == map[];
      OneStep(cfg, l, Finish);
    } else {
      assert ids[0] in ids;
      ReleaseSteps(cfg, l, ids[0], ReleaseEvents(ids[1..]));
      assert ReleaseEvents(ids) == [Release(ids[0])] + ([CountRelease] + ReleaseEvents(ids[1..]));
      var l2 := l.(pending := l.pending - {ids[0]});
      RestReleased(l.pending, ids);
      ReleaseAllRuns(cfg, l2, ids[1..]);
    }
  }

  lemma ReleaseSteps(cfg: Config, l: Link, id: u64, more: seq<Event>)
    requires l.main.Releasing? && id in l.pending
    ensures Steps(cfg, l, [Release(id)] + ([CountRelease] + more)) == Steps(cfg, l.(pending := l.pending - {id}), more)
  {
    var l2 := l.(pending := l.pending - {id});
    var l1 := l2.(main := Owing(l.pending[id], l.main.cause));
    ThenSteps(cfg, l, Release(id), l1, [CountRelease] + more);
    ThenSteps(cfg, l1, CountRelease, l2, more);
  }

  lemma RestReleased(pending: map<u64, Call>, ids: seq<u64>)
    requires (forall id :: id in ids <==> id in pending) && NoRepeats(ids) && ids != []
    ensures (forall id :: id in ids[1..] <==> id in pending - {ids[0]}) && NoRepeats(ids[1..])
  {
    assert ids == [ids[0]] + ids[1..];
  }
}
