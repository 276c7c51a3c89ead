/** What the goroutines of one client connection do with the objects that they share (client.go:262-425). */
module ClientConnections {
  import opened Bytes
  import opened ClientRequests
  import opened Codecs
  import opened Frames
  import opened GoInts
  import opened IO
  import opened Links
  import opened Systems
  import opened Wrappers

  /** `Client.requestsCount`. */
  class Counter {
    var count: u64

    constructor ()
      ensures count == 0
    {
      count := 0;
    }

    method Add()
      modifies this
      ensures count == Plus1(old(count))
    {
      count := Plus1(count);
    }

    method Subtract()
      modifies this
      ensures count == Minus1(old(count))
    {
      count := Minus1(count);
    }
  }

  /** How many ids the search has passed when it comes from `start` to `j`. */
  function Offset(start: u64, j: u64): nat { if j >= start then j - start else j - start + TWO64 }

  lemma FoundIsNextFree(keys: set<u64>, start: u64, id: u64)
    requires id !in keys && forall j: u64 | Offset(start, j) < Offset(start, id) :: j in keys
    ensures NextFree(keys, start, id)
  {
    forall j: u64 | start <= j && (j < id || id < start) ensures j in keys { assert Offset(start, j) < Offset(start, id); }
    if id < start {
      forall j: u64 | j < id ensures j in keys { assert Offset(start, j) < Offset(start, id); }
    }
  }

  /** How the writer's round for one request ends. */
  datatype Written = Returned | Sent | Overflow | Broken

  /** How the reader's round for one reply ends. */
  datatype Answer = Answered(request: ClientRequest) | Unread(request: ClientRequest) | Unexpected(id: u64) | NoMore

  /** What a pending request brings to the reading of its reply. */
  datatype Reading = Reading(codec: Codec, targets: seq<Type>, err: Option<bytes>, payloadLen: u64, rBuf: bytes, errLen: u64) {
    function Read(s: bytes): (r: ReplyRead)
      ensures |r.rest| <= |s|
    {
      ReadTakes(codec, targets, err, payloadLen, rBuf, errLen, s);
      ReadReply(codec, targets, err, payloadLen, rBuf, errLen, s)
    }
  }

  ghost function ReadingOf(q: ClientRequest): Reading
    reads q
  {
    Reading(q.codec, q.reply, q.err, q.payloadLen, q.rBuf, q.errLen)
  }

  /** The writer's round seen from the table: what it did to it, and how it ended. */
  ghost predicate WriterRound(limit: nat, cancelled: bool, skip: bool, pending: map<u64, ClientRequest>, requestId: u64,
                              request: ClientRequest, pending': map<u64, ClientRequest>, requestId': u64, r: Written)
  {
    if cancelled then pending' == pending && requestId' == requestId && r == Returned
    else if skip then pending' == pending && requestId' == requestId && (r == Returned || r == Broken)
    else
      && NextFree(pending.Keys, FirstId(requestId), requestId') && pending' == pending[requestId' := request]
      && if |pending| > limit then r == Overflow else r == Sent || r == Broken
  }

  class Connection {
    const limit: nat
    const counter: Counter
    var pending: map<u64, ClientRequest>
    var requestId: u64

    constructor (limit: nat, counter: Counter)
      ensures this.limit == limit && this.counter == counter && pending == map[] && requestId == 0
    {
      this.limit, this.counter := limit, counter;
      pending, requestId := map[], 0;
    }

    /**
     * The registration under the lock (client.go:376-392). The search ends as long as some id is free, and
     * finds the first free id from the last one on.
     */
    method Register(request: ClientRequest) returns (seen: nat)
      requires |pending| < TWO64
      modifies this
      ensures seen == |old(pending)|
      ensures NextFree(old(pending).Keys, FirstId(old(requestId)), requestId)
      ensures pending == old(pending)[requestId := request]
    {
      if requestId == 0 {
        requestId := 1;
      }
      seen := |pending|;
      ghost var start := requestId;
      ghost var passed: set<u64> := {};
      while requestId in pending
        invariant pending == old(pending) && passed <= pending.Keys && |passed| == Offset(start, requestId)
        invariant forall j: u64 :: j in passed <==> Offset(start, j) < Offset(start, requestId)
        decreases |pending| - |passed|
      {
        passed := passed + {requestId};
        Within(passed, pending.Keys);
        requestId := Plus1(requestId);
      }
      FoundIsNextFree(pending.Keys, start, requestId);
      pending := pending[requestId := request];
    }

    /** What the writer needs of a request that it received. */
    ghost predicate Writable(request: ClientRequest)
      reads this, request
    {
      && request.nameLen == |request.name| && request.wBuf == [] && request.done == 0 && !request.closed
      && |Payload(request.codec, request.name, request.args)| < TWO63
      && |pending| < TWO64
    }

    /**
     * The writer's round (client.go:363-422): a cancelled request is recycled unsent; any other is
     * registered and counted unless nobody waits for its reply, and then its frame is written, with the id
     * that it was registered under or with 0.
     */
    method WriteOne(request: ClientRequest, sink: Sink) returns (r: Written)
      requires Writable(request)
      modifies this, counter, request, sink
      ensures var id := if old(request.skip) then 0 else requestId;
              if old(request.err).Some? then r == Returned && request.Blank() && unchanged(this, counter, sink)
              else if !old(request.skip) && |old(pending)| > limit
              then r == Overflow && unchanged(sink) && Registered(old(pending), old(requestId), old(counter.count), request)
              else && (if old(request.skip) then unchanged(this, counter)
                       else Registered(old(pending), old(requestId), old(counter.count), request))
                   && WroteRequest(old(sink.sent), old(sink.room), Frame(id, old(Payload(request.codec, request.name, request.args))),
                                   old(Encodes(request.codec, request.args)), sink, r != Broken)
                   && (r == Returned ==> request.Blank())
      ensures WriterRound(limit, old(request.err).Some?, old(request.skip), old(pending), old(requestId), request, pending, requestId, r)
      ensures r == Returned <==> old(request.err).Some? || (old(request.skip) && r != Broken)
    {
      if request.err.Some? {
        request.Reset();
        return Returned;
      }
      var id: u64 := 0;
      if !request.skip {
        var seen := Register(request);
        counter.Add();
        if seen > limit {
          return Overflow;
        }
        id := requestId;
      }
      var ok := WriteFrame(id, request, sink);
      if !ok {
        return Broken;
      }
      if request.skip {
        request.Reset();
        return Returned;
      }
      r := Sent;
    }

    /** The request is in the table under the first free id, and counted. */
    ghost predicate Registered(pending': map<u64, ClientRequest>, requestId': u64, count': u64, request: ClientRequest)
      reads this, counter
    {
      && NextFree(pending'.Keys, FirstId(requestId'), requestId)
      && pending == pending'[requestId := request]
      && counter.count == Plus1(count')
    }

    /** The request that the next reply on this stream is for. */
    ghost function Addressee(data: bytes): set<ClientRequest>
      reads this
    {
      if ReadU64(data).Got? && ReadU64(data).value in pending then {pending[ReadU64(data).value]} else {}
    }

    /** The reader's round (client.go:300-323): the reply goes to the request pending under its id, and to no other. */
    method ReadOne(source: Source) returns (a: Answer)
      requires forall id | id in pending :: pending[id].done == 0 && !pending[id].closed
      modifies this`pending, counter, source, Addressee(source.data)
      ensures ReadU64(old(source.data)).Fail? ==> a == NoMore && unchanged(this, counter)
      ensures ReadU64(old(source.data)).Got? ==>
        var id, rest := ReadU64(old(source.data)).value, ReadU64(old(source.data)).rest;
        if id !in old(pending) then a == Unexpected(id) && unchanged(this, counter)
        else
          && pending == old(pending) - {id} && counter.count == Minus1(old(counter.count))
          && AnswerRead(old(pending)[id], old(ReadingOf(pending[ReadU64(source.data).value])), rest, source, a)
    {
      var id := source.ReadNumber();
      if id.Fail? { return NoMore; }
      if id.value !in pending { return Unexpected(id.value); }
      var request := pending[id.value];
      assert request in pending.Values;
      pending := pending - {id.value};
      counter.Subtract();
      var status := request.ReadFrom(source);
      a := if status == Success then Answered(request) else Unread(request);
    }
  }

  /** The request has got its token, and what `ReadReply` makes of the rest of the stream. */
  ghost predicate AnswerRead(q: ClientRequest, reading: Reading, rest: bytes, source: Source, a: Answer)
    reads q, source
  {
    var r := reading.Read(rest);
    && q.done == 1
    && ReplyRead(r.status, q.err, q.errLen, q.payloadLen, q.rBuf, q.replied, source.data) == r
    && a == if r.status == Success then Answered(q) else Unread(q)
  }

  /** A counter after `n` subtractions, which wrap around below zero. */
  function Less(count: u64, n: int): u64 { (count - n) % TWO64 }

  lemma LessByOne(count: u64, n: int)
    ensures Minus1(Less(count, n)) == Less(count, n + 1)
    ensures 0 <= n <= count ==> Less(count, n) == count - n
  {
  }

  /**
   * The teardown loop (client.go:262-269), when both goroutines are gone: every request left in the table
   * gets the error and its channel closed, once, and is discounted.
   */
  method ReleaseAll(pending: map<u64, ClientRequest>, error: Option<bytes>, counter: Counter)
    requires forall id | id in pending :: !pending[id].closed
    requires forall id, id' | id in pending && id' in pending && pending[id] == pending[id'] :: id == id'
    modifies counter, pending.Values
    ensures forall id | id in pending :: Released(pending[id], error) && pending[id].done == old(pending[id].done)
    ensures counter.count == Less(old(counter.count), |pending|)
  {
    var todo := pending.Keys;
    assert |todo| == |pending|;
    LessByOne(counter.count, 0);
    while todo != {}
      invariant todo <= pending.Keys
      invariant forall id | id in pending - todo :: Released(pending[id], error) && pending[id].done == old(pending[id].done)
      invariant forall id | id in todo :: !pending[id].closed && pending[id].done == old(pending[id].done)
      invariant counter.count == Less(old(counter.count), |pending| - |todo|)
      decreases |todo|
    {
      var id :| id in todo;
      assert pending[id] in pending.Values;
      ReleaseOne(pending[id], error, counter);
      LessByOne(old(counter.count), |pending| - |todo|);
      todo := todo - {id};
    }
  }

  method ReleaseOne(r: ClientRequest, error: Option<bytes>, counter: Counter)
    requires !r.closed
    modifies r`err, r`closed, counter
    ensures Released(r, error) && counter.count == Minus1(old(counter.count))
  {
    r.err := error;
    r.Close();
    counter.Subtract();
  }

  ghost predicate Released(r: ClientRequest, error: Option<bytes>)
    reads r
  {
    r.closed && r.err == error
  }

  // ----- these are the steps of `Links` -----

  /** The table holds the requests of the calls that `l` has pending. */
  ghost predicate Shows(pending: map<u64, ClientRequest>, requestId: u64, names: map<ClientRequest, Call>, l: Link)
  {
    && l.requestId == requestId && l.pending.Keys == pending.Keys
    && forall id | id in pending :: pending[id] in names && l.pending[id] == names[pending[id]]
  }

  lemma RegisterRefines(cfg: Config, l: Link, names: map<ClientRequest, Call>, pending: map<u64, ClientRequest>,
                        requestId: u64, request: ClientRequest, id: u64)
    requires Shows(pending, requestId, names, l) && request in names && l.writer == Registering(names[request])
    requires NextFree(pending.Keys, FirstId(requestId), id)
    ensures Step(cfg, l, Register(id)).Some?
    ensures var l' := Step(cfg, l, Register(id)).value;
            Shows(pending[id := request], id, names, l') && l'.writer == Counting(names[request], id, |pending|)
  {
    assert |l.pending| == |l.pending.Keys| == |pending.Keys| == |pending|;
  }

  lemma TakeRefines(cfg: Config, l: Link, names: map<ClientRequest, Call>, pending: map<u64, ClientRequest>, requestId: u64)
    requires Shows(pending, requestId, names, l) && l.reader.Matching?
    ensures Step(cfg, l, Match).Some?
    ensures var l', id := Step(cfg, l, Match).value, l.reader.reply.id;
            if id in pending
            then Shows(pending - {id}, requestId, names, l') && l'.reader == Discounting(names[pending[id]], l.reader.reply)
            else Shows(pending, requestId, names, l') && l'.reader == ReaderDone(true)
  {
  }

  lemma Within(a: set<u64>, b: set<u64>)
    requires a <= b
    ensures |a| <= |b|
  {
    assert b == a + (b - a);
  }
}
