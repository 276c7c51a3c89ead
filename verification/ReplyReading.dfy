/** The client's reading loop over a whole stream of replies, cut at any point (client.go:293-325). */
module ReplyReading {
  import opened Bytes
  import opened ClientConnections
  import opened ClientRequests
  import opened Codecs
  import opened Frames
  import opened GoInts
  import opened IO
  import opened Streams

  /** How the loop ends: at the end of the stream, with an id that is not pending, or with a reply it cannot read. */
  datatype End = Ended | Stray(id: u64) | Failing(id: u64, read: ReplyRead)

  datatype StreamRead = StreamRead(answers: seq<(u64, ReplyRead)>, end: End)

  /** The loop as a function of the stream, with the requests pending under the ids in `open`. */
  ghost function ReadStream(readings: map<u64, Reading>, open: set<u64>, s: bytes): StreamRead
    requires open <= readings.Keys
    decreases |s|
  {
    var id := ReadU64(s);
    if id.Fail? then StreamRead([], Ended)
    else if id.value !in open then StreamRead([], Stray(id.value))
    else
      var r := readings[id.value].Read(id.rest);
      if r.status != Success then StreamRead([], Failing(id.value, r))
      else
        var more := ReadStream(readings, open - {id.value}, r.rest);
        StreamRead([(id.value, r)] + more.answers, more.end)
  }

  // ----- what the loop makes of a stream of replies -----

  /** How many of the replies decode into the targets of their requests before one does not. */
  function Decodable(readings: map<u64, Reading>, replies: seq<Reply>): nat
    requires forall r | r in replies :: r.id in readings
  {
    if replies == [] || Outcome(readings[replies[0].id].codec, readings[replies[0].id].targets, replies[0].body).0 != Success then 0
    else 1 + Decodable(readings, replies[1..])
  }

  /** The replies answer different requests, all of them pending and not yet read into. */
  ghost predicate Expected(readings: map<u64, Reading>, open: set<u64>, replies: seq<Reply>)
  {
    && open <= readings.Keys
    && (forall r | r in replies :: ReplyFits(r) && r.id in open && readings[r.id].rBuf == [])
    && (forall i, j | 0 <= i < j < |replies| :: replies[i].id != replies[j].id)
  }

  /** The request has got this reply: its results and its error text. */
  ghost predicate Completes(reading: Reading, reply: Reply, r: ReplyRead)
  {
    var (status, _, values) := Outcome(reading.codec, reading.targets, reply.body);
    status == Success && r.status == Success && r.values == values && r.err == ErrorAfter(reading.err, reply.body.err)
  }

  lemma TailExpected(readings: map<u64, Reading>, open: set<u64>, replies: seq<Reply>)
    requires Expected(readings, open, replies) && replies != []
    ensures Expected(readings, open - {replies[0].id}, replies[1..])
  {
    forall r | r in replies[1..] ensures r in replies && r.id != replies[0].id {
      var i :| 0 <= i < |replies| - 1 && replies[1..][i] == r;
      assert replies[i + 1] == r;
    }
  }

  /** The first reply of a stream of which more than that has arrived. */
  lemma FirstWhole(readings: map<u64, Reading>, open: set<u64>, reply: Reply, more: bytes)
    requires ReplyFits(reply) && reply.id in open && open <= readings.Keys && readings[reply.id].rBuf == []
    ensures var s, reading := ReplyBytes(reply) + more, readings[reply.id];
            ReadU64(s).Got? && ReadU64(s).value == reply.id &&
            var r := reading.Read(ReadU64(s).rest);
            r.rest == more && r.status == Outcome(reading.codec, reading.targets, reply.body).0
            && (r.status == Success ==> Completes(reading, reply, r))
  {
    WholeAfterId(reply, more);
    var reading := readings[reply.id];
    ReadsReply(reading.codec, reading.targets, reading.err, reading.payloadLen, reading.errLen, reply.body, more);
  }

  lemma WholeAfterId(reply: Reply, more: bytes)
    requires ReplyFits(reply)
    ensures ReadU64(ReplyBytes(reply) + more) == Read.Got(reply.id, Chunk(reply.body.err) + Chunk(reply.body.out) + more)
  {
    assert ReplyBytes(reply) + more == U64(reply.id) + (Chunk(reply.body.err) + Chunk(reply.body.out) + more);
    ReadU64At(reply.id, Chunk(reply.body.err) + Chunk(reply.body.out) + more);
  }

  /** The first reply of a stream that broke within it completes nobody. */
  lemma FirstCut(readings: map<u64, Reading>, open: set<u64>, reply: Reply, n: nat)
    requires ReplyFits(reply) && reply.id in open && open <= readings.Keys && readings[reply.id].rBuf == []
    requires n < |ReplyBytes(reply)|
    ensures var read := ReadStream(readings, open, ReplyBytes(reply)[..n]);
            read.answers == [] && !read.end.Stray?
  {
    var s := ReplyBytes(reply)[..n];
    if n >= 8 {
      CutAfterId(reply, n);
      CutReadingFails(readings[reply.id], reply.body, n - 8);
    } else {
      assert |s| == n;
    }
    ReadsNothing(readings, open, s);
  }

  lemma ReadsNothing(readings: map<u64, Reading>, open: set<u64>, s: bytes)
    requires open <= readings.Keys
    requires ReadU64(s).Got? ==> ReadU64(s).value in open && !readings[ReadU64(s).value].Read(ReadU64(s).rest).status.Success?
    ensures ReadStream(readings, open, s).answers == [] && !ReadStream(readings, open, s).end.Stray?
  {
  }

  lemma CutAfterId(reply: Reply, n: nat)
    requires ReplyFits(reply) && 8 <= n < |ReplyBytes(reply)|
    ensures n - 8 < |Chunk(reply.body.err) + Chunk(reply.body.out)|
    ensures ReadU64(ReplyBytes(reply)[..n]) == Read.Got(reply.id, (Chunk(reply.body.err) + Chunk(reply.body.out))[..n - 8])
  {
    var rest := Chunk(reply.body.err) + Chunk(reply.body.out);
    assert ReplyBytes(reply) == U64(reply.id) + rest;
    assert (U64(reply.id) + rest)[..n] == U64(reply.id) + rest[..n - 8];
    ReadU64At(reply.id, rest[..n - 8]);
  }

  lemma CutReadingFails(reading: Reading, body: Body, n: nat)
    requires Sendable(body.err) && Sendable(body.out) && n < |Chunk(body.err) + Chunk(body.out)| && reading.rBuf == []
    ensures reading.Read((Chunk(body.err) + Chunk(body.out))[..n]).status.Failed?
  {
    CutReplyFails(reading.codec, reading.targets, reading.err, reading.payloadLen, reading.errLen, body, n);
  }

  /** These are the requests that are completed when `n` bytes of the replies arrive, each with its own reply. */
  ghost predicate CompletesWhole(readings: map<u64, Reading>, replies: seq<Reply>, n: nat, read: StreamRead)
    requires forall r | r in replies :: r.id in readings
  {
    && |read.answers| == Min(Whole(ReplyBytes, replies, n), Decodable(readings, replies))
    && (forall i | 0 <= i < |read.answers| ::
         read.answers[i].0 == replies[i].id && Completes(readings[replies[i].id], replies[i], read.answers[i].1))
    && !read.end.Stray?
  }

  lemma CompletesFirst(readings: map<u64, Reading>, replies: seq<Reply>, n: nat, r: ReplyRead, more: StreamRead)
    requires replies != [] && (forall r | r in replies :: r.id in readings) && n >= |ReplyBytes(replies[0])|
    requires forall r | r in replies[1..] :: r.id in readings
    requires CompletesWhole(readings, replies[1..], n - |ReplyBytes(replies[0])|, more)
    requires Completes(readings[replies[0].id], replies[0], r)
    ensures CompletesWhole(readings, replies, n, StreamRead([(replies[0].id, r)] + more.answers, more.end))
  {
    var read := StreamRead([(replies[0].id, r)] + more.answers, more.end);
    forall i | 0 <= i < |read.answers|
      ensures read.answers[i].0 == replies[i].id && Completes(readings[replies[i].id], replies[i], read.answers[i].1)
    {
      if i > 0 { assert read.answers[i] == more.answers[i - 1] && replies[1..][i - 1] == replies[i]; }
    }
  }

  /**
   * Round trip and truncation of replies, through the client's own decoder: whatever prefix of the server's
   * stream arrives, exactly the requests are completed whose replies lie wholly inside it, up to the first
   * reply that does not decode; each has its own results and error text, and no message is unexpected.
   */
  lemma {:induction false} ReplyStreamRead(readings: map<u64, Reading>, open: set<u64>, replies: seq<Reply>, n: nat)
    requires Expected(readings, open, replies) && n <= |Stream(ReplyBytes, replies)|
    ensures CompletesWhole(readings, replies, n, ReadStream(readings, open, Stream(ReplyBytes, replies)[..n]))
  {
    if replies != [] {
      var first, rest := ReplyBytes(replies[0]), Stream(ReplyBytes, replies[1..]);
      assert replies[0] in replies;
      CutBehind(first, rest, n);
      if n < |first| {
        FirstCut(readings, open, replies[0], n);
        CompletesNone(readings, replies, n, ReadStream(readings, open, first[..n]));
      } else {
        TailExpected(readings, open, replies);
        ReplyStreamRead(readings, open - {replies[0].id}, replies[1..], n - |first|);
        FirstRead(readings, open, replies, n, rest[..n - |first|]);
      }
    }
  }

  lemma CutBehind(first: bytes, rest: bytes, n: nat)
    requires n <= |first + rest|
    ensures (first + rest)[..n] == if n < |first| then first[..n] else first + rest[..n - |first|]
  {
  }

  lemma CompletesNone(readings: map<u64, Reading>, replies: seq<Reply>, n: nat, read: StreamRead)
    requires (forall r | r in replies :: r.id in readings) && replies != [] && n < |ReplyBytes(replies[0])|
    requires read.answers == [] && !read.end.Stray?
    ensures CompletesWhole(readings, replies, n, read)
  {
  }

  lemma FirstRead(readings: map<u64, Reading>, open: set<u64>, replies: seq<Reply>, n: nat, more: bytes)
    requires replies != [] && Expected(readings, open, replies) && Expected(readings, open - {replies[0].id}, replies[1..])
    requires n >= |ReplyBytes(replies[0])|
    requires CompletesWhole(readings, replies[1..], n - |ReplyBytes(replies[0])|, ReadStream(readings, open - {replies[0].id}, more))
    ensures CompletesWhole(readings, replies, n, ReadStream(readings, open, ReplyBytes(replies[0]) + more))
  {
    var s, reading := ReplyBytes(replies[0]) + more, readings[replies[0].id];
    FirstWhole(readings, open, replies[0], more);
    var r := reading.Read(ReadU64(s).rest);
    if r.status == Success {
      CompletesFirst(readings, replies, n, r, ReadStream(readings, open - {replies[0].id}, more));
    }
  }

  // ----- ids used again within a stream -----

  /**
   * The loop with the writer's registrations between its rounds: `tables[k]` is what is pending when round `k`
   * takes the lock, so that an id that was read may be there again, for another request.
   */
  ghost function ReadRounds(tables: seq<map<u64, Reading>>, s: bytes): StreamRead
    decreases |tables|
  {
    var n := ReadU64(s);
    if tables == [] || n.Fail? then StreamRead([], Ended)
    else if n.value !in tables[0] then StreamRead([], Stray(n.value))
    else
      var r := tables[0][n.value].Read(n.rest);
      if r.status != Success then StreamRead([], Failing(n.value, r))
      else
        var more := ReadRounds(tables[1..], r.rest);
        StreamRead([(n.value, r)] + more.answers, more.end)
  }

  /** Each reply answers a request that is pending in its round and not yet read into. */
  ghost predicate ExpectedEach(tables: seq<map<u64, Reading>>, replies: seq<Reply>)
  {
    && |replies| <= |tables|
    && forall k | 0 <= k < |replies| ::
         ReplyFits(replies[k]) && replies[k].id in tables[k] && tables[k][replies[k].id].rBuf == []
  }

  /** How many of the replies decode into the targets of their requests before one does not. */
  function DecodableEach(tables: seq<map<u64, Reading>>, replies: seq<Reply>): (n: nat)
    requires |replies| <= |tables| && forall k | 0 <= k < |replies| :: replies[k].id in tables[k]
    decreases |replies|
    ensures n <= |replies|
  {
    if replies == [] then 0
    else
      var reading := tables[0][replies[0].id];
      if Outcome(reading.codec, reading.targets, replies[0].body).0 != Success then 0
      else
        assert forall k | 0 <= k < |replies| - 1 :: replies[1..][k] == replies[k + 1] && tables[1..][k] == tables[k + 1];
        1 + DecodableEach(tables[1..], replies[1..])
  }

  /** The requests completed by the first `n` bytes, each with the reply of its own round. */
  ghost predicate CompletesEach(tables: seq<map<u64, Reading>>, replies: seq<Reply>, n: nat, read: StreamRead)
    requires |replies| <= |tables| && forall k | 0 <= k < |replies| :: replies[k].id in tables[k]
  {
    && |read.answers| == Min(Whole(ReplyBytes, replies, n), DecodableEach(tables, replies))
    && (forall i | 0 <= i < |read.answers| ::
         read.answers[i].0 == replies[i].id && Completes(tables[i][replies[i].id], replies[i], read.answers[i].1))
    && !read.end.Stray?
  }

  lemma LaterExpected(tables: seq<map<u64, Reading>>, replies: seq<Reply>)
    requires ExpectedEach(tables, replies) && replies != []
    ensures ExpectedEach(tables[1..], replies[1..])
  {
    forall k | 0 <= k < |replies| - 1
      ensures ReplyFits(replies[1..][k]) && replies[1..][k].id in tables[1..][k] && tables[1..][k][replies[1..][k].id].rBuf == []
    {
      assert replies[1..][k] == replies[k + 1] && tables[1..][k] == tables[k + 1];
    }
  }

  /**
   * The law of the stream when ids are used again: with any registrations between the rounds, each request is
   * completed by the reply of the round in which it is pending under that id, whatever the id was used for before.
   */
  lemma {:induction false} ReusedIdsRead(tables: seq<map<u64, Reading>>, replies: seq<Reply>, n: nat)
    requires ExpectedEach(tables, replies) && n <= |Stream(ReplyBytes, replies)|
    ensures CompletesEach(tables, replies, n, ReadRounds(tables, Stream(ReplyBytes, replies)[..n]))
    decreases |replies|
  {
    if replies != [] {
      var first, rest := ReplyBytes(replies[0]), Stream(ReplyBytes, replies[1..]);
      CutBehind(first, rest, n);
      if n < |first| {
        RoundCut(tables, replies, n);
      } else {
        LaterExpected(tables, replies);
        ReusedIdsRead(tables[1..], replies[1..], n - |first|);
        RoundRead(tables, replies, n, rest[..n - |first|]);
      }
    } else {
      assert Stream(ReplyBytes, replies)[..n] == [];
    }
  }

  lemma RoundCut(tables: seq<map<u64, Reading>>, replies: seq<Reply>, n: nat)
    requires ExpectedEach(tables, replies) && replies != [] && n < |ReplyBytes(replies[0])|
    ensures CompletesEach(tables, replies, n, ReadRounds(tables, ReplyBytes(replies[0])[..n]))
  {
    var s := ReplyBytes(replies[0])[..n];
    if n >= 8 {
      CutAfterId(replies[0], n);
      CutReadingFails(tables[0][replies[0].id], replies[0].body, n - 8);
    } else {
      assert |s| == n;
    }
  }

  lemma RoundRead(tables: seq<map<u64, Reading>>, replies: seq<Reply>, n: nat, more: bytes)
    requires ExpectedEach(tables, replies) && replies != [] && ExpectedEach(tables[1..], replies[1..])
    requires n >= |ReplyBytes(replies[0])|
    requires CompletesEach(tables[1..], replies[1..], n - |ReplyBytes(replies[0])|, ReadRounds(tables[1..], more))
    ensures CompletesEach(tables, replies, n, ReadRounds(tables, ReplyBytes(replies[0]) + more))
  {
    var s := ReplyBytes(replies[0]) + more;
    FirstWhole(tables[0], tables[0].Keys, replies[0], more);
    var r := tables[0][replies[0].id].Read(ReadU64(s).rest);
    if r.status == Success {
      FirstOfEach(tables, replies, n, r, ReadRounds(tables[1..], more));
    }
  }

  lemma FirstOfEach(tables: seq<map<u64, Reading>>, replies: seq<Reply>, n: nat, r: ReplyRead, more: StreamRead)
    requires ExpectedEach(tables, replies) && replies != [] && ExpectedEach(tables[1..], replies[1..])
    requires n >= |ReplyBytes(replies[0])|
    requires CompletesEach(tables[1..], replies[1..], n - |ReplyBytes(replies[0])|, more)
    requires Completes(tables[0][replies[0].id], replies[0], r)
    ensures CompletesEach(tables, replies, n, StreamRead([(replies[0].id, r)] + more.answers, more.end))
  {
    var read := StreamRead([(replies[0].id, r)] + more.answers, more.end);
    forall i | 0 <= i < |read.answers|
      ensures read.answers[i].0 == replies[i].id && Completes(tables[i][replies[i].id], replies[i], read.answers[i].1)
    {
      if i > 0 { assert read.answers[i] == more.answers[i - 1] && replies[1..][i - 1] == replies[i] && tables[1..][i - 1] == tables[i]; }
    }
  }

  // ----- the loop -----

  /** The requests under these ids are unread and as they were. */
  ghost predicate Unchanged(pending: map<u64, ClientRequest>, readings: map<u64, Reading>)
    reads pending.Values
  {
    forall id | id in pending :: id in readings && ReadingOf(pending[id]) == readings[id] && pending[id].done == 0 && !pending[id].closed
  }

  ghost predicate Distinct(pending: map<u64, ClientRequest>)
  {
    forall id, id' | id in pending && id' in pending && pending[id] == pending[id'] :: id == id'
  }

  /** The request ended its reading with this, and with a token in `done`. */
  ghost predicate Filled(q: ClientRequest, r: ReplyRead)
    reads q
  {
    q.done == 1 && q.err == r.err && q.replied == r.values && q.errLen == r.errLen && q.payloadLen == r.payloadLen && q.rBuf == r.rBuf
  }

  /** `answers` have been delivered and `more` is still to come. */
  function After(answers: seq<(u64, ReplyRead)>, more: StreamRead): StreamRead
  {
    StreamRead(answers + more.answers, more.end)
  }

  /** How far the loop has come from the table `before`: what is still pending is unread, what is not is filled. */
  ghost predicate Progress(before: map<u64, ClientRequest>, readings: map<u64, Reading>, now: map<u64, ClientRequest>,
                           answers: seq<(u64, ReplyRead)>, completed: seq<ClientRequest>)
    reads now.Values, completed
  {
    && now.Keys <= before.Keys && (forall id | id in now :: now[id] == before[id])
    && Unchanged(now, readings)
    && |completed| == |answers|
    && (forall i | 0 <= i < |completed| ::
         && answers[i].0 in before && answers[i].0 !in now
         && completed[i] == before[answers[i].0] && Filled(completed[i], answers[i].1))
  }

  /** One round of the loop. */
  method ReadNext(connection: Connection, source: Source, ghost before: map<u64, ClientRequest>, ghost readings: map<u64, Reading>,
                  ghost answers: seq<(u64, ReplyRead)>, completed: seq<ClientRequest>)
    returns (ok: bool, completed': seq<ClientRequest>, ghost answers': seq<(u64, ReplyRead)>)
    requires Distinct(before) && Progress(before, readings, connection.pending, answers, completed)
    modifies connection`pending, connection.counter, source, connection.Addressee(source.data)
    ensures Progress(before, readings, connection.pending, answers', completed')
    ensures
      var n, open := ReadU64(old(source.data)), old(connection.pending).Keys;
      if n.Fail? || n.value !in open
      then !ok && answers' == answers && connection.pending == old(connection.pending)
      else n.value in readings && connection.pending.Keys == open - {n.value} &&
           var r := readings[n.value].Read(n.rest);
           if r.status == Success then ok && source.data == r.rest && answers' == answers + [(n.value, r)]
           else !ok && answers' == answers
  {
    ghost var n, now := ReadU64(source.data), connection.pending;
    forall i | 0 <= i < |completed| ensures completed[i] !in connection.Addressee(source.data) {
      assert before[answers[i].0] == completed[i];
    }
    forall id | id in now && !(n.Got? && id == n.value) ensures now[id] !in connection.Addressee(source.data) {
      assert now[id] == before[id];
    }
    var a := connection.ReadOne(source);
    assert Unchanged(connection.pending, readings);
    assert forall i | 0 <= i < |completed| :: Filled(completed[i], answers[i].1);
    ok := a.Answered?;
    completed' := if a.Answered? then completed + [a.request] else completed;
    answers' := if a.Answered? then answers + [(n.value, readings[n.value].Read(n.rest))] else answers;
  }

  /** The loop of the client's reader on a stream that ends. */
  method ReadReplies(connection: Connection, source: Source, ghost readings: map<u64, Reading>)
    returns (completed: seq<ClientRequest>, ghost read: StreamRead)
    requires Distinct(connection.pending) && Unchanged(connection.pending, readings)
    modifies connection`pending, connection.counter, source, connection.pending.Values
    ensures connection.pending.Keys <= readings.Keys && old(connection.pending).Keys <= readings.Keys
    ensures read == ReadStream(readings, old(connection.pending).Keys, old(source.data))
    ensures Progress(old(connection.pending), readings, connection.pending, read.answers, completed)
    ensures connection.pending.Keys == old(connection.pending).Keys - Ids(read)
  {
    completed := [];
    ghost var before, s := connection.pending, source.data;
    ghost var answers: seq<(u64, ReplyRead)> := [];
    read := ReadStream(readings, before.Keys, s);
    var ok := true;
    while ok
      invariant Progress(before, readings, connection.pending, answers, completed)
      invariant connection.pending.Keys <= readings.Keys
      invariant StillToCome(readings, before.Keys, connection.pending.Keys, source.data, answers, read, ok)
      decreases ok, |source.data|
    {
      OneRound(readings, before.Keys, connection.pending.Keys, source.data, answers, read);
      ok, completed, answers := ReadNext(connection, source, before, readings, answers, completed);
    }
  }

  /** The answers so far and what the stream still holds make up the whole reading. */
  ghost predicate StillToCome(readings: map<u64, Reading>, before: set<u64>, open: set<u64>, s: bytes,
                              answers: seq<(u64, ReplyRead)>, read: StreamRead, ok: bool)
    requires open <= readings.Keys
  {
    if ok then After(answers, ReadStream(readings, open, s)) == read && open == before - IdsOf(answers)
    else answers == read.answers && open == before - Ids(read)
  }

  lemma OneRound(readings: map<u64, Reading>, before: set<u64>, open: set<u64>, s: bytes,
                 answers: seq<(u64, ReplyRead)>, read: StreamRead)
    requires open <= readings.Keys && StillToCome(readings, before, open, s, answers, read, true)
    ensures
      var n := ReadU64(s);
      if n.Fail? || n.value !in open then StillToCome(readings, before, open, s, answers, read, false)
      else
        var r := readings[n.value].Read(n.rest);
        if r.status == Success
        then |r.rest| < |s| && StillToCome(readings, before, open - {n.value}, r.rest, answers + [(n.value, r)], read, true)
        else StillToCome(readings, before, open - {n.value}, s, answers, read, false)
  {
    StreamStep(readings, open, s, answers);
    IdsSnoc(answers, ReadU64(s), readings);
  }

  lemma IdsSnoc(answers: seq<(u64, ReplyRead)>, n: Read<u64>, readings: map<u64, Reading>)
    ensures n.Got? && n.value in readings ==>
      IdsOf(answers + [(n.value, readings[n.value].Read(n.rest))]) == IdsOf(answers) + {n.value}
  {
    if n.Got? && n.value in readings {
      var answers' := answers + [(n.value, readings[n.value].Read(n.rest))];
      assert answers'[|answers|].0 == n.value;
      forall id | id in IdsOf(answers) ensures id in IdsOf(answers') {
        var i :| 0 <= i < |answers| && answers[i].0 == id;
        assert answers'[i].0 == id;
      }
    }
  }

  function IdsOf(answers: seq<(u64, ReplyRead)>): set<u64>
  {
    set i | 0 <= i < |answers| :: answers[i].0
  }

  lemma StreamStep(readings: map<u64, Reading>, open: set<u64>, s: bytes, answers: seq<(u64, ReplyRead)>)
    requires open <= readings.Keys
    ensures
      var whole, n := After(answers, ReadStream(readings, open, s)), ReadU64(s);
      if n.Fail? then whole == StreamRead(answers, Ended)
      else if n.value !in open then whole == StreamRead(answers, Stray(n.value))
      else
        var r := readings[n.value].Read(n.rest);
        if r.status != Success then whole == StreamRead(answers, Failing(n.value, r))
        else |r.rest| < |s| && whole == After(answers + [(n.value, r)], ReadStream(readings, open - {n.value}, r.rest))
  {
    assert answers + [] == answers;
    if ReadU64(s).Got? && ReadU64(s).value in open {
      var id, rest := ReadU64(s).value, ReadU64(s).rest;
      var r := readings[id].Read(rest);
      if r.status == Success {
        var more := ReadStream(readings, open - {id}, r.rest).answers;
        assert answers + ([(id, r)] + more) == answers + [(id, r)] + more;
      }
    }
  }

  /** The ids that the loop has taken from the pending ones. */
  function Ids(read: StreamRead): set<u64>
  {
    IdsOf(read.answers) + if read.end.Failing? then {read.end.id} else {}
  }
}
