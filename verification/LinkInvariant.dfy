/** What every step of a connection keeps, in whatever order its goroutines run. */
module LinkInvariant {
  import opened Wrappers
  import opened Frames
  import opened GoInts
  import opened Links

  // ----- where the ids are -----

  function FrameIds(s: seq<Frame>): (r: seq<u64>)
    ensures |r| == |s|
  {
    seq(|s|, k requires 0 <= k < |s| => s[k].id)
  }

  function ReplyIds(s: seq<Reply>): (r: seq<u64>)
    ensures |r| == |s|
  {
    seq(|s|, k requires 0 <= k < |s| => s[k].id)
  }

  function HandlerId(h: Handler): u64
  {
    match h
    case Arrived(id, _) => id
    case Running(id, _) => id
    case Sending(reply) => reply.id
    case _ => 0
  }

  function HandlerIds(s: seq<Handler>): (r: seq<u64>)
    ensures |r| == |s|
  {
    seq(|s|, k requires 0 <= k < |s| => HandlerId(s[k]))
  }

  function WriterId(w: Writer): u64
  {
    match w
    case Counting(_, id, _) => id
    case WritingId(_, id) => id
    case WritingRest(_, id) => id
    case _ => 0
  }

  function ReaderId(r: Reader): u64
  {
    if r.Matching? then r.reply.id else 0
  }

  /** How often an id occurs in the writer's hand, on the wires, in the server and in the reader's hand. */
  function Copies(l: Link, id: u64): nat
  {
    One(WriterId(l.writer) == id)
    + Underway(l.toServer, l.handlers, l.responses, l.replying, l.toClient, id)
    + One(ReaderId(l.reader) == id)
  }

  function Underway(toServer: seq<Frame>, handlers: seq<Handler>, responses: seq<Reply>, replying: Option<Reply>,
                    toClient: seq<Reply>, id: u64): nat
  {
    multiset(FrameIds(toServer))[id]
    + multiset(HandlerIds(handlers))[id]
    + multiset(ReplyIds(responses))[id]
    + One(replying.Some? && replying.value.id == id)
    + multiset(ReplyIds(toClient))[id]
  }

  ghost predicate Active(l: Link) { l.main.Serving? || l.main.Closing? }

  /**
   * The ids underway are pending, each in one place only. On an intact connection they are all of the
   * pending ids.
   */
  ghost predicate Flow(l: Link)
  {
    forall id: u64 | id != 0 :: FlowAt(l, id)
  }

  ghost predicate FlowAt(l: Link, id: u64)
  {
    Copies(l, id) <= One(id in l.pending) && (l.intact ==> Copies(l, id) == One(id in l.pending))
  }

  ghost predicate Allocation(l: Link)
  {
    && l.requestId <= l.registrations
    && (forall id | id in l.pending :: 1 <= id <= l.requestId)
  }

  // ----- what they carry -----

  ghost predicate GoodFrame(cfg: Config, pending: map<u64, Call>, f: Frame)
  {
    f.id in pending ==> f.payload == cfg.payload(pending[f.id])
  }

  ghost predicate GoodReply(cfg: Config, pending: map<u64, Call>, r: Reply)
  {
    r.id in pending ==> r.body == cfg.serve(cfg.payload(pending[r.id]))
  }

  ghost predicate GoodHandler(cfg: Config, pending: map<u64, Call>, h: Handler)
  {
    match h
    case Arrived(id, input) => GoodFrame(cfg, pending, Frame(id, input))
    case Running(id, input) => GoodFrame(cfg, pending, Frame(id, input))
    case Sending(reply) => reply.id != 0 && GoodReply(cfg, pending, reply)
    case _ => true
  }

  ghost predicate Content(cfg: Config, l: Link)
  {
    && (forall k | 0 <= k < |l.toServer| :: GoodFrame(cfg, l.pending, l.toServer[k]))
    && (forall k | 0 <= k < |l.handlers| :: GoodHandler(cfg, l.pending, l.handlers[k]))
    && (forall k | 0 <= k < |l.responses| :: l.responses[k].id != 0 && GoodReply(cfg, l.pending, l.responses[k]))
    && (l.replying.Some? ==> l.replying.value.id != 0 && GoodReply(cfg, l.pending, l.replying.value))
    && (forall k | 0 <= k < |l.toClient| :: l.toClient[k].id != 0 && GoodReply(cfg, l.pending, l.toClient[k]))
    && (l.reader.Matching? ==> l.reader.reply.id != 0 && GoodReply(cfg, l.pending, l.reader.reply))
  }

  /** What the client's goroutines hold in their hands. */
  ghost predicate Hands(cfg: Config, l: Link)
  {
    && (match l.writer
        case Registering(call) => !cfg.oneWay(call)
        case Counting(call, id, seen) => Registered(cfg, l, call, id) && id != 0
        case WritingId(call, id) => Registered(cfg, l, call, id)
        case WritingRest(call, id) => Registered(cfg, l, call, id)
        case Recycling(call) => cfg.oneWay(call)
        case _ => true)
    && (match l.reader
        case Discounting(call, reply) => reply.body == cfg.serve(cfg.payload(call))
        case Filling(call, reply) => reply.body == cfg.serve(cfg.payload(call))
        case ReaderDone(unexpected) => !unexpected
        case _ => true)
  }

  ghost predicate Registered(cfg: Config, l: Link, call: Call, id: u64)
  {
    if id == 0 then cfg.oneWay(call)
    else !cfg.oneWay(call) && (Active(l) ==> id in l.pending && l.pending[id] == call)
  }

  /** The bound on unanswered requests (client.go:382, client.go:396-403). */
  ghost predicate Bounded(cfg: Config, l: Link)
  {
    match l.writer
    case Counting(_, _, seen) => |l.pending| <= seen + 1 && seen <= cfg.pendingRequests + 1
    case WriterDone(overflow) => |l.pending| <= cfg.pendingRequests + if overflow then 2 else 1
    case _ => |l.pending| <= cfg.pendingRequests + 1
  }

  ghost predicate Shutdown(l: Link)
  {
    && (!Active(l) ==> l.writer.WriterDone? && l.reader.ReaderDone?)
    && (l.main.Gone? ==> l.pending == map[])
  }

  /** Holds while fewer than 2^64 requests have been registered on the connection. */
  ghost predicate Inv(cfg: Config, l: Link)
  {
    l.registrations < TWO64 ==> Control(cfg, l) && (Active(l) ==> Flow(l) && Content(cfg, l))
  }

  ghost predicate Control(cfg: Config, l: Link)
  {
    Allocation(l) && Hands(cfg, l) && Bounded(cfg, l) && Shutdown(l)
  }

  lemma NewLinkInv(cfg: Config)
    ensures Inv(cfg, NewLink())
  {
  }

  // ----- id allocation -----

  /**
   * The pending ids never exceed the last id, so that the search takes the last id again or the one after
   * it, and below 2^64 registrations it never gives the one-way id 0.
   */
  lemma AllocationStep(l: Link, id: u64)
    requires Allocation(l) && l.registrations + 1 < TWO64
    requires NextFree(l.pending.Keys, FirstId(l.requestId), id)
    ensures id == FirstId(l.requestId) || id == l.requestId + 1
    ensures 1 <= id <= l.registrations + 1 && l.requestId <= id
  {
    var next: u64 := l.requestId + 1;
    assert next !in l.pending.Keys;
  }

  // ----- counting ids in queues -----

  lemma CountSnoc(s: seq<u64>, x: u64, id: u64)
    ensures multiset(s + [x])[id] == multiset(s)[id] + One(x == id)
  {
  }

  lemma CountTail(s: seq<u64>, id: u64)
    requires s != []
    ensures multiset(s)[id] == One(s[0] == id) + multiset(s[1..])[id]
  {
    assert s == [s[0]] + s[1..];
  }

  lemma CountUpdate(s: seq<u64>, h: nat, x: u64, id: u64)
    requires h < |s|
    ensures multiset(s[h := x])[id] + One(s[h] == id) == multiset(s)[id] + One(x == id)
  {
  }

  lemma CountPrefix(s: seq<u64>, n: nat, id: u64)
    requires n <= |s|
    ensures multiset(s[..n])[id] <= multiset(s)[id]
  {
    assert s == s[..n] + s[n..];
    assert multiset(s) == multiset(s[..n]) + multiset(s[n..]);
  }

  lemma Counted(s: seq<u64>, k: nat)
    requires k < |s|
    ensures multiset(s)[s[k]] >= 1
  {
    assert s[k] in multiset(s);
  }

  // ----- every step moves ids, and nothing else does -----

  /** Seen from one id, a step moves it on, inserts it where it was nowhere, removes it, or loses it. */
  lemma StepFlow(cfg: Config, l: Link, e: Event, id: u64)
    requires id != 0 && Active(l) && FlowAt(l, id) && Control(cfg, l)
    requires Step(cfg, l, e).Some? && Active(Step(cfg, l, e).value)
    requires Step(cfg, l, e).value.registrations < TWO64
    ensures FlowAt(Step(cfg, l, e).value, id)
  {
    match e
    case Register(fresh') => FlowRegister(cfg, l, fresh', id);
    case CountUp => FlowCount(cfg, l, id);
    case WriteId(ok) => FlowWriteId(cfg, l, ok, id);
    case WriteRest(ok) => FlowWrite(cfg, l, ok, id);
    case ReadId => FlowReadId(cfg, l, id);
    case Match => FlowMatch(cfg, l, id);
    case Cut(n, m) => FlowCut(cfg, l, n, m, id);
    case Spawn => FlowSpawn(cfg, l, id);
    case Acquire(h) => FlowHandler(cfg, l, e, h, id);
    case Dispatch(h) => FlowHandler(cfg, l, e, h, id);
    case Free(h) => FlowHandler(cfg, l, e, h, id);
    case Respond(h) => FlowRespond(cfg, l, h, id);
    case TakeReply => FlowTake(cfg, l, id);
    case WriteReply(ok) => FlowReply(cfg, l, ok, id);
    case Close(_) | StartRelease | Release(_) | CountRelease | Finish => FlowMain(cfg, l, e, id);
    case FailRead | CountDown | ReadBody(_, _) | StopReader => FlowReader(cfg, l, e, id);
    case _ => FlowWriter(cfg, l, e, id);
  }

  lemma FlowWriter(cfg: Config, l: Link, e: Event, id: u64)
    requires id != 0 && FlowAt(l, id) && Step(cfg, l, e).Some?
    requires e.Dequeue? || e.Check? || e.Recycle? || e.StopWriter?
    ensures FlowAt(Step(cfg, l, e).value, id)
  {
  }

  lemma FlowCount(cfg: Config, l: Link, id: u64)
    requires id != 0 && FlowAt(l, id) && Step(cfg, l, CountUp).Some?
    ensures FlowAt(Step(cfg, l, CountUp).value, id)
  {
  }

  lemma FlowWriteId(cfg: Config, l: Link, ok: bool, id: u64)
    requires id != 0 && FlowAt(l, id) && Step(cfg, l, WriteId(ok)).Some?
    ensures FlowAt(Step(cfg, l, WriteId(ok)).value, id)
  {
  }

  lemma FlowReader(cfg: Config, l: Link, e: Event, id: u64)
    requires id != 0 && FlowAt(l, id) && Step(cfg, l, e).Some?
    requires e.FailRead? || e.CountDown? || e.ReadBody? || e.StopReader?
    ensures FlowAt(Step(cfg, l, e).value, id)
  {
  }

  lemma FlowMain(cfg: Config, l: Link, e: Event, id: u64)
    requires FlowAt(l, id) && Step(cfg, l, e).Some? && Active(Step(cfg, l, e).value)
    requires e.Close? || e.StartRelease? || e.Release? || e.CountRelease? || e.Finish?
    ensures FlowAt(Step(cfg, l, e).value, id)
  {
  }

  lemma FlowRegister(cfg: Config, l: Link, id': u64, id: u64)
    requires id != 0 && FlowAt(l, id) && Step(cfg, l, Register(id')).Some?
    ensures FlowAt(Step(cfg, l, Register(id')).value, id)
  {
  }

  lemma FlowMatch(cfg: Config, l: Link, id: u64)
    requires id != 0 && FlowAt(l, id) && Step(cfg, l, Match).Some?
    ensures FlowAt(Step(cfg, l, Match).value, id)
  {
  }

  lemma FlowWrite(cfg: Config, l: Link, ok: bool, id: u64)
    requires id != 0 && FlowAt(l, id) && Step(cfg, l, WriteRest(ok)).Some?
    ensures FlowAt(Step(cfg, l, WriteRest(ok)).value, id)
  {
    var l' := Step(cfg, l, WriteRest(ok)).value;
    if ok && l.intact {
      assert FrameIds(l'.toServer) == FrameIds(l.toServer) + [l.writer.id];
      CountSnoc(FrameIds(l.toServer), l.writer.id, id);
    }
  }

  lemma FlowReadId(cfg: Config, l: Link, id: u64)
    requires id != 0 && FlowAt(l, id) && Step(cfg, l, ReadId).Some?
    ensures FlowAt(Step(cfg, l, ReadId).value, id)
  {
    CountTail(ReplyIds(l.toClient), id);
    assert ReplyIds(l.toClient[1..]) == ReplyIds(l.toClient)[1..];
  }

  lemma FlowCut(cfg: Config, l: Link, n: nat, m: nat, id: u64)
    requires FlowAt(l, id) && Step(cfg, l, Cut(n, m)).Some?
    ensures FlowAt(Step(cfg, l, Cut(n, m)).value, id)
  {
    CountPrefix(FrameIds(l.toServer), n, id);
    CountPrefix(ReplyIds(l.toClient), m, id);
    assert FrameIds(l.toServer[..n]) == FrameIds(l.toServer)[..n];
    assert ReplyIds(l.toClient[..m]) == ReplyIds(l.toClient)[..m];
  }

  lemma FlowSpawn(cfg: Config, l: Link, id: u64)
    requires FlowAt(l, id) && Step(cfg, l, Spawn).Some?
    ensures FlowAt(Step(cfg, l, Spawn).value, id)
  {
    var l' := Step(cfg, l, Spawn).value;
    CountTail(FrameIds(l.toServer), id);
    CountSnoc(HandlerIds(l.handlers), l.toServer[0].id, id);
    assert FrameIds(l'.toServer) == FrameIds(l.toServer)[1..];
    assert HandlerIds(l'.handlers) == HandlerIds(l.handlers) + [l.toServer[0].id];
  }

  lemma FlowHandler(cfg: Config, l: Link, e: Event, h: nat, id: u64)
    requires e == Acquire(h) || e == Dispatch(h) || e == Free(h)
    requires id != 0 && FlowAt(l, id) && Step(cfg, l, e).Some?
    ensures FlowAt(Step(cfg, l, e).value, id)
  {
    var handlers := Step(cfg, l, e).value.handlers;
    assert Step(cfg, l, e).value == l.(handlers := l.handlers[h := handlers[h]]);
    SameIdHandler(l, h, handlers[h], id);
  }

  lemma SameIdHandler(l: Link, h: nat, now: Handler, id: u64)
    requires h < |l.handlers| && HandlerId(now) == HandlerId(l.handlers[h]) && FlowAt(l, id)
    ensures FlowAt(l.(handlers := l.handlers[h := now]), id)
  {
    assert HandlerIds(l.handlers[h := now]) == HandlerIds(l.handlers);
  }

  lemma FlowRespond(cfg: Config, l: Link, h: nat, id: u64)
    requires id != 0 && FlowAt(l, id) && Step(cfg, l, Respond(h)).Some?
    ensures FlowAt(Step(cfg, l, Respond(h)).value, id)
  {
    var l' := Step(cfg, l, Respond(h)).value;
    var reply := l.handlers[h].reply;
    CountUpdate(HandlerIds(l.handlers), h, 0, id);
    CountSnoc(ReplyIds(l.responses), reply.id, id);
    assert HandlerIds(l'.handlers) == HandlerIds(l.handlers)[h := 0];
    assert ReplyIds(l'.responses) == ReplyIds(l.responses) + [reply.id];
  }

  lemma FlowTake(cfg: Config, l: Link, id: u64)
    requires FlowAt(l, id) && Step(cfg, l, TakeReply).Some?
    ensures FlowAt(Step(cfg, l, TakeReply).value, id)
  {
    CountTail(ReplyIds(l.responses), id);
    assert ReplyIds(l.responses[1..]) == ReplyIds(l.responses)[1..];
  }

  lemma FlowReply(cfg: Config, l: Link, ok: bool, id: u64)
    requires FlowAt(l, id) && Step(cfg, l, WriteReply(ok)).Some?
    ensures FlowAt(Step(cfg, l, WriteReply(ok)).value, id)
  {
    var l' := Step(cfg, l, WriteReply(ok)).value;
    if ok && l.intact {
      CountSnoc(ReplyIds(l.toClient), l.replying.value.id, id);
      assert ReplyIds(l'.toClient) == ReplyIds(l.toClient) + [l.replying.value.id];
    }
  }

  // ----- what is carried stays what it was -----

  lemma StepContent(cfg: Config, l: Link, e: Event)
    requires Active(l) && Control(cfg, l) && Flow(l) && Content(cfg, l)
    requires Step(cfg, l, e).Some? && Active(Step(cfg, l, e).value)
    requires Step(cfg, l, e).value.registrations < TWO64
    ensures Content(cfg, Step(cfg, l, e).value)
  {
    match e
    case Register(id) => ContentRegister(cfg, l, id);
    case WriteRest(ok) => ContentWrite(cfg, l, ok);
    case ReadId => ContentReadId(cfg, l);
    case Match => ContentMatch(cfg, l);
    case Cut(n, m) => ContentCut(cfg, l, n, m);
    case Spawn => ContentSpawn(cfg, l);
    case Acquire(h) => ContentHandler(cfg, l, e, h);
    case Dispatch(h) => ContentHandler(cfg, l, e, h);
    case Free(h) => ContentHandler(cfg, l, e, h);
    case Respond(h) => ContentRespond(cfg, l, h);
    case TakeReply => ContentTake(cfg, l);
    case WriteReply(ok) => ContentReply(cfg, l, ok);
    case Close(_) | StartRelease | Release(_) | CountRelease | Finish => ContentMain(cfg, l, e);
    case FailRead | CountDown | ReadBody(_, _) | StopReader => ContentReader(cfg, l, e);
    case _ => ContentWriter(cfg, l, e);
  }

  lemma ContentWriter(cfg: Config, l: Link, e: Event)
    requires Content(cfg, l) && Step(cfg, l, e).Some?
    requires e.Dequeue? || e.Check? || e.Recycle? || e.StopWriter? || e.CountUp? || e.WriteId?
    ensures Content(cfg, Step(cfg, l, e).value)
  {
  }

  lemma ContentReader(cfg: Config, l: Link, e: Event)
    requires Content(cfg, l) && Step(cfg, l, e).Some?
    requires e.FailRead? || e.CountDown? || e.ReadBody? || e.StopReader?
    ensures Content(cfg, Step(cfg, l, e).value)
  {
  }

  lemma ContentMain(cfg: Config, l: Link, e: Event)
    requires Content(cfg, l) && Step(cfg, l, e).Some? && Active(Step(cfg, l, e).value)
    requires e.Close? || e.StartRelease? || e.Release? || e.CountRelease? || e.Finish?
    ensures Content(cfg, Step(cfg, l, e).value)
  {
  }

  lemma ContentRegister(cfg: Config, l: Link, id: u64)
    requires Control(cfg, l) && Flow(l) && Content(cfg, l) && Step(cfg, l, Register(id)).Some?
    requires l.registrations + 1 < TWO64
    ensures Content(cfg, Step(cfg, l, Register(id)).value)
  {
    AllocationStep(l, id);
    assert FlowAt(l, id);
    FreshContent(cfg, l, id, l.writer.call);
  }

  /** Nothing underway carries a fresh id. */
  lemma FreshContent(cfg: Config, l: Link, id: u64, call: Call)
    requires Content(cfg, l) && id != 0 && Copies(l, id) == 0
    ensures Content(cfg, l.(pending := l.pending[id := call]))
  {
    forall k | 0 <= k < |l.toServer| ensures l.toServer[k].id != id { Counted(FrameIds(l.toServer), k); }
    forall k | 0 <= k < |l.handlers| ensures HandlerId(l.handlers[k]) != id { Counted(HandlerIds(l.handlers), k); }
    forall k | 0 <= k < |l.responses| ensures l.responses[k].id != id { Counted(ReplyIds(l.responses), k); }
    forall k | 0 <= k < |l.toClient| ensures l.toClient[k].id != id { Counted(ReplyIds(l.toClient), k); }
  }

  lemma ContentWrite(cfg: Config, l: Link, ok: bool)
    requires Active(l) && Control(cfg, l) && Content(cfg, l) && Step(cfg, l, WriteRest(ok)).Some?
    ensures Content(cfg, Step(cfg, l, WriteRest(ok)).value)
  {
    var WritingRest(call, id) := l.writer;
    assert id in l.pending ==> id != 0 && l.pending[id] == call;
    assert GoodFrame(cfg, l.pending, Frame(id, cfg.payload(call)));
  }

  lemma ContentReadId(cfg: Config, l: Link)
    requires Content(cfg, l) && Step(cfg, l, ReadId).Some?
    ensures Content(cfg, Step(cfg, l, ReadId).value)
  {
  }

  lemma ContentMatch(cfg: Config, l: Link)
    requires Content(cfg, l) && Step(cfg, l, Match).Some?
    ensures Content(cfg, Step(cfg, l, Match).value)
  {
    FewerPending(cfg, l, l.pending - {l.reader.reply.id});
  }

  lemma FewerPending(cfg: Config, l: Link, fewer: map<u64, Call>)
    requires Content(cfg, l) && forall id | id in fewer :: id in l.pending && fewer[id] == l.pending[id]
    ensures Content(cfg, l.(pending := fewer))
  {
  }

  lemma ContentCut(cfg: Config, l: Link, n: nat, m: nat)
    requires Content(cfg, l) && Step(cfg, l, Cut(n, m)).Some?
    ensures Content(cfg, Step(cfg, l, Cut(n, m)).value)
  {
  }

  lemma ContentSpawn(cfg: Config, l: Link)
    requires Content(cfg, l) && Step(cfg, l, Spawn).Some?
    ensures Content(cfg, Step(cfg, l, Spawn).value)
  {
    var f := l.toServer[0];
    assert GoodHandler(cfg, l.pending, Arrived(f.id, f.payload));
  }

  lemma ContentHandler(cfg: Config, l: Link, e: Event, h: nat)
    requires e == Acquire(h) || e == Dispatch(h) || e == Free(h)
    requires Content(cfg, l) && Step(cfg, l, e).Some?
    ensures Content(cfg, Step(cfg, l, e).value)
  {
    assert GoodHandler(cfg, l.pending, l.handlers[h]);
    assert GoodHandler(cfg, l.pending, Step(cfg, l, e).value.handlers[h]);
  }

  lemma ContentRespond(cfg: Config, l: Link, h: nat)
    requires Content(cfg, l) && Step(cfg, l, Respond(h)).Some?
    ensures Content(cfg, Step(cfg, l, Respond(h)).value)
  {
    assert GoodHandler(cfg, l.pending, l.handlers[h]);
  }

  lemma ContentTake(cfg: Config, l: Link)
    requires Content(cfg, l) && Step(cfg, l, TakeReply).Some?
    ensures Content(cfg, Step(cfg, l, TakeReply).value)
  {
  }

  lemma ContentReply(cfg: Config, l: Link, ok: bool)
    requires Content(cfg, l) && Step(cfg, l, WriteReply(ok)).Some?
    ensures Content(cfg, Step(cfg, l, WriteReply(ok)).value)
  {
  }

  // ----- the client's own bookkeeping -----

  lemma StepControl(cfg: Config, l: Link, e: Event)
    requires Control(cfg, l) && (Active(l) ==> Flow(l) && Content(cfg, l))
    requires Step(cfg, l, e).Some? && Step(cfg, l, e).value.registrations < TWO64
    ensures Control(cfg, Step(cfg, l, e).value)
  {
    match e
    case Register(id) => ControlRegister(cfg, l, id);
    case Dequeue(_) | Check(_) | CountUp | WriteId(_) | WriteRest(_) | Recycle | StopWriter => ControlWriter(cfg, l, e);
    case Match => ControlMatch(cfg, l);
    case ReadId | FailRead | CountDown | ReadBody(_, _) | StopReader => ControlReader(cfg, l, e);
    case Release(id) => ControlRelease(cfg, l, id);
    case Close(_) | StartRelease | CountRelease | Finish => ControlMain(cfg, l, e);
    case _ => ControlServer(cfg, l, e);
  }

  lemma ControlServer(cfg: Config, l: Link, e: Event)
    requires Control(cfg, l) && Step(cfg, l, e).Some?
    requires e.Cut? || e.Spawn? || e.Acquire? || e.Dispatch? || e.Respond? || e.Free? || e.TakeReply? || e.WriteReply?
    ensures Control(cfg, Step(cfg, l, e).value)
  {
    ServerTouches(cfg, l, e);
    SameControl(cfg, l, Step(cfg, l, e).value);
  }

  /** The client's side of a connection. */
  ghost predicate SameClientSide(l: Link, l': Link)
  {
    && l'.pending == l.pending && l'.requestId == l.requestId && l'.registrations == l.registrations
    && l'.writer == l.writer && l'.reader == l.reader && l'.main == l.main
  }

  lemma ServerTouches(cfg: Config, l: Link, e: Event)
    requires Step(cfg, l, e).Some?
    requires e.Cut? || e.Spawn? || e.Acquire? || e.Dispatch? || e.Respond? || e.Free? || e.TakeReply? || e.WriteReply?
    ensures SameClientSide(l, Step(cfg, l, e).value)
  {
  }

  lemma SameControl(cfg: Config, l: Link, l': Link)
    requires Control(cfg, l) && SameClientSide(l, l')
    ensures Control(cfg, l')
  {
  }

  lemma ControlRelease(cfg: Config, l: Link, id: u64)
    requires Control(cfg, l) && Step(cfg, l, Release(id)).Some?
    ensures Control(cfg, Step(cfg, l, Release(id)).value)
  {
    FewerEntries(l.pending, id);
  }

  lemma ControlRegister(cfg: Config, l: Link, id: u64)
    requires Control(cfg, l) && Step(cfg, l, Register(id)).Some? && l.registrations + 1 < TWO64
    ensures Control(cfg, Step(cfg, l, Register(id)).value)
  {
    AllocationStep(l, id);
    assert |l.pending[id := l.writer.call]| == |l.pending| + 1;
  }

  lemma ControlWriter(cfg: Config, l: Link, e: Event)
    requires Control(cfg, l) && Step(cfg, l, e).Some?
    requires e.Dequeue? || e.Check? || e.CountUp? || e.WriteId? || e.WriteRest? || e.Recycle? || e.StopWriter?
    ensures Control(cfg, Step(cfg, l, e).value)
  {
  }

  /** The reply's id is pending: the reader never meets an unexpected message. */
  lemma ControlMatch(cfg: Config, l: Link)
    requires Control(cfg, l) && Active(l) && Flow(l) && Content(cfg, l) && Step(cfg, l, Match).Some?
    ensures l.reader.reply.id in l.pending
    ensures Control(cfg, Step(cfg, l, Match).value)
  {
    MatchedIsPending(cfg, l);
    MatchKeepsRest(cfg, l);
  }

  lemma MatchedIsPending(cfg: Config, l: Link)
    requires Flow(l) && Content(cfg, l) && l.reader.Matching?
    ensures l.reader.reply.id in l.pending && l.reader.reply.id != 0 && WriterId(l.writer) != l.reader.reply.id
  {
    assert FlowAt(l, l.reader.reply.id);
  }

  lemma MatchKeepsRest(cfg: Config, l: Link)
    requires Control(cfg, l) && Active(l) && Content(cfg, l) && l.reader.Matching?
    requires l.reader.reply.id in l.pending && WriterId(l.writer) != l.reader.reply.id
    ensures var id := l.reader.reply.id;
            Control(cfg, l.(reader := Discounting(l.pending[id], l.reader.reply), pending := l.pending - {id}))
  {
    FewerEntries(l.pending, l.reader.reply.id);
  }

  lemma FewerEntries<K, V>(m: map<K, V>, k: K)
    ensures |m - {k}| <= |m|
    ensures k in m ==> |m - {k}| == |m| - 1
  {
    var fewer := m - {k};
    assert fewer.Keys == m.Keys - {k};
    assert |fewer| == |fewer.Keys|;
  }

  lemma ControlReader(cfg: Config, l: Link, e: Event)
    requires Control(cfg, l) && Step(cfg, l, e).Some?
    requires e.ReadId? || e.FailRead? || e.CountDown? || e.ReadBody? || e.StopReader?
    ensures Control(cfg, Step(cfg, l, e).value)
  {
  }

  lemma ControlMain(cfg: Config, l: Link, e: Event)
    requires Control(cfg, l) && Step(cfg, l, e).Some?
    requires e.Close? || e.StartRelease? || e.CountRelease? || e.Finish?
    ensures Control(cfg, Step(cfg, l, e).value)
  {
  }

  /** Every step keeps the invariant. */
  lemma StepKeepsInv(cfg: Config, l: Link, e: Event)
    requires Inv(cfg, l) && Step(cfg, l, e).Some?
    ensures Inv(cfg, Step(cfg, l, e).value)
  {
    var l' := Step(cfg, l, e).value;
    Monotone(cfg, l, e);
    if l'.registrations < TWO64 {
      StepControl(cfg, l, e);
      if Active(l') {
        StepContent(cfg, l, e);
        forall id: u64 | id != 0 ensures FlowAt(l', id) { StepFlow(cfg, l, e, id); }
      }
    }
  }

  lemma Monotone(cfg: Config, l: Link, e: Event)
    requires Step(cfg, l, e).Some?
    ensures l.registrations <= Step(cfg, l, e).value.registrations
    ensures Active(Step(cfg, l, e).value) ==> Active(l)
  {
  }
}
