/**
 * One client connection and its server side as a step system: the client's writer, reader and
 * `handleConnection` (client.go:207-425) and the server's reader, handlers and writer (server.go:275-391).
 * A step is what a goroutine does between two points at which others can interfere.
 */
module Links {
  import opened Bytes
  import opened Wrappers
  import opened Frames
  import opened GoInts

  function One(b: bool): nat { if b then 1 else 0 }

  /** One use of a client request object, from `Request` until it is completed or recycled. */
  type Call = nat

  datatype Config = Config(
    pendingRequests: nat,
    pendingResponses: nat,
    concurrency: nat,
    /** `Send` rather than `Call`. */
    oneWay: Call -> bool,
    payload: Call -> bytes,
    /** What the server makes of a payload. */
    serve: bytes -> Body,
    /** Whether `readFrom` decodes this body into the reply values of this call. */
    decodes: (Call, Body) -> bool)

  /** Program points of the client's `connectionWriter`. */
  datatype Writer =
    | Selecting
    | Taken(call: Call)                              // received, cancelled or not (client.go:361-364)
    | Registering(call: Call)                        // before the lock (client.go:375-381)
    | Counting(call: Call, id: u64, seen: nat)       // inserted, not counted (client.go:391-394)
    | WritingId(call: Call, id: u64)                 // client.go:409
    | WritingRest(call: Call, id: u64)               // client.go:413
    | Recycling(call: Call)                          // client.go:418-421
    | WriterDone(overflow: bool)

  /** Program points of the client's `connectionReader`. */
  datatype Reader =
    | Waiting
    | Matching(reply: Reply)                         // id read (client.go:300-304)
    | Discounting(call: Call, reply: Reply)          // removed from pending (client.go:307-318)
    | Filling(call: Call, reply: Reply)              // client.go:321
    | ReaderDone(unexpected: bool)

  /** What made `handleConnection` close the connection: its error is nil exactly for `c.stopChan` (client.go:246-260). */
  datatype Cause = ByReader | ByWriter | ByStop

  /** Program points of the client's `handleConnection`. */
  datatype Main =
    | Serving
    | Closing(cause: Cause)                          // stopChan and connection closed (client.go:248-257)
    | Releasing(cause: Cause)                        // both goroutines gone (client.go:262)
    | Owing(call: Call, cause: Cause)                // `done` closed, not yet discounted (client.go:263-268)
    | Gone

  /** Program points of a server handler (server.go:320-351). */
  datatype Handler =
    | Arrived(id: u64, input: bytes)                 // before the semaphore
    | Running(id: u64, input: bytes)                 // holds a token
    | Sending(reply: Reply)                          // dispatched, before `responseChan <- request`
    | Leaving                                        // before `<-s.workerChain`
    | Finished

  datatype Link = Link(
    pending: map<u64, Call>,
    requestId: u64,
    registrations: nat,
    writer: Writer,
    reader: Reader,
    main: Main,
    toServer: seq<Frame>,
    handlers: seq<Handler>,                          // every handler started so far
    responses: seq<Reply>,                           // responseChan
    replying: Option<Reply>,                         // in the server writer's hand
    toClient: seq<Reply>,
    intact: bool)                                    // no wire cut and no write failed so far

  function NewLink(): Link
  {
    Link(map[], 0, 0, Selecting, Waiting, Serving, [], [], [], None, [], true)
  }

  datatype Event =
    | Dequeue(call: Call) | Check(cancelled: bool) | Register(id: u64) | CountUp
    | WriteId(ok: bool) | WriteRest(ok: bool) | Recycle | StopWriter
    | ReadId | FailRead | Match | CountDown | ReadBody(ok: bool, taken: bool) | StopReader
    | Close(cause: Cause) | StartRelease | Release(id: u64) | CountRelease | Finish
    | Cut(n: nat, m: nat)
    | Spawn | Acquire(h: nat) | Dispatch(h: nat) | Respond(h: nat) | Free(h: nat)
    | TakeReply | WriteReply(ok: bool)

  /** The first registration starts at id 1 (client.go:377-379). */
  function FirstId(requestId: u64): u64 { if requestId == 0 then 1 else requestId }

  /** The id search (client.go:384-390): `id` is the first one from `start` on, with wrap-around, that is not a key. */
  ghost predicate NextFree(keys: set<u64>, start: u64, id: u64)
  {
    && id !in keys
    && (forall j: u64 | start <= j && (j < id || id < start) :: j in keys)
    && (id < start ==> forall j: u64 | j < id :: j in keys)
  }

  ghost function Step(cfg: Config, l: Link, e: Event): Option<Link>
  {
    match e
    case Dequeue(_) | Check(_) | Register(_) | CountUp | WriteId(_) | WriteRest(_) | Recycle | StopWriter => WriterStep(cfg, l, e)
    case ReadId | FailRead | Match | CountDown | ReadBody(_, _) | StopReader => ReaderStep(cfg, l, e)
    case Close(_) | StartRelease | Release(_) | CountRelease | Finish => MainStep(l, e)
    case Cut(n, m) =>
      if n <= |l.toServer| && m <= |l.toClient|
      then Some(l.(toServer := l.toServer[..n], toClient := l.toClient[..m], intact := false))
      else None
    case _ => ServerStep(cfg, l, e)
  }

  ghost function WriterStep(cfg: Config, l: Link, e: Event): Option<Link>
  {
    match (e, l.writer)
    case (Dequeue(call), Selecting) => Some(l.(writer := Taken(call)))
    case (Check(cancelled), Taken(call)) =>
      Some(l.(writer :=
        if cancelled then Selecting
        else if cfg.oneWay(call) then WritingId(call, 0)
        else Registering(call)))
    case (Register(id), Registering(call)) =>
      if NextFree(l.pending.Keys, FirstId(l.requestId), id)
      then Some(l.(writer := Counting(call, id, |l.pending|), pending := l.pending[id := call],
                   requestId := id, registrations := l.registrations + 1))
      else None
    case (CountUp, Counting(call, id, seen)) =>
      if seen > cfg.pendingRequests
      then Some(l.(writer := WriterDone(true), intact := false))
      else Some(l.(writer := WritingId(call, id)))
    case (WriteId(ok), WritingId(call, id)) =>
      if ok then Some(l.(writer := WritingRest(call, id)))
      else Some(l.(writer := WriterDone(false), intact := false))
    case (WriteRest(ok), WritingRest(call, id)) =>
      if !ok then Some(l.(writer := WriterDone(false), intact := false))
      else
        var frame := Frame(id, cfg.payload(call));
        Some(l.(writer := if cfg.oneWay(call) then Recycling(call) else Selecting,
                toServer := if l.intact then l.toServer + [frame] else l.toServer))
    case (Recycle, Recycling(call)) => Some(l.(writer := Selecting))
    case (StopWriter, Selecting) => if l.main.Serving? then None else Some(l.(writer := WriterDone(false)))
    case _ => None
  }

  ghost function ReaderStep(cfg: Config, l: Link, e: Event): Option<Link>
  {
    match (e, l.reader)
    case (ReadId, Waiting) =>
      if l.toClient == [] then None
      else Some(l.(reader := Matching(l.toClient[0]), toClient := l.toClient[1..]))
    case (FailRead, Waiting) => Some(l.(reader := ReaderDone(false)))
    case (Match, Matching(reply)) =>
      if reply.id in l.pending
      then Some(l.(reader := Discounting(l.pending[reply.id], reply), pending := l.pending - {reply.id}))
      else Some(l.(reader := ReaderDone(true)))
    case (CountDown, Discounting(call, reply)) => Some(l.(reader := Filling(call, reply)))
    case (ReadBody(ok, taken), Filling(call, reply)) =>
      // a reading that fails may have taken the error text before (client.go:321, client_request.go:87-99)
      if ok && !(taken && cfg.decodes(call, reply.body)) then None
      else Some(l.(reader := if ok then Waiting else ReaderDone(false)))
    case (StopReader, Waiting) => if l.main.Serving? then None else Some(l.(reader := ReaderDone(false)))
    case _ => None
  }

  ghost function MainStep(l: Link, e: Event): Option<Link>
  {
    match (e, l.main)
    case (Close(cause), Serving) =>
      if (cause.ByReader? && !l.reader.ReaderDone?) || (cause.ByWriter? && !l.writer.WriterDone?) then None
      else Some(l.(main := Closing(cause)))
    case (StartRelease, Closing(cause)) =>
      if l.writer.WriterDone? && l.reader.ReaderDone? then Some(l.(main := Releasing(cause))) else None
    case (Release(id), Releasing(cause)) =>
      if id in l.pending then Some(l.(main := Owing(l.pending[id], cause), pending := l.pending - {id})) else None
    case (CountRelease, Owing(_, cause)) => Some(l.(main := Releasing(cause)))
    case (Finish, Releasing(_)) => if l.pending == map[] then Some(l.(main := Gone)) else None
    case _ => None
  }

  ghost function ServerStep(cfg: Config, l: Link, e: Event): Option<Link>
  {
    match e
    case Spawn =>
      if l.toServer == [] then None
      else Some(l.(toServer := l.toServer[1..], handlers := l.handlers + [Arrived(l.toServer[0].id, l.toServer[0].payload)]))
    case Acquire(h) =>
      if h < |l.handlers| && l.handlers[h].Arrived?
      then Some(l.(handlers := l.handlers[h := Running(l.handlers[h].id, l.handlers[h].input)])) else None
    case Dispatch(h) =>
      if h < |l.handlers| && l.handlers[h].Running?
      then Some(l.(handlers := l.handlers[h := Served(cfg, l.handlers[h])])) else None
    case Respond(h) =>
      if h < |l.handlers| && l.handlers[h].Sending? && |l.responses| < cfg.pendingResponses
      then Some(l.(handlers := l.handlers[h := Leaving], responses := l.responses + [l.handlers[h].reply])) else None
    case Free(h) =>
      if h < |l.handlers| && l.handlers[h].Leaving?
      then Some(l.(handlers := l.handlers[h := Finished])) else None
    case TakeReply =>
      if l.replying == None && l.responses != []
      then Some(l.(replying := Some(l.responses[0]), responses := l.responses[1..])) else None
    case WriteReply(ok) =>
      if l.replying == None then None
      else Some(l.(replying := None,
                   toClient := if ok && l.intact then l.toClient + [l.replying.value] else l.toClient,
                   intact := l.intact && ok))
    case _ => None
  }

  /** A one-way request is answered by nobody. */
  function Served(cfg: Config, h: Handler): Handler
    requires h.Running?
  {
    if h.id == 0 then Leaving else Sending(Reply(h.id, cfg.serve(h.input)))
  }

  /** What a sequence of steps leads to. */
  ghost function Steps(cfg: Config, l: Link, events: seq<Event>): Option<Link>
    decreases |events|
  {
    if events == [] then Some(l)
    else match Step(cfg, l, events[0])
      case None => None
      case Some(l') => Steps(cfg, l', events[1..])
  }
}
