/**
 * A client with its shared queue, its callers and all its connections, one after another and side by side,
 * together with the server's semaphore.
 */
module Systems {
  import opened Wrappers
  import opened Bytes
  import opened Frames
  import opened GoInts
  import opened Links

  /** Where a call is. */
  datatype Place =
    | Prepared                       // with its caller, not yet accepted
    | Abandoned                      // the context was done before the queue took it (client.go:431-432)
    | Queued
    | InHand(link: nat)              // in a writer's hand, not pending
    | Pending(link: nat, id: u64)
    | InReader(link: nat)            // removed from pending, not yet signalled
    | Completed
    | Recycled                       // reset and back in the pool
    | Lost                           // a one-way request whose write failed

  /** How a call was completed; a failed reading may have taken the error text of the body or not. */
  datatype Outcome = NoOutcome | Delivered(link: nat, body: Body) | ReadFailure(link: nat, body: Body, taken: bool) | Released(cause: Cause)

  /** `request.err`, and what `Call` returns. */
  datatype CallError = NoError | ContextDone | Remote(text: bytes) | ConnectionLost

  datatype CallInfo = CallInfo(
    obj: nat,                     // the pooled request object
    place: Place,
    cancelled: bool,                 // the context was done while `Call` waited
    returned: bool,                  // the caller's `Call` has returned
    err: CallError,                  // `request.err`
    result: CallError,               // what `Call` has returned
    tokens: nat,                     // sends into `done`
    closes: nat,                     // closes of `done`
    buffered: nat,                   // tokens in `done`, whose capacity is one
    outcome: Outcome)

  datatype System = System(
    calls: map<Call, CallInfo>,
    queue: seq<Call>,
    links: seq<Link>,
    pool: set<nat>,
    nextObject: nat,
    count: u64,                      // requestsCount
    tokens: nat)                     // tokens in workerChain

  datatype SystemEvent =
    | Prepare(call: Call, obj: nat)
    | Abandon(call: Call)
    | Enqueue(call: Call)
    | Cancel(call: Call)             // store and return of `request.err` (client.go:438-442)
    | Return(call: Call)
    | Open
    | At(link: nat, event: Event)

  function NewSystem(): System
  {
    System(map[], [], [], {}, 0, 0, 0)
  }

  function Plus1(n: u64): u64 { if n == TWO64 - 1 then 0 else n + 1 }

  /** `atomic.AddUint64(&n, ^uint64(0))`. */
  function Minus1(n: u64): u64 { if n == 0 then TWO64 - 1 else n - 1 }

  function Accepted(p: Place): bool { !p.Prepared? && !p.Abandoned? }

  /** The call in the hand of a writer while it is neither queued nor pending. */
  function HandOf(cfg: Config, w: Writer): Option<Call>
  {
    match w
    case Taken(call) => Some(call)
    case Registering(call) => Some(call)
    case WritingId(call, _) => if cfg.oneWay(call) then Some(call) else None
    case WritingRest(call, _) => if cfg.oneWay(call) then Some(call) else None
    case Recycling(call) => Some(call)
    case _ => None
  }

  function ReaderOf(r: Reader): Option<Call>
  {
    match r
    case Discounting(call, _) => Some(call)
    case Filling(call, _) => Some(call)
    case _ => None
  }

  /** The one call that a connection's step moves, and to where. */
  function Moved(cfg: Config, l: Link, i: nat, e: Event): Option<(Call, Place)>
  {
    match e
    case Dequeue(call) => Some((call, InHand(i)))
    case Check(cancelled) => if l.writer.Taken? && cancelled then Some((l.writer.call, Recycled)) else None
    case Register(id) => if l.writer.Registering? then Some((l.writer.call, Pending(i, id))) else None
    case WriteId(ok) => if l.writer.WritingId? && !ok && cfg.oneWay(l.writer.call) then Some((l.writer.call, Lost)) else None
    case WriteRest(ok) => if l.writer.WritingRest? && !ok && cfg.oneWay(l.writer.call) then Some((l.writer.call, Lost)) else None
    case Recycle => if l.writer.Recycling? then Some((l.writer.call, Recycled)) else None
    case Match => if l.reader.Matching? && l.reader.reply.id in l.pending then Some((l.pending[l.reader.reply.id], InReader(i))) else None
    case ReadBody(_, _) => if l.reader.Filling? then Some((l.reader.call, Completed)) else None
    case Release(id) => if id in l.pending then Some((l.pending[id], Completed)) else None
    case _ => None
  }

  /** `request.err` after the error part of a reply was read: an empty text leaves it alone (client_request.go:92-99). */
  function Said(body: Body, err: CallError): CallError { if body.err == [] then err else Remote(body.err) }

  /** The error that a closed connection leaves with what is pending (client.go:246-263). */
  function Left(cause: Cause): CallError { if cause.ByStop? then NoError else ConnectionLost }

  /** What else the step does to that call: a token, a close, or the reset on recycling. */
  function Signalled(l: Link, i: nat, e: Event, info: CallInfo): CallInfo
  {
    match e
    case ReadBody(ok, taken) =>
      if !l.reader.Filling? then info
      else
        var body := l.reader.reply.body;
        info.(tokens := info.tokens + 1, buffered := info.buffered + 1,
              err := if taken then Said(body, info.err) else info.err,
              outcome := if ok then Delivered(i, body) else ReadFailure(i, body, taken))
    case Release(_) =>
      if !l.main.Releasing? then info
      else info.(closes := info.closes + 1, err := Left(l.main.cause), outcome := Released(l.main.cause))
    case Check(_) => info.(buffered := 0, err := NoError)
    case Recycle => info.(buffered := 0, err := NoError)
    case _ => info
  }

  function CallsAfter(cfg: Config, s: System, i: nat, e: Event): map<Call, CallInfo>
    requires i < |s.links|
  {
    match Moved(cfg, s.links[i], i, e)
    case None => s.calls
    case Some((call, place)) =>
      if call in s.calls then s.calls[call := Signalled(s.links[i], i, e, s.calls[call]).(place := place)] else s.calls
  }

  /**
   * What a connection's step needs of the shared state: the head of the queue, the call's cancellation,
   * room in `done` and in the semaphore, and a token to give back.
   */
  predicate Enabled(s: System, i: nat, e: Event)
    requires i < |s.links|
  {
    var l := s.links[i];
    match e
    case Dequeue(call) => s.queue != [] && s.queue[0] == call
    case Check(cancelled) => l.writer.Taken? && l.writer.call in s.calls && (cancelled <==> s.calls[l.writer.call].err != NoError)
    case ReadBody(_, _) => l.reader.Filling? && l.reader.call in s.calls && DoneIsFree(s.calls[l.reader.call])
    case Release(id) => id in l.pending && l.pending[id] in s.calls && s.calls[l.pending[id]].closes == 0
    case Acquire(_) => true
    case Free(_) => s.tokens > 0
    case _ => true
  }

  /** A send into `done` neither blocks nor panics. */
  predicate DoneIsFree(info: CallInfo) { info.buffered == 0 && info.closes == 0 }

  ghost function Next(cfg: Config, s: System, e: SystemEvent): Option<System>
  {
    match e
    case Prepare(call, obj) =>
      if call in s.calls || !(obj in s.pool || obj == s.nextObject) then None
      else Some(s.(calls := s.calls[call := CallInfo(obj, Prepared, false, false, NoError, NoError, 0, 0, 0, NoOutcome)],
                   pool := s.pool - {obj},
                   nextObject := if obj == s.nextObject then s.nextObject + 1 else s.nextObject))
    case Abandon(call) =>
      if call in s.calls && s.calls[call].place == Prepared
      then Some(s.(calls := s.calls[call := s.calls[call].(place := Abandoned, returned := true, result := ContextDone)])) else None
    case Enqueue(call) =>
      if call in s.calls && s.calls[call].place == Prepared && |s.queue| < cfg.pendingRequests
      then Some(s.(calls := s.calls[call := s.calls[call].(place := Queued, returned := cfg.oneWay(call))],
                   queue := s.queue + [call])) else None
    case Cancel(call) =>
      if call in s.calls && Accepted(s.calls[call].place) && !s.calls[call].returned
      then Some(s.(calls := s.calls[call := s.calls[call].(cancelled := true, returned := true, err := ContextDone, result := ContextDone)])) else None
    case Return(call) =>
      if call in s.calls && !s.calls[call].returned && (s.calls[call].buffered > 0 || s.calls[call].closes > 0)
      then Some(s.(calls := s.calls[call := s.calls[call].(returned := true, result := s.calls[call].err,
                     buffered := if s.calls[call].buffered > 0 then s.calls[call].buffered - 1 else 0)])) else None
    case Open => Some(s.(links := s.links + [NewLink()]))
    case At(i, le) => NextAt(cfg, s, i, le)
  }

  ghost function NextAt(cfg: Config, s: System, i: nat, e: Event): Option<System>
  {
    if i < |s.links| && Step(cfg, s.links[i], e).Some? && Enabled(s, i, e) && (e.Acquire? ==> s.tokens < cfg.concurrency)
    then Some(System(
      CallsAfter(cfg, s, i, e),
      if e.Dequeue? then s.queue[1..] else s.queue,
      s.links[i := Step(cfg, s.links[i], e).value],
      PoolAfter(s, i, e),
      s.nextObject,
      if e.CountUp? then Plus1(s.count) else if e.CountDown? || e.CountRelease? then Minus1(s.count) else s.count,
      if e.Acquire? then s.tokens + 1 else if e.Free? then s.tokens - 1 else s.tokens))
    else None
  }

  /** `requestPool.Put` on a cancelled or a one-way request. */
  function PoolAfter(s: System, i: nat, e: Event): set<nat>
    requires i < |s.links|
  {
    var w := s.links[i].writer;
    if ((e.Check? && e.cancelled && w.Taken?) || (e.Recycle? && w.Recycling?)) && w.call in s.calls
    then s.pool + {s.calls[w.call].obj} else s.pool
  }

  ghost function Run(cfg: Config, s: System, events: seq<SystemEvent>): Option<System>
    decreases |events|
  {
    if events == [] then Some(s)
    else match Next(cfg, s, events[0])
      case None => None
      case Some(s') => Run(cfg, s', events[1..])
  }

  /** What can be reached from the start, in any interleaving. */
  ghost predicate Reachable(cfg: Config, s: System)
  {
    exists events :: Run(cfg, NewSystem(), events) == Some(s)
  }
}
