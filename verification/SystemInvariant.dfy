/** What holds in every reachable state of the whole system. */
module SystemInvariant {
  import opened Wrappers
  import opened GoInts
  import opened Links
  import opened Sequences
  import opened Systems
  import LinkInvariant

  // ----- every call is in one place -----

  /** The queue, a writer's hand, a pending map or a reader's hand has the call at this place. */
  ghost predicate Holds(cfg: Config, queue: seq<Call>, links: seq<Link>, c: Call, p: Place)
  {
    match p
    case Queued => c in queue
    case InHand(i) => i < |links| && HandOf(cfg, links[i].writer) == Some(c)
    case Pending(i, id) => i < |links| && id in links[i].pending && links[i].pending[id] == c
    case InReader(i) => i < |links| && ReaderOf(links[i].reader) == Some(c)
    case _ => false
  }

  predicate Structured(p: Place) { p.Queued? || p.InHand? || p.Pending? || p.InReader? }

  ghost predicate Is(calls: map<Call, CallInfo>, c: Call, p: Place) { c in calls && calls[c].place == p }

  ghost predicate PlacedAt(cfg: Config, s: System, c: Call, p: Place)
  {
    Holds(cfg, s.queue, s.links, c, p) <==> Is(s.calls, c, p)
  }

  ghost predicate Placed(cfg: Config, s: System)
  {
    NoRepeats(s.queue) && forall c, p | Structured(p) :: PlacedAt(cfg, s, c, p)
  }

  /** The kind of a call fixes the way it takes through a writer. */
  ghost predicate Kinds(cfg: Config, l: Link)
  {
    match l.writer
    case Registering(call) => !cfg.oneWay(call)
    case Counting(call, _, _) => !cfg.oneWay(call)
    case Recycling(call) => cfg.oneWay(call)
    case _ => true
  }

  // ----- every call is signalled once -----

  ghost predicate GoodCall(cfg: Config, links: seq<Link>, c: Call, info: CallInfo)
  {
    && info.tokens + info.closes == (if info.place.Completed? then 1 else 0)
    && info.buffered <= info.tokens
    && (info.place.Pending? || info.place.InReader? || info.place.Completed? ==> !cfg.oneWay(c))
    && (info.place.Lost? ==> cfg.oneWay(c))
    && (info.place.Prepared? ==> !info.cancelled && !info.returned)
    && (info.cancelled ==> !cfg.oneWay(c) && info.returned)
    && (info.place.Recycled? ==> cfg.oneWay(c) || info.cancelled)
    && (cfg.oneWay(c) && Accepted(info.place) ==> info.returned)
    && (info.returned && !cfg.oneWay(c) ==> info.cancelled || info.place.Abandoned? || info.place.Completed?)
    && (match info.outcome
        case NoOutcome => !info.place.Completed?
        case Delivered(i, body) =>
          && info.place.Completed? && info.tokens == 1 && cfg.decodes(c, body)
          && i < |links| && (links[i].registrations < TWO64 ==> body == cfg.serve(cfg.payload(c)))
        case ReadFailure(i, body, _) =>
          && info.place.Completed? && info.tokens == 1
          && i < |links| && (links[i].registrations < TWO64 ==> body == cfg.serve(cfg.payload(c)))
        case Released(_) => info.place.Completed? && info.closes == 1)
    && GoodError(cfg, c, info)
  }

  /** The error that an outcome leaves with a call that was not cancelled. */
  function Reported(outcome: Outcome): CallError
  {
    match outcome
    case NoOutcome => NoError
    case Delivered(_, body) => Said(body, NoError)
    case ReadFailure(_, body, taken) => if taken then Said(body, NoError) else NoError
    case Released(cause) => Left(cause)
  }

  /** `request.err` says how the call ended, and `Call` returns what it says. */
  ghost predicate GoodError(cfg: Config, c: Call, info: CallInfo)
  {
    && (info.place.Recycled? ==> info.err == NoError)
    && (!info.place.Recycled? && !info.cancelled ==> info.err == Reported(info.outcome))
    && (info.cancelled && !info.place.Recycled? && !info.place.Completed? ==> info.err == ContextDone)
    && (info.cancelled || info.place.Abandoned? ==> info.result == ContextDone)
    && (info.returned && !info.cancelled && info.place.Completed? ==> info.result == info.err)
  }

  // ----- no pooled object is in use -----

  ghost predicate Owns(info: CallInfo) { !info.place.Recycled? }

  ghost predicate PoolApart(s: System)
  {
    && (forall c, d | c in s.calls && d in s.calls && Owns(s.calls[c]) && Owns(s.calls[d]) && s.calls[c].obj == s.calls[d].obj :: c == d)
    && (forall c | c in s.calls && Owns(s.calls[c]) :: s.calls[c].obj !in s.pool && s.calls[c].obj < s.nextObject)
    && (forall o | o in s.pool :: o < s.nextObject)
  }

  // ----- counters -----

  /** What a connection contributes to `requestsCount`. */
  function Owed(l: Link): int
  {
    |l.pending| + One(l.reader.Discounting?) + One(l.main.Owing?) - One(l.writer.Counting?)
  }

  predicate HoldsToken(h: Handler) { h.Running? || h.Sending? || h.Leaving? }

  function TokenHolders(handlers: seq<Handler>): int
  {
    if handlers == [] then 0
    else TokenHolders(handlers[..|handlers| - 1]) + One(HoldsToken(handlers[|handlers| - 1]))
  }

  function SumOf(links: seq<Link>, f: Link -> int): int
  {
    if links == [] then 0 else SumOf(links[..|links| - 1], f) + f(links[|links| - 1])
  }

  function HandlerTokens(l: Link): int { TokenHolders(l.handlers) }

  ghost predicate Counted(s: System)
  {
    s.count == SumOf(s.links, Owed) % TWO64
  }

  ghost predicate Semaphore(cfg: Config, s: System)
  {
    s.tokens == SumOf(s.links, HandlerTokens) && s.tokens <= cfg.concurrency
  }

  ghost predicate Inv(cfg: Config, s: System)
  {
    && (forall l | l in s.links :: LinkInvariant.Inv(cfg, l) && Kinds(cfg, l))
    && Placed(cfg, s)
    && (forall c | c in s.calls :: GoodCall(cfg, s.links, c, s.calls[c]))
    && PoolApart(s)
    && Counted(s)
    && Semaphore(cfg, s)
  }

  lemma NewSystemInv(cfg: Config)
    ensures Inv(cfg, NewSystem())
  {
  }

  // ----- sums -----

  lemma {:induction false} SumUpdate(links: seq<Link>, f: Link -> int, i: nat, l: Link)
    requires i < |links|
    ensures SumOf(links[i := l], f) == SumOf(links, f) - f(links[i]) + f(l)
  {
    var n := |links| - 1;
    if i == n {
      assert links[i := l][..n] == links[..n];
    } else {
      SumUpdate(links[..n], f, i, l);
      assert links[i := l][..n] == links[..n][i := l];
    }
  }

  lemma {:induction false} TokenUpdate(handlers: seq<Handler>, h: nat, now: Handler)
    requires h < |handlers|
    ensures TokenHolders(handlers[h := now]) == TokenHolders(handlers) - One(HoldsToken(handlers[h])) + One(HoldsToken(now))
  {
    var n := |handlers| - 1;
    if h == n {
      assert handlers[h := now][..n] == handlers[..n];
    } else {
      TokenUpdate(handlers[..n], h, now);
      assert handlers[h := now][..n] == handlers[..n][h := now];
    }
  }

  // ----- requestsCount -----

  /** Counting and discounting are the only steps that change what a connection owes. */
  lemma OwedStep(cfg: Config, l: Link, e: Event)
    requires Step(cfg, l, e).Some?
    ensures Owed(Step(cfg, l, e).value) == Owed(l) + One(e.CountUp?) - One(e.CountDown? || e.CountRelease?)
  {
    match e
    case Register(id) => OwedRegister(cfg, l, id);
    case Match => OwedMatch(cfg, l);
    case Release(id) => OwedRelease(cfg, l, id);
    case Dequeue(_) | Check(_) | CountUp | WriteId(_) | WriteRest(_) | Recycle | StopWriter => OwedWriter(cfg, l, e);
    case ReadId | FailRead | CountDown | ReadBody(_, _) | StopReader => OwedReader(cfg, l, e);
    case Close(_) | StartRelease | CountRelease | Finish => OwedMain(cfg, l, e);
    case _ => LinkInvariant.ServerTouches(cfg, l, e);
  }

  lemma OwedRegister(cfg: Config, l: Link, id: u64)
    requires Step(cfg, l, Register(id)).Some?
    ensures Owed(Step(cfg, l, Register(id)).value) == Owed(l)
  {
    assert |l.pending[id := l.writer.call]| == |l.pending| + 1;
  }

  lemma OwedMatch(cfg: Config, l: Link)
    requires Step(cfg, l, Match).Some?
    ensures Owed(Step(cfg, l, Match).value) == Owed(l)
  {
    LinkInvariant.FewerEntries(l.pending, l.reader.reply.id);
  }

  lemma OwedRelease(cfg: Config, l: Link, id: u64)
    requires Step(cfg, l, Release(id)).Some?
    ensures Owed(Step(cfg, l, Release(id)).value) == Owed(l)
  {
    LinkInvariant.FewerEntries(l.pending, id);
  }

  lemma OwedWriter(cfg: Config, l: Link, e: Event)
    requires Step(cfg, l, e) == WriterStep(cfg, l, e) && WriterStep(cfg, l, e).Some? && !e.Register?
    ensures Owed(Step(cfg, l, e).value) == Owed(l) + One(e.CountUp?) - One(e.CountDown? || e.CountRelease?)
  {
  }

  lemma OwedReader(cfg: Config, l: Link, e: Event)
    requires Step(cfg, l, e) == ReaderStep(cfg, l, e) && ReaderStep(cfg, l, e).Some? && !e.Match?
    ensures Owed(Step(cfg, l, e).value) == Owed(l) + One(e.CountUp?) - One(e.CountDown? || e.CountRelease?)
  {
  }

  lemma OwedMain(cfg: Config, l: Link, e: Event)
    requires Step(cfg, l, e) == MainStep(l, e) && MainStep(l, e).Some? && !e.Release?
    ensures Owed(Step(cfg, l, e).value) == Owed(l) + One(e.CountUp?) - One(e.CountDown? || e.CountRelease?)
  {
  }

  lemma ModAddOne(a: int)
    ensures (a + 1) % TWO64 == if a % TWO64 == TWO64 - 1 then 0 else a % TWO64 + 1
  {
  }

  lemma CountedStep(cfg: Config, s: System, i: nat, e: Event)
    requires Counted(s) && NextAt(cfg, s, i, e).Some?
    ensures Counted(NextAt(cfg, s, i, e).value)
  {
    var l' := Step(cfg, s.links[i], e).value;
    OwedStep(cfg, s.links[i], e);
    SumUpdate(s.links, Owed, i, l');
    ModAddOne(SumOf(s.links, Owed));
    ModAddOne(SumOf(s.links, Owed) - 1);
  }

  // ----- the semaphore -----

  lemma TokenStep(cfg: Config, l: Link, e: Event)
    requires Step(cfg, l, e).Some?
    ensures HandlerTokens(Step(cfg, l, e).value) == HandlerTokens(l) + One(e.Acquire?) - One(e.Free?)
  {
    match e
    case Acquire(h) => TokenMove(cfg, l, e, h);
    case Dispatch(h) => TokenMove(cfg, l, e, h);
    case Respond(h) => TokenMove(cfg, l, e, h);
    case Free(h) => TokenMove(cfg, l, e, h);
    case Spawn => assert (l.handlers + [Arrived(l.toServer[0].id, l.toServer[0].payload)])[..|l.handlers|] == l.handlers;
    case _ => SameHandlers(cfg, l, e);
  }

  lemma TokenMove(cfg: Config, l: Link, e: Event, h: nat)
    requires e == Acquire(h) || e == Dispatch(h) || e == Respond(h) || e == Free(h)
    requires Step(cfg, l, e).Some?
    ensures HandlerTokens(Step(cfg, l, e).value) == HandlerTokens(l) + One(e.Acquire?) - One(e.Free?)
  {
    TokenUpdate(l.handlers, h, Step(cfg, l, e).value.handlers[h]);
  }

  lemma SameHandlers(cfg: Config, l: Link, e: Event)
    requires Step(cfg, l, e).Some? && !(e.Acquire? || e.Dispatch? || e.Respond? || e.Free? || e.Spawn?)
    ensures Step(cfg, l, e).value.handlers == l.handlers
  {
  }

  lemma SemaphoreStep(cfg: Config, s: System, i: nat, e: Event)
    requires Semaphore(cfg, s) && NextAt(cfg, s, i, e).Some?
    ensures Semaphore(cfg, NextAt(cfg, s, i, e).value)
  {
    TokenStep(cfg, s.links[i], e);
    SumUpdate(s.links, HandlerTokens, i, Step(cfg, s.links[i], e).value);
  }

  // ----- places -----

  /** A step of connection `i` takes the call that it moves from its one place to the next, and no other. */
  lemma HoldsStep(cfg: Config, s: System, i: nat, e: Event, c: Call, p: Place)
    requires Placed(cfg, s) && i < |s.links| && Kinds(cfg, s.links[i])
    requires NextAt(cfg, s, i, e).Some? && Structured(p)
    ensures var s' := NextAt(cfg, s, i, e).value;
            Holds(cfg, s'.queue, s'.links, c, p) <==>
              match Moved(cfg, s.links[i], i, e)
              case Some((m, to)) => if c == m then p == to else Holds(cfg, s.queue, s.links, c, p)
              case None => Holds(cfg, s.queue, s.links, c, p)
    ensures match Moved(cfg, s.links[i], i, e) case Some((m, _)) => m in s.calls case None => true
  {
    match e
    case Dequeue(call) => MoveDequeue(cfg, s, i, call, c, p);
    case Register(id) => MoveRegister(cfg, s, i, id, c, p);
    case Match => MoveMatch(cfg, s, i, c, p);
    case Release(id) => MoveRelease(cfg, s, i, id, c, p);
    case ReadBody(ok, taken) => MoveReader(cfg, s, i, ok, taken, c, p);
    case Check(_) | WriteId(_) | WriteRest(_) | Recycle => MoveWriter(cfg, s, i, e, c, p);
    case CountUp | StopWriter | ReadId | FailRead | CountDown | StopReader => MoveNothing(cfg, s, i, e, c, p);
    case Close(_) | StartRelease | CountRelease | Finish => MoveNothing(cfg, s, i, e, c, p);
    case _ => MoveServer(cfg, s, i, e, c, p);
  }

  lemma OnlyPlace(cfg: Config, s: System, c: Call, p: Place, q: Place)
    requires Placed(cfg, s) && Structured(p) && Structured(q) && Holds(cfg, s.queue, s.links, c, p)
    ensures c in s.calls && s.calls[c].place == p
    ensures Holds(cfg, s.queue, s.links, c, q) <==> q == p
  {
    assert PlacedAt(cfg, s, c, p);
    assert PlacedAt(cfg, s, c, q);
  }

  lemma MoveDequeue(cfg: Config, s: System, i: nat, call: Call, c: Call, p: Place)
    requires Placed(cfg, s) && NextAt(cfg, s, i, Dequeue(call)).Some? && Structured(p)
    ensures var s' := NextAt(cfg, s, i, Dequeue(call)).value;
            Holds(cfg, s'.queue, s'.links, c, p) <==> if c == call then p == InHand(i) else Holds(cfg, s.queue, s.links, c, p)
    ensures call in s.calls
  {
    assert Holds(cfg, s.queue, s.links, call, Queued);
    OnlyPlace(cfg, s, call, Queued, p);
    assert call !in s.queue[1..];
    assert c in s.queue <==> c == call || c in s.queue[1..];
  }

  lemma MoveRegister(cfg: Config, s: System, i: nat, id: u64, c: Call, p: Place)
    requires Placed(cfg, s) && NextAt(cfg, s, i, Register(id)).Some? && Structured(p)
    ensures var s' := NextAt(cfg, s, i, Register(id)).value; var m := s.links[i].writer.call;
            Holds(cfg, s'.queue, s'.links, c, p) <==> if c == m then p == Pending(i, id) else Holds(cfg, s.queue, s.links, c, p)
    ensures s.links[i].writer.call in s.calls
  {
    assert Holds(cfg, s.queue, s.links, s.links[i].writer.call, InHand(i));
    OnlyPlace(cfg, s, s.links[i].writer.call, InHand(i), p);
  }

  lemma MoveMatch(cfg: Config, s: System, i: nat, c: Call, p: Place)
    requires Placed(cfg, s) && NextAt(cfg, s, i, Match).Some? && Structured(p)
    ensures var s' := NextAt(cfg, s, i, Match).value;
            Holds(cfg, s'.queue, s'.links, c, p) <==>
              match Moved(cfg, s.links[i], i, Match)
              case Some((m, to)) => if c == m then p == to else Holds(cfg, s.queue, s.links, c, p)
              case None => Holds(cfg, s.queue, s.links, c, p)
    ensures match Moved(cfg, s.links[i], i, Match) case Some((m, _)) => m in s.calls case None => true
  {
    var l := s.links[i];
    var id := l.reader.reply.id;
    if id in l.pending {
      assert Holds(cfg, s.queue, s.links, l.pending[id], Pending(i, id));
      OnlyPlace(cfg, s, l.pending[id], Pending(i, id), p);
    }
  }

  lemma MoveRelease(cfg: Config, s: System, i: nat, id: u64, c: Call, p: Place)
    requires Placed(cfg, s) && NextAt(cfg, s, i, Release(id)).Some? && Structured(p)
    ensures var s' := NextAt(cfg, s, i, Release(id)).value; var m := s.links[i].pending[id];
            Holds(cfg, s'.queue, s'.links, c, p) <==> if c == m then false else Holds(cfg, s.queue, s.links, c, p)
    ensures s.links[i].pending[id] in s.calls
  {
    assert Holds(cfg, s.queue, s.links, s.links[i].pending[id], Pending(i, id));
    OnlyPlace(cfg, s, s.links[i].pending[id], Pending(i, id), p);
  }

  lemma MoveReader(cfg: Config, s: System, i: nat, ok: bool, taken: bool, c: Call, p: Place)
    requires Placed(cfg, s) && NextAt(cfg, s, i, ReadBody(ok, taken)).Some? && Structured(p)
    ensures var s' := NextAt(cfg, s, i, ReadBody(ok, taken)).value; var m := s.links[i].reader.call;
            Holds(cfg, s'.queue, s'.links, c, p) <==> if c == m then false else Holds(cfg, s.queue, s.links, c, p)
    ensures s.links[i].reader.call in s.calls
  {
    assert Holds(cfg, s.queue, s.links, s.links[i].reader.call, InReader(i));
    OnlyPlace(cfg, s, s.links[i].reader.call, InReader(i), p);
  }

  lemma MoveWriter(cfg: Config, s: System, i: nat, e: Event, c: Call, p: Place)
    requires Placed(cfg, s) && NextAt(cfg, s, i, e).Some? && Structured(p) && Kinds(cfg, s.links[i])
    requires e.Check? || e.WriteId? || e.WriteRest? || e.Recycle?
    ensures var s' := NextAt(cfg, s, i, e).value;
            Holds(cfg, s'.queue, s'.links, c, p) <==>
              match Moved(cfg, s.links[i], i, e)
              case Some((m, to)) => if c == m then p == to else Holds(cfg, s.queue, s.links, c, p)
              case None => Holds(cfg, s.queue, s.links, c, p)
    ensures match Moved(cfg, s.links[i], i, e) case Some((m, _)) => m in s.calls case None => true
  {
    var w, w' := s.links[i].writer, NextAt(cfg, s, i, e).value.links[i].writer;
    if Moved(cfg, s.links[i], i, e).Some? {
      assert HandOf(cfg, w) == Some(w.call) && HandOf(cfg, w') == None;
      assert Holds(cfg, s.queue, s.links, w.call, InHand(i));
      OnlyPlace(cfg, s, w.call, InHand(i), p);
    } else {
      assert HandOf(cfg, w') == HandOf(cfg, w);
    }
  }

  lemma MoveNothing(cfg: Config, s: System, i: nat, e: Event, c: Call, p: Place)
    requires NextAt(cfg, s, i, e).Some? && Structured(p) && Kinds(cfg, s.links[i])
    requires e.CountUp? || e.StopWriter? || e.ReadId? || e.FailRead? || e.CountDown? || e.StopReader?
          || e.Close? || e.StartRelease? || e.CountRelease? || e.Finish?
    ensures var s' := NextAt(cfg, s, i, e).value;
            Holds(cfg, s'.queue, s'.links, c, p) <==> Holds(cfg, s.queue, s.links, c, p)
    ensures Moved(cfg, s.links[i], i, e) == None
  {
    var l, l' := s.links[i], NextAt(cfg, s, i, e).value.links[i];
    assert HandOf(cfg, l'.writer) == HandOf(cfg, l.writer) && ReaderOf(l'.reader) == ReaderOf(l.reader) && l'.pending == l.pending;
  }

  /** What the server or the wire does moves no call. */
  lemma MoveServer(cfg: Config, s: System, i: nat, e: Event, c: Call, p: Place)
    requires NextAt(cfg, s, i, e).Some? && Structured(p)
    requires e.Cut? || e.Spawn? || e.Acquire? || e.Dispatch? || e.Respond? || e.Free? || e.TakeReply? || e.WriteReply?
    ensures var s' := NextAt(cfg, s, i, e).value;
            Holds(cfg, s'.queue, s'.links, c, p) <==> Holds(cfg, s.queue, s.links, c, p)
    ensures Moved(cfg, s.links[i], i, e) == None
  {
    LinkInvariant.ServerTouches(cfg, s.links[i], e);
  }

  lemma PlacedStep(cfg: Config, s: System, i: nat, e: Event)
    requires Placed(cfg, s) && i < |s.links| && Kinds(cfg, s.links[i]) && NextAt(cfg, s, i, e).Some?
    ensures Placed(cfg, NextAt(cfg, s, i, e).value)
  {
    var s' := NextAt(cfg, s, i, e).value;
    forall c, p | Structured(p) ensures PlacedAt(cfg, s', c, p) {
      assert PlacedAt(cfg, s, c, p);
      HoldsStep(cfg, s, i, e, c, p);
    }
    assert NoRepeats(s'.queue);
  }

  lemma KindsStep(cfg: Config, l: Link, e: Event)
    requires Kinds(cfg, l) && Step(cfg, l, e).Some?
    ensures Kinds(cfg, Step(cfg, l, e).value)
  {
  }

  // ----- calls and their signals -----

  /** The call that a step moves, before and after. */
  lemma MovedCall(cfg: Config, s: System, i: nat, e: Event, m: Call, to: Place)
    requires Placed(cfg, s) && i < |s.links| && NextAt(cfg, s, i, e).Some?
    requires LinkInvariant.Inv(cfg, s.links[i]) && Kinds(cfg, s.links[i])
    requires Moved(cfg, s.links[i], i, e) == Some((m, to))
    requires m in s.calls && GoodCall(cfg, s.links, m, s.calls[m])
    ensures var s' := NextAt(cfg, s, i, e).value; m in s'.calls && GoodCall(cfg, s'.links, m, s'.calls[m])
  {
    WasAt(cfg, s, i, e, m, to);
    if e.ReadBody? {
      DeliveredCall(cfg, s, i, e.ok, e.taken, m);
    }
  }

  /** Where the call that a step moves comes from. */
  function From(l: Link, i: nat, e: Event): Place
  {
    if e.Dequeue? then Queued
    else if e.Match? then (if l.reader.Matching? then Pending(i, l.reader.reply.id) else InReader(i))
    else if e.Release? then Pending(i, e.id)
    else if e.ReadBody? then InReader(i)
    else InHand(i)
  }

  lemma WasAt(cfg: Config, s: System, i: nat, e: Event, m: Call, to: Place)
    requires Placed(cfg, s) && NextAt(cfg, s, i, e).Some? && Kinds(cfg, s.links[i])
    requires Moved(cfg, s.links[i], i, e) == Some((m, to))
    ensures m in s.calls && s.calls[m].place == From(s.links[i], i, e)
    ensures to.Pending? ==> !cfg.oneWay(m)
  {
    assert Holds(cfg, s.queue, s.links, m, From(s.links[i], i, e));
    assert PlacedAt(cfg, s, m, From(s.links[i], i, e));
  }

  lemma DeliveredCall(cfg: Config, s: System, i: nat, ok: bool, taken: bool, m: Call)
    requires Placed(cfg, s) && i < |s.links| && NextAt(cfg, s, i, ReadBody(ok, taken)).Some?
    requires LinkInvariant.Inv(cfg, s.links[i]) && s.links[i].reader.Filling? && s.links[i].reader.call == m
    requires m in s.calls && GoodCall(cfg, s.links, m, s.calls[m])
    ensures var s' := NextAt(cfg, s, i, ReadBody(ok, taken)).value; m in s'.calls && GoodCall(cfg, s'.links, m, s'.calls[m])
  {
    assert Holds(cfg, s.queue, s.links, m, InReader(i)) && PlacedAt(cfg, s, m, InReader(i));
  }

  /** The other calls only see the connections move on. */
  lemma OtherCall(cfg: Config, s: System, i: nat, l': Link, c: Call, info: CallInfo)
    requires GoodCall(cfg, s.links, c, info) && i < |s.links| && s.links[i].registrations <= l'.registrations
    ensures GoodCall(cfg, s.links[i := l'], c, info)
  {
  }

  lemma CallsStep(cfg: Config, s: System, i: nat, e: Event)
    requires Inv(cfg, s) && NextAt(cfg, s, i, e).Some?
    ensures var s' := NextAt(cfg, s, i, e).value; forall c | c in s'.calls :: GoodCall(cfg, s'.links, c, s'.calls[c])
  {
    var s' := NextAt(cfg, s, i, e).value;
    var l := s.links[i];
    assert l in s.links;
    LinkInvariant.Monotone(cfg, l, e);
    HoldsStep(cfg, s, i, e, 0, Queued);
    forall c | c in s'.calls ensures GoodCall(cfg, s'.links, c, s'.calls[c]) {
      match Moved(cfg, l, i, e)
      case Some((m, to)) =>
        if c == m { MovedCall(cfg, s, i, e, m, to); } else { OtherCall(cfg, s, i, Step(cfg, l, e).value, c, s.calls[c]); }
      case None =>
        OtherCall(cfg, s, i, Step(cfg, l, e).value, c, s.calls[c]);
    }
  }

  // ----- the pool -----

  lemma PoolStep(cfg: Config, s: System, i: nat, e: Event)
    requires Placed(cfg, s) && i < |s.links| && Kinds(cfg, s.links[i]) && PoolApart(s) && NextAt(cfg, s, i, e).Some?
    ensures PoolApart(NextAt(cfg, s, i, e).value)
  {
    var s' := NextAt(cfg, s, i, e).value;
    PutRecycled(cfg, s, i, e);
    if Moved(cfg, s.links[i], i, e).Some? {
      var (m, to) := Moved(cfg, s.links[i], i, e).value;
      WasAt(cfg, s, i, e, m, to);
      PoolMove(s, s', m, s'.calls[m]);
    }
  }

  /** `Put` is called exactly for the requests that become recycled. */
  lemma PutRecycled(cfg: Config, s: System, i: nat, e: Event)
    requires NextAt(cfg, s, i, e).Some?
    ensures NextAt(cfg, s, i, e).value.pool ==
      match Moved(cfg, s.links[i], i, e)
      case Some((m, to)) => if to == Recycled && m in s.calls then s.pool + {s.calls[m].obj} else s.pool
      case None => s.pool
  {
  }

  /** Only a recycled object enters the pool. */
  lemma PoolMove(s: System, s': System, m: Call, info: CallInfo)
    requires PoolApart(s) && m in s.calls && Owns(s.calls[m])
    requires s'.calls == s.calls[m := info] && info.obj == s.calls[m].obj && s'.nextObject == s.nextObject
    requires s'.pool == s.pool + if Owns(info) then {} else {info.obj}
    ensures PoolApart(s')
  {
  }

  // ----- all together -----

  lemma StepAtKeepsInv(cfg: Config, s: System, i: nat, e: Event)
    requires Inv(cfg, s) && NextAt(cfg, s, i, e).Some?
    ensures Inv(cfg, NextAt(cfg, s, i, e).value)
  {
    var s' := NextAt(cfg, s, i, e).value;
    assert s.links[i] in s.links;
    LinkInvariant.StepKeepsInv(cfg, s.links[i], e);
    KindsStep(cfg, s.links[i], e);
    PlacedStep(cfg, s, i, e);
    CallsStep(cfg, s, i, e);
    PoolStep(cfg, s, i, e);
    CountedStep(cfg, s, i, e);
    SemaphoreStep(cfg, s, i, e);
    assert forall l | l in s'.links :: l in s.links || l == Step(cfg, s.links[i], e).value;
  }

  lemma OpenKeepsInv(cfg: Config, s: System)
    requires Inv(cfg, s)
    ensures Inv(cfg, Next(cfg, s, Open).value)
  {
    LinkInvariant.NewLinkInv(cfg);
    OpenSums(cfg, s);
    OpenPlaced(cfg, s);
    OpenCalls(cfg, s);
  }

  /** A new connection owes nothing and holds no token. */
  lemma OpenSums(cfg: Config, s: System)
    requires Counted(s) && Semaphore(cfg, s)
    ensures Counted(s.(links := s.links + [NewLink()])) && Semaphore(cfg, s.(links := s.links + [NewLink()]))
  {
    assert (s.links + [NewLink()])[..|s.links|] == s.links;
  }

  lemma OpenCalls(cfg: Config, s: System)
    requires forall c | c in s.calls :: GoodCall(cfg, s.links, c, s.calls[c])
    ensures forall c | c in s.calls :: GoodCall(cfg, s.links + [NewLink()], c, s.calls[c])
  {
    forall c | c in s.calls ensures GoodCall(cfg, s.links + [NewLink()], c, s.calls[c]) {
      OpenCall(cfg, s.links, c, s.calls[c]);
    }
  }

  lemma OpenPlaced(cfg: Config, s: System)
    requires Placed(cfg, s)
    ensures Placed(cfg, s.(links := s.links + [NewLink()]))
  {
    var s' := s.(links := s.links + [NewLink()]);
    forall c, p | Structured(p) ensures PlacedAt(cfg, s', c, p) {
      assert PlacedAt(cfg, s, c, p);
    }
  }

  lemma OpenCall(cfg: Config, links: seq<Link>, c: Call, info: CallInfo)
    requires GoodCall(cfg, links, c, info)
    ensures GoodCall(cfg, links + [NewLink()], c, info)
  {
  }

  lemma PrepareKeepsInv(cfg: Config, s: System, call: Call, obj: nat)
    requires Inv(cfg, s) && Next(cfg, s, Prepare(call, obj)).Some?
    ensures Inv(cfg, Next(cfg, s, Prepare(call, obj)).value)
  {
    var s' := Next(cfg, s, Prepare(call, obj)).value;
    forall c, p | Structured(p) ensures PlacedAt(cfg, s', c, p) {
      assert PlacedAt(cfg, s, c, p);
    }
  }

  lemma EnqueueKeepsInv(cfg: Config, s: System, call: Call)
    requires Inv(cfg, s) && Next(cfg, s, Enqueue(call)).Some?
    ensures Inv(cfg, Next(cfg, s, Enqueue(call)).value)
  {
    var s' := Next(cfg, s, Enqueue(call)).value;
    forall c, p | Structured(p) ensures PlacedAt(cfg, s', c, p) {
      assert PlacedAt(cfg, s, c, p);
    }
    assert PlacedAt(cfg, s, call, Queued);
    assert NoRepeats(s'.queue);
  }

  /** The caller's own steps move no call between the shared structures. */
  lemma CallerKeepsInv(cfg: Config, s: System, e: SystemEvent)
    requires Inv(cfg, s) && Next(cfg, s, e).Some? && (e.Abandon? || e.Cancel? || e.Return?)
    ensures Inv(cfg, Next(cfg, s, e).value)
  {
    var info := Next(cfg, s, e).value.calls[e.call];
    assert GoodCall(cfg, s.links, e.call, s.calls[e.call]);
    assert GoodCall(cfg, s.links, e.call, info);
    SamePlace(cfg, s, e.call, info);
  }

  lemma SamePlace(cfg: Config, s: System, m: Call, info: CallInfo)
    requires Placed(cfg, s) && PoolApart(s) && m in s.calls && info.obj == s.calls[m].obj
    requires info.place == s.calls[m].place || (s.calls[m].place.Prepared? && info.place.Abandoned?)
    ensures Placed(cfg, s.(calls := s.calls[m := info])) && PoolApart(s.(calls := s.calls[m := info]))
  {
    var s' := s.(calls := s.calls[m := info]);
    forall c, p | Structured(p) ensures PlacedAt(cfg, s', c, p) {
      assert PlacedAt(cfg, s, c, p);
    }
  }

  lemma NextKeepsInv(cfg: Config, s: System, e: SystemEvent)
    requires Inv(cfg, s) && Next(cfg, s, e).Some?
    ensures Inv(cfg, Next(cfg, s, e).value)
  {
    match e
    case Prepare(call, obj) => PrepareKeepsInv(cfg, s, call, obj);
    case Enqueue(call) => EnqueueKeepsInv(cfg, s, call);
    case Open => OpenKeepsInv(cfg, s);
    case At(i, le) => StepAtKeepsInv(cfg, s, i, le);
    case Abandon(_) | Cancel(_) | Return(_) => CallerKeepsInv(cfg, s, e);
  }

  lemma {:induction false} RunKeepsInv(cfg: Config, s: System, events: seq<SystemEvent>)
    requires Inv(cfg, s) && Run(cfg, s, events).Some?
    ensures Inv(cfg, Run(cfg, s, events).value)
    decreases |events|
  {
    if events != [] {
      NextKeepsInv(cfg, s, events[0]);
      RunKeepsInv(cfg, Next(cfg, s, events[0]).value, events[1..]);
    }
  }

  lemma {:induction false} RunSnoc(cfg: Config, s: System, events: seq<SystemEvent>, e: SystemEvent)
    requires Run(cfg, s, events).Some?
    ensures Run(cfg, s, events + [e]) == Next(cfg, Run(cfg, s, events).value, e)
    decreases |events|
  {
    if events == [] {
      assert (events + [e])[1..] == [];
    } else {
      assert (events + [e])[1..] == events[1..] + [e];
      RunSnoc(cfg, Next(cfg, s, events[0]).value, events[1..], e);
    }
  }

  /** One more step from a reachable state. */
  lemma ReachableNext(cfg: Config, s: System, e: SystemEvent)
    requires Reachable(cfg, s) && Next(cfg, s, e).Some?
    ensures Reachable(cfg, Next(cfg, s, e).value)
  {
    var events :| Run(cfg, NewSystem(), events) == Some(s);
    RunSnoc(cfg, NewSystem(), events, e);
  }

  /** The invariant holds in every reachable state, for every interleaving of all goroutines. */
  lemma ReachableInv(cfg: Config, s: System)
    requires Reachable(cfg, s)
    ensures Inv(cfg, s)
  {
    var events :| Run(cfg, NewSystem(), events) == Some(s);
    NewSystemInv(cfg);
    RunKeepsInv(cfg, NewSystem(), events);
  }
}
