/**
 * The server's side with its recycled request objects: goroutines share objects by reference, and a handler's
 * deferred function reads an object that it has already given away (server.go:293-391). The step system here
 * refines the one of `Links`, whose handlers and queues carry values.
 */
module ServerPool {
  import opened Bytes
  import opened Frames
  import opened GoInts
  import opened Wrappers
  import opened Links
  import opened Sequences
  import Codecs
  import ServerMethods
  import ServerRequests
  import SystemInvariant

  type Obj = nat

  /** The fields of a request object that goroutines exchange. */
  datatype Request = Request(id: u64, err: Option<bytes>, input: bytes, output: bytes)

  const BLANK: Request := Request(0, None, [], [])

  datatype Goroutine =
    | Starting(o: Obj)               // before `s.workerChain <- struct{}{}` (server.go:321)
    | Working(o: Obj)                // token taken, before dispatch (server.go:337)
    | Resetting(o: Obj)              // id 0, before `Put(reset())` (server.go:342-347)
    | Answering(o: Obj)              // before `responseChan <- request` (server.go:350)
    | Panicking(o: Obj, text: bytes) // unwinding, before the deferred read of `request.id` (server.go:323)
    | Recovering(o: Obj)             // recovered, before the deferred send (server.go:331)
    | Deferring(o: Obj)              // returned, before the deferred read of `request.id`, object given away
    | NotPanicking                   // that id was not 0, before `recover()` finds nothing (server.go:328)
    | EarlyReturn                    // that id was 0, before `<-s.workerChain` (server.go:324)
    | Returning                      // before `<-s.workerChain` (server.go:334)
    | Ended

  /** The server's `connectionWriter`. */
  datatype Hand = Empty | Holding(o: Obj) | Wrote(o: Obj)

  datatype Conn = Conn(reading: Option<Obj>, handlers: seq<Goroutine>, responses: seq<Obj>, writing: Hand)

  /** Who may touch an object. */
  datatype Owner = Pooled | ReaderOf(c: nat) | HandlerOf(c: nat, h: nat) | Queue(c: nat) | WriterOf(c: nat) | Dropped

  datatype Server = Server(
    heap: map<Obj, Request>,
    pool: set<Obj>,
    conns: seq<Conn>,
    /** Tokens in `workerChain`. */
    tokens: nat,
    /** History only: nothing reads it. */
    owner: map<Obj, Owner>)

  datatype PoolEvent =
    | Get(o: Obj) | Fill(frame: Frame) | DropRead
    | Run(h: nat)                    // the next step of a handler
    | Pick | Print(ok: bool) | Put

  datatype Setup = Setup(codec: Codecs.Codec, table: ServerMethods.Table, pendingResponses: nat, concurrency: nat)

  function Content(s: Server, o: Obj): Request { if o in s.heap then s.heap[o] else BLANK }

  function PanicText(text: bytes): bytes
  {
    Text("panic has occurred while handling request: ") + text
  }

  /** The request after dispatch, or after the recovered panic of its method. */
  function Worked(setup: Setup, r: Request): Request
  {
    var (verdict, out, _) := ServerMethods.Dispatched(setup.codec, setup.table, r.input, r.id > 0);
    match verdict
    case Finished(error) => r.(err := error, output := r.output + out)
    case Panicking(text) => r.(err := Some(PanicText(text)))
  }

  /** What the server makes of a payload whose sender waits for a reply. */
  function Serve(setup: Setup, input: bytes): Body
  {
    var r := Worked(setup, Request(1, None, input, []));
    Body(ServerRequests.ErrorText(r.err), r.output)
  }

  function ReplyOf(r: Request): Reply
  {
    Reply(r.id, Body(ServerRequests.ErrorText(r.err), r.output))
  }

  predicate Panicked(setup: Setup, r: Request)
  {
    ServerMethods.Dispatched(setup.codec, setup.table, r.input, r.id > 0).0.Panicking?
  }

  function PanicOf(setup: Setup, r: Request): bytes
    requires Panicked(setup, r)
  {
    ServerMethods.Dispatched(setup.codec, setup.table, r.input, r.id > 0).0.text
  }

  function Next(setup: Setup, s: Server, c: nat, e: PoolEvent): Option<Server>
    requires c < |s.conns|
  {
    var k := s.conns[c];
    match e
    case Get(o) =>
      if k.reading == None && (o in s.pool || o !in s.heap)
      then Some(s.(heap := s.heap[o := Content(s, o)], pool := s.pool - {o},
                   conns := s.conns[c := k.(reading := Some(o))], owner := s.owner[o := ReaderOf(c)]))
      else None
    case Fill(frame) =>
      if k.reading.Some?
      then
        var o := k.reading.value;
        Some(s.(heap := s.heap[o := Content(s, o).(id := frame.id, input := frame.payload)],
                conns := s.conns[c := k.(reading := None, handlers := k.handlers + [Starting(o)])],
                owner := s.owner[o := HandlerOf(c, |k.handlers|)]))
      else None
    case DropRead =>
      if k.reading.Some?
      then Some(s.(conns := s.conns[c := k.(reading := None)], owner := s.owner[k.reading.value := Dropped]))
      else None
    case Run(h) => if h < |k.handlers| then HandlerNext(setup, s, c, h) else None
    case Pick =>
      if k.writing == Empty && k.responses != []
      then Some(s.(conns := s.conns[c := k.(writing := Holding(k.responses[0]), responses := k.responses[1..])],
                   owner := s.owner[k.responses[0] := WriterOf(c)]))
      else None
    case Print(ok) =>
      if k.writing.Holding?
      then Some(s.(conns := s.conns[c := k.(writing := if ok then Wrote(k.writing.o) else Empty)],
                   owner := if ok then s.owner else s.owner[k.writing.o := Dropped]))
      else None
    case Put =>
      if k.writing.Wrote?
      then Some(s.(heap := s.heap[k.writing.o := BLANK], pool := s.pool + {k.writing.o},
                   conns := s.conns[c := k.(writing := Empty)], owner := s.owner[k.writing.o := Pooled]))
      else None
  }

  /** The object that a goroutine may still touch. */
  function Held(g: Goroutine): Option<Obj>
  {
    match g
    case Starting(o) => Some(o)
    case Working(o) => Some(o)
    case Resetting(o) => Some(o)
    case Answering(o) => Some(o)
    case Panicking(o, _) => Some(o)
    case Recovering(o) => Some(o)
    case _ => None
  }

  /** What becomes of the object that a handler had in hand. */
  datatype Give = Keep | ToPool | ToQueue

  /** A step of a handler: where it is then, what it wrote into its object, to whom the object goes, tokens taken or given back. */
  datatype Turn = Turn(next: Goroutine, wrote: Option<Request>, give: Give, tokens: int)

  function TurnOf(setup: Setup, s: Server, responses: nat, g: Goroutine): (r: Option<Turn>)
    ensures r.Some? ==> s.tokens + r.value.tokens >= 0
  {
    match g
    case Starting(o) => if s.tokens < setup.concurrency then Some(Turn(Working(o), None, Keep, 1)) else None
    case Working(o) =>
      var r := Content(s, o);
      if Panicked(setup, r)
      then
        // in a one-way handler the panic is not recovered
        if r.id == 0 then None else Some(Turn(Panicking(o, PanicOf(setup, r)), None, Keep, 0))
      else Some(Turn(if r.id == 0 then Resetting(o) else Answering(o), Some(Worked(setup, r)), Keep, 0))
    case Resetting(o) => Some(Turn(Deferring(o), Some(BLANK), ToPool, 0))
    case Answering(o) => if responses < setup.pendingResponses then Some(Turn(Deferring(o), None, ToQueue, 0)) else None
    case Panicking(o, text) =>
      if Content(s, o).id == 0 then None
      else Some(Turn(Recovering(o), Some(Content(s, o).(err := Some(PanicText(text)))), Keep, 0))
    case Recovering(o) => if responses < setup.pendingResponses then Some(Turn(Returning, None, ToQueue, 0)) else None
    // the object may be blank by now, or hold another request
    case Deferring(o) => Some(Turn(if Content(s, o).id == 0 then EarlyReturn else NotPanicking, None, Keep, 0))
    case NotPanicking => Some(Turn(Returning, None, Keep, 0))
    case EarlyReturn => if s.tokens > 0 then Some(Turn(Ended, None, Keep, -1)) else None
    case Returning => if s.tokens > 0 then Some(Turn(Ended, None, Keep, -1)) else None
    case Ended => None
  }

  function HandlerNext(setup: Setup, s: Server, c: nat, h: nat): Option<Server>
    requires c < |s.conns| && h < |s.conns[c].handlers|
  {
    var k := s.conns[c];
    var g := k.handlers[h];
    match TurnOf(setup, s, |k.responses|, g)
    case None => None
    case Some(t) => Some(After(s, c, h, t))
  }

  function After(s: Server, c: nat, h: nat, t: Turn): Server
    requires c < |s.conns| && h < |s.conns[c].handlers| && s.tokens + t.tokens >= 0
  {
    var k := s.conns[c];
    var given := if t.give.Keep? then None else Held(k.handlers[h]);
    var wrote := if t.wrote.None? then None else Held(k.handlers[h]);
    Server(
      if wrote.Some? then s.heap[wrote.value := t.wrote.value] else s.heap,
      if t.give.ToPool? && given.Some? then s.pool + {given.value} else s.pool,
      s.conns[c := k.(handlers := k.handlers[h := t.next],
                      responses := if t.give.ToQueue? && given.Some? then k.responses + [given.value] else k.responses)],
      s.tokens + t.tokens,
      if given.None? then s.owner else s.owner[given.value := if t.give.ToPool? then Pooled else Queue(c)])
  }

  // ----- exclusive ownership -----

  function InHand(w: Hand): Option<Obj> { if w.Empty? then None else Some(w.o) }

  ghost predicate Holds(s: Server, o: Obj, w: Owner)
  {
    match w
    case Pooled => o in s.pool
    case ReaderOf(c) => c < |s.conns| && s.conns[c].reading == Some(o)
    case HandlerOf(c, h) => c < |s.conns| && h < |s.conns[c].handlers| && Held(s.conns[c].handlers[h]) == Some(o)
    case Queue(c) => c < |s.conns| && o in s.conns[c].responses
    case WriterOf(c) => c < |s.conns| && InHand(s.conns[c].writing) == Some(o)
    case Dropped => o in s.owner && s.owner[o] == Dropped
  }

  ghost predicate OwnedAt(s: Server, o: Obj, w: Owner)
  {
    Holds(s, o, w) <==> o in s.owner && s.owner[o] == w
  }

  /** Every object is in one place: the pool, a reader, one handler, one queue, one writer, or garbage. */
  ghost predicate Exclusive(s: Server)
  {
    && (forall o, w :: OwnedAt(s, o, w))
    && (forall c | 0 <= c < |s.conns| :: NoRepeats(s.conns[c].responses))
    && s.heap.Keys == s.owner.Keys
  }

  // ----- what the objects hold -----

  ghost predicate Ready(s: Server, g: Goroutine)
  {
    match g
    case Starting(o) => Content(s, o).err == None && Content(s, o).output == []
    case Working(o) => Content(s, o).err == None && Content(s, o).output == []
    case Resetting(o) => Content(s, o).id == 0
    case Answering(o) => Content(s, o).id != 0
    case Panicking(o, _) => Content(s, o).id != 0
    case Recovering(o) => Content(s, o).id != 0
    case _ => true
  }

  ghost predicate Filled(s: Server)
  {
    && (forall o | o in s.pool :: Content(s, o) == BLANK)
    && (forall c | 0 <= c < |s.conns| && s.conns[c].reading.Some? :: Content(s, s.conns[c].reading.value) == BLANK)
    && (forall c, h | 0 <= c < |s.conns| && 0 <= h < |s.conns[c].handlers| :: Ready(s, s.conns[c].handlers[h]))
  }

  ghost predicate Inv(s: Server) { Exclusive(s) && Filled(s) }

  function NewServer(conns: nat): Server
  {
    Server(map[], {}, seq(conns, c => Conn(None, [], [], Empty)), 0, map[])
  }

  lemma NewServerInv(conns: nat)
    ensures Inv(NewServer(conns))
  {
  }

  /** A goroutine's step moves the object it owns to one new place and leaves all others where they are. */
  lemma OwnedStep(setup: Setup, s: Server, c: nat, e: PoolEvent, o: Obj, w: Owner)
    requires Exclusive(s) && c < |s.conns| && Next(setup, s, c, e).Some?
    ensures OwnedAt(Next(setup, s, c, e).value, o, w)
  {
    match e
    case Get(p) => OwnedGet(setup, s, c, p, o, w);
    case Fill(frame) => OwnedFill(setup, s, c, frame, o, w);
    case DropRead => OwnedDrop(setup, s, c, o, w);
    case Run(h) => OwnedRun(setup, s, c, h, o, w);
    case Pick => OwnedPick(setup, s, c, o, w);
    case Print(ok) => OwnedPrint(setup, s, c, ok, o, w);
    case Put => OwnedPut(setup, s, c, o, w);
  }

  lemma OwnedGet(setup: Setup, s: Server, c: nat, p: Obj, o: Obj, w: Owner)
    requires Exclusive(s) && c < |s.conns| && Next(setup, s, c, Get(p)).Some?
    ensures OwnedAt(Next(setup, s, c, Get(p)).value, o, w)
  {
    assert OwnedAt(s, o, w) && OwnedAt(s, o, Pooled) && OwnedAt(s, o, ReaderOf(c)) && OwnedAt(s, p, w) && OwnedAt(s, p, Pooled);
  }

  lemma OwnedFill(setup: Setup, s: Server, c: nat, frame: Frame, o: Obj, w: Owner)
    requires Exclusive(s) && c < |s.conns| && Next(setup, s, c, Fill(frame)).Some?
    ensures OwnedAt(Next(setup, s, c, Fill(frame)).value, o, w)
  {
    assert OwnedAt(s, o, w) && OwnedAt(s, o, ReaderOf(c)) && OwnedAt(s, s.conns[c].reading.value, ReaderOf(c));
  }

  lemma OwnedDrop(setup: Setup, s: Server, c: nat, o: Obj, w: Owner)
    requires Exclusive(s) && c < |s.conns| && Next(setup, s, c, DropRead).Some?
    ensures OwnedAt(Next(setup, s, c, DropRead).value, o, w)
  {
    assert OwnedAt(s, o, w) && OwnedAt(s, o, ReaderOf(c));
  }

  lemma OwnedRun(setup: Setup, s: Server, c: nat, h: nat, o: Obj, w: Owner)
    requires Exclusive(s) && c < |s.conns| && Next(setup, s, c, Run(h)).Some?
    ensures OwnedAt(Next(setup, s, c, Run(h)).value, o, w)
  {
    match s.conns[c].handlers[h]
    case Resetting(_) | Answering(_) | Recovering(_) => OwnedGiven(setup, s, c, h, o, w);
    case _ => OwnedKept(setup, s, c, h, o, w);
  }

  lemma OwnedGiven(setup: Setup, s: Server, c: nat, h: nat, o: Obj, w: Owner)
    requires Exclusive(s) && c < |s.conns| && Next(setup, s, c, Run(h)).Some?
    requires s.conns[c].handlers[h].Resetting? || s.conns[c].handlers[h].Answering? || s.conns[c].handlers[h].Recovering?
    ensures OwnedAt(Next(setup, s, c, Run(h)).value, o, w)
  {
    assert OwnedAt(s, o, w) && OwnedAt(s, o, HandlerOf(c, h));
  }

  lemma OwnedKept(setup: Setup, s: Server, c: nat, h: nat, o: Obj, w: Owner)
    requires Exclusive(s) && c < |s.conns| && Next(setup, s, c, Run(h)).Some?
    requires !(s.conns[c].handlers[h].Resetting? || s.conns[c].handlers[h].Answering? || s.conns[c].handlers[h].Recovering?)
    ensures OwnedAt(Next(setup, s, c, Run(h)).value, o, w)
  {
    assert OwnedAt(s, o, w);
  }

  lemma OwnedPick(setup: Setup, s: Server, c: nat, o: Obj, w: Owner)
    requires Exclusive(s) && c < |s.conns| && Next(setup, s, c, Pick).Some?
    ensures OwnedAt(Next(setup, s, c, Pick).value, o, w)
  {
    var q := s.conns[c].responses;
    assert OwnedAt(s, o, w) && OwnedAt(s, o, Queue(c)) && OwnedAt(s, q[0], Queue(c));
    assert o in q <==> o == q[0] || o in q[1..];
    assert q[0] !in q[1..];
  }

  lemma OwnedPrint(setup: Setup, s: Server, c: nat, ok: bool, o: Obj, w: Owner)
    requires Exclusive(s) && c < |s.conns| && Next(setup, s, c, Print(ok)).Some?
    ensures OwnedAt(Next(setup, s, c, Print(ok)).value, o, w)
  {
    assert OwnedAt(s, o, w) && OwnedAt(s, o, WriterOf(c));
  }

  lemma OwnedPut(setup: Setup, s: Server, c: nat, o: Obj, w: Owner)
    requires Exclusive(s) && c < |s.conns| && Next(setup, s, c, Put).Some?
    ensures OwnedAt(Next(setup, s, c, Put).value, o, w)
  {
    assert OwnedAt(s, o, w) && OwnedAt(s, o, WriterOf(c));
  }

  // ----- goroutines keep out of each other's objects -----

  /** An object that somebody else holds keeps its content. */
  lemma Untouched(setup: Setup, s: Server, c: nat, e: PoolEvent, o: Obj, w: Owner)
    requires Exclusive(s) && c < |s.conns| && Next(setup, s, c, e).Some?
    requires Holds(s, o, w) && w != Pooled
    requires match e case Fill(_) => w != ReaderOf(c) case Run(h) => w != HandlerOf(c, h) case Put => w != WriterOf(c) case _ => true
    ensures Content(Next(setup, s, c, e).value, o) == Content(s, o)
  {
    assert OwnedAt(s, o, w) && OwnedAt(s, o, Pooled);
    match e
    case Fill(_) => assert OwnedAt(s, o, ReaderOf(c));
    case Run(h) => assert OwnedAt(s, o, HandlerOf(c, h));
    case Put => assert OwnedAt(s, o, WriterOf(c));
    case _ =>
  }

  lemma ReadyRun(setup: Setup, s: Server, c: nat, h: nat)
    requires Inv(s) && c < |s.conns| && Next(setup, s, c, Run(h)).Some?
    ensures var s' := Next(setup, s, c, Run(h)).value; Ready(s', s'.conns[c].handlers[h])
  {
    assert Ready(s, s.conns[c].handlers[h]);
  }

  lemma ReadyFill(setup: Setup, s: Server, c: nat, frame: Frame)
    requires Inv(s) && c < |s.conns| && Next(setup, s, c, Fill(frame)).Some?
    ensures var s' := Next(setup, s, c, Fill(frame)).value; Ready(s', s'.conns[c].handlers[|s.conns[c].handlers|])
  {
  }

  lemma ReadyStill(setup: Setup, s: Server, c: nat, e: PoolEvent, d: nat, j: nat)
    requires Inv(s) && c < |s.conns| && Next(setup, s, c, e).Some?
    requires d < |s.conns| && j < |s.conns[d].handlers| && !(d == c && e == Run(j))
    ensures Ready(Next(setup, s, c, e).value, s.conns[d].handlers[j])
  {
    var g := s.conns[d].handlers[j];
    assert Ready(s, g);
    if Held(g).Some? {
      assert Holds(s, Held(g).value, HandlerOf(d, j));
      Untouched(setup, s, c, e, Held(g).value, HandlerOf(d, j));
    }
  }

  lemma ReadyStep(setup: Setup, s: Server, c: nat, e: PoolEvent, d: nat, j: nat)
    requires Inv(s) && c < |s.conns| && Next(setup, s, c, e).Some?
    requires d < |s.conns| && j < |Next(setup, s, c, e).value.conns[d].handlers|
    ensures Ready(Next(setup, s, c, e).value, Next(setup, s, c, e).value.conns[d].handlers[j])
  {
    if e.Fill? && d == c && j == |s.conns[c].handlers| {
      ReadyFill(setup, s, c, e.frame);
    } else if e.Run? && d == c && j == e.h {
      ReadyRun(setup, s, c, e.h);
    } else {
      ReadyStill(setup, s, c, e, d, j);
      assert Next(setup, s, c, e).value.conns[d].handlers[j] == s.conns[d].handlers[j];
    }
  }

  lemma FilledStep(setup: Setup, s: Server, c: nat, e: PoolEvent)
    requires Inv(s) && c < |s.conns| && Next(setup, s, c, e).Some?
    ensures Filled(Next(setup, s, c, e).value)
  {
    var s' := Next(setup, s, c, e).value;
    forall o | o in s'.pool ensures Content(s', o) == BLANK { PooledBlank(setup, s, c, e, o); }
    forall d | 0 <= d < |s'.conns| && s'.conns[d].reading.Some? ensures Content(s', s'.conns[d].reading.value) == BLANK {
      ReadingBlank(setup, s, c, e, d);
    }
    forall d, j | 0 <= d < |s'.conns| && 0 <= j < |s'.conns[d].handlers| ensures Ready(s', s'.conns[d].handlers[j]) {
      ReadyStep(setup, s, c, e, d, j);
    }
  }

  lemma PooledBlank(setup: Setup, s: Server, c: nat, e: PoolEvent, o: Obj)
    requires Inv(s) && c < |s.conns| && Next(setup, s, c, e).Some? && o in Next(setup, s, c, e).value.pool
    ensures Content(Next(setup, s, c, e).value, o) == BLANK
  {
    if o in s.pool {
      assert OwnedAt(s, o, Pooled) && OwnedAt(s, o, ReaderOf(c)) && OwnedAt(s, o, WriterOf(c));
      if e.Run? { assert OwnedAt(s, o, HandlerOf(c, e.h)); }
    }
  }

  lemma ReadingBlank(setup: Setup, s: Server, c: nat, e: PoolEvent, d: nat)
    requires Inv(s) && c < |s.conns| && Next(setup, s, c, e).Some? && d < |s.conns|
    requires Next(setup, s, c, e).value.conns[d].reading.Some?
    ensures var s' := Next(setup, s, c, e).value; Content(s', s'.conns[d].reading.value) == BLANK
  {
    if s.conns[d].reading.Some? {
      assert Holds(s, s.conns[d].reading.value, ReaderOf(d));
      Untouched(setup, s, c, e, s.conns[d].reading.value, ReaderOf(d));
    }
  }

  /** Every step keeps objects exclusive and pooled objects blank. */
  lemma StepKeepsInv(setup: Setup, s: Server, c: nat, e: PoolEvent)
    requires Inv(s) && c < |s.conns| && Next(setup, s, c, e).Some?
    ensures Inv(Next(setup, s, c, e).value)
  {
    var s' := Next(setup, s, c, e).value;
    forall o, w ensures OwnedAt(s', o, w) { OwnedStep(setup, s, c, e, o, w); }
    FilledStep(setup, s, c, e);
    ResponsesStep(setup, s, c, e);
  }

  lemma ResponsesStep(setup: Setup, s: Server, c: nat, e: PoolEvent)
    requires Exclusive(s) && c < |s.conns| && Next(setup, s, c, e).Some?
    ensures var s' := Next(setup, s, c, e).value;
            (forall d | 0 <= d < |s'.conns| :: NoRepeats(s'.conns[d].responses)) && s'.heap.Keys == s'.owner.Keys
  {
    if e.Run? && e.h < |s.conns[c].handlers| && Held(s.conns[c].handlers[e.h]).Some? {
      var o := Held(s.conns[c].handlers[e.h]).value;
      assert OwnedAt(s, o, HandlerOf(c, e.h)) && OwnedAt(s, o, Queue(c));
    }
    if e.Fill? && s.conns[c].reading.Some? { assert OwnedAt(s, s.conns[c].reading.value, ReaderOf(c)); }
    if e.DropRead? && s.conns[c].reading.Some? { assert OwnedAt(s, s.conns[c].reading.value, ReaderOf(c)); }
    if e.Pick? && s.conns[c].responses != [] { assert OwnedAt(s, s.conns[c].responses[0], Queue(c)); }
    if InHand(s.conns[c].writing).Some? { assert OwnedAt(s, s.conns[c].writing.o, WriterOf(c)); }
  }

  // ----- refinement of the connection's step system -----

  function AbsHandler(s: Server, g: Goroutine): Handler
  {
    match g
    case Starting(o) => Arrived(Content(s, o).id, Content(s, o).input)
    case Working(o) => Running(Content(s, o).id, Content(s, o).input)
    case Answering(o) => Sending(ReplyOf(Content(s, o)))
    case Panicking(o, text) => Sending(ReplyOf(Content(s, o).(err := Some(PanicText(text)))))
    case Recovering(o) => Sending(ReplyOf(Content(s, o)))
    case Resetting(_) => Leaving
    case Deferring(_) => Leaving
    case NotPanicking => Leaving
    case EarlyReturn => Leaving
    case Returning => Leaving
    case Ended => Finished
  }

  /** The connection with values in place of objects looks like `l` on the server's side. */
  ghost predicate Matches(s: Server, c: nat, l: Link)
    requires c < |s.conns|
  {
    var k := s.conns[c];
    && |l.handlers| == |k.handlers| && (forall h | 0 <= h < |k.handlers| :: l.handlers[h] == AbsHandler(s, k.handlers[h]))
    && |l.responses| == |k.responses| && (forall q | 0 <= q < |k.responses| :: l.responses[q] == ReplyOf(Content(s, k.responses[q])))
    && l.replying == if k.writing.Holding? then Some(ReplyOf(Content(s, k.writing.o))) else None
  }

  /** The step of `Links` that an object-level step amounts to, if any. */
  function LinkEvent(s: Server, c: nat, e: PoolEvent): Option<Event>
    requires c < |s.conns|
  {
    match e
    case Fill(_) => Some(Spawn)
    case Run(h) =>
      if h >= |s.conns[c].handlers| then None
      else (match s.conns[c].handlers[h]
            case Starting(_) => Some(Acquire(h))
            case Working(_) => Some(Dispatch(h))
            case Answering(_) => Some(Respond(h))
            case Recovering(_) => Some(Respond(h))
            case EarlyReturn => Some(Free(h))
            case Returning => Some(Free(h))
            case _ => None)
    case Pick => Some(TakeReply)
    case Print(ok) => Some(WriteReply(ok))
    case _ => None
  }

  ghost predicate SameServer(cfg: Config, setup: Setup)
  {
    cfg.pendingResponses == setup.pendingResponses && cfg.concurrency == setup.concurrency && forall input :: cfg.serve(input) == Serve(setup, input)
  }

  /** Other connections do not see the step. */
  lemma OthersMatch(setup: Setup, s: Server, c: nat, e: PoolEvent, d: nat, l: Link)
    requires Inv(s) && c < |s.conns| && Next(setup, s, c, e).Some? && d < |s.conns| && d != c && Matches(s, d, l)
    ensures Matches(Next(setup, s, c, e).value, d, l)
  {
    var s' := Next(setup, s, c, e).value;
    var k := s.conns[d];
    assert s'.conns[d] == k;
    forall h | 0 <= h < |k.handlers| ensures l.handlers[h] == AbsHandler(s', k.handlers[h]) {
      SameHandler(setup, s, c, e, d, h);
    }
    forall q | 0 <= q < |k.responses| ensures l.responses[q] == ReplyOf(Content(s', k.responses[q])) {
      Untouched(setup, s, c, e, k.responses[q], Queue(d));
    }
    if k.writing.Holding? { Untouched(setup, s, c, e, k.writing.o, WriterOf(d)); }
  }

  lemma SameHandler(setup: Setup, s: Server, c: nat, e: PoolEvent, d: nat, h: nat)
    requires Inv(s) && c < |s.conns| && Next(setup, s, c, e).Some? && d < |s.conns| && h < |s.conns[d].handlers|
    requires !(d == c && e == Run(h))
    ensures AbsHandler(Next(setup, s, c, e).value, s.conns[d].handlers[h]) == AbsHandler(s, s.conns[d].handlers[h])
  {
    var g := s.conns[d].handlers[h];
    if Held(g).Some? {
      assert Holds(s, Held(g).value, HandlerOf(d, h));
      Untouched(setup, s, c, e, Held(g).value, HandlerOf(d, h));
    }
  }

  lemma SameQueue(setup: Setup, s: Server, c: nat, e: PoolEvent)
    requires Inv(s) && c < |s.conns| && Next(setup, s, c, e).Some?
    ensures var s' := Next(setup, s, c, e).value; var k := s.conns[c];
            forall q | 0 <= q < |k.responses| :: Content(s', k.responses[q]) == Content(s, k.responses[q])
    ensures var s' := Next(setup, s, c, e).value; var k := s.conns[c];
            k.writing.Holding? ==> Content(s', k.writing.o) == Content(s, k.writing.o)
  {
    var k := s.conns[c];
    forall q | 0 <= q < |k.responses|
      ensures Content(Next(setup, s, c, e).value, k.responses[q]) == Content(s, k.responses[q])
    {
      Untouched(setup, s, c, e, k.responses[q], Queue(c));
    }
    if k.writing.Holding? { Untouched(setup, s, c, e, k.writing.o, WriterOf(c)); }
  }

  /** A dispatched object answers what the server makes of its input. */
  lemma WorkedReply(setup: Setup, r: Request)
    requires r.err == None && r.output == [] && r.id != 0
    ensures ReplyOf(Worked(setup, r)) == Reply(r.id, Serve(setup, r.input))
    ensures Worked(setup, r).id == r.id
  {
  }

  /** What the rest of the connection holds is as before. */
  ghost predicate RestKept(s: Server, s': Server, c: nat, h: nat)
    requires c < |s.conns|
  {
    var k := s.conns[c];
    && (forall j | 0 <= j < |k.handlers| && j != h :: AbsHandler(s', k.handlers[j]) == AbsHandler(s, k.handlers[j]))
    && (forall q | 0 <= q < |k.responses| :: Content(s', k.responses[q]) == Content(s, k.responses[q]))
    && (k.writing.Holding? ==> Content(s', k.writing.o) == Content(s, k.writing.o))
  }

  lemma RunKeepsRest(setup: Setup, s: Server, c: nat, h: nat)
    requires Inv(s) && c < |s.conns| && Next(setup, s, c, Run(h)).Some?
    ensures RestKept(s, Next(setup, s, c, Run(h)).value, c, h)
  {
    var s' := Next(setup, s, c, Run(h)).value;
    var k := s.conns[c];
    SameQueue(setup, s, c, Run(h));
    forall j | 0 <= j < |k.handlers| && j != h ensures AbsHandler(s', k.handlers[j]) == AbsHandler(s, k.handlers[j]) {
      SameHandler(setup, s, c, Run(h), c, j);
    }
  }

  lemma HandlerMoved(s: Server, s': Server, c: nat, h: nat, g: Goroutine, l: Link)
    requires c < |s.conns| && h < |s.conns[c].handlers| && Matches(s, c, l) && RestKept(s, s', c, h)
    requires |s'.conns| == |s.conns| && s'.conns[c] == s.conns[c].(handlers := s.conns[c].handlers[h := g])
    ensures Matches(s', c, l.(handlers := l.handlers[h := AbsHandler(s', g)]))
  {
  }

  lemma HandlerAnswered(s: Server, s': Server, c: nat, h: nat, g: Goroutine, o: Obj, l: Link)
    requires c < |s.conns| && h < |s.conns[c].handlers| && Matches(s, c, l) && RestKept(s, s', c, h)
    requires |s'.conns| == |s.conns|
    requires s'.conns[c] == s.conns[c].(handlers := s.conns[c].handlers[h := g], responses := s.conns[c].responses + [o])
    ensures Matches(s', c, l.(handlers := l.handlers[h := AbsHandler(s', g)], responses := l.responses + [ReplyOf(Content(s', o))]))
  {
  }

  lemma RefinesRun(cfg: Config, setup: Setup, s: Server, c: nat, h: nat, l: Link)
    requires Inv(s) && c < |s.conns| && Next(setup, s, c, Run(h)).Some? && SameServer(cfg, setup) && Matches(s, c, l)
    ensures
      var s' := Next(setup, s, c, Run(h)).value;
      match LinkEvent(s, c, Run(h))
      case Some(le) => Step(cfg, l, le).Some? && Matches(s', c, Step(cfg, l, le).value)
      case None => Matches(s', c, l)
  {
    match s.conns[c].handlers[h]
    case Answering(o) => RefinesAnswer(cfg, setup, s, c, h, l);
    case Recovering(o) => RefinesAnswer(cfg, setup, s, c, h, l);
    case Working(o) => RefinesWork(cfg, setup, s, c, h, l);
    case Resetting(_) | Deferring(_) | Panicking(_, _) | NotPanicking => RefinesNothing(setup, s, c, h, l);
    case Starting(o) => RefinesStart(cfg, setup, s, c, h, l);
    case EarlyReturn | Returning => RefinesReturn(cfg, setup, s, c, h, l);
  }

  lemma RefinesNothing(setup: Setup, s: Server, c: nat, h: nat, l: Link)
    requires Inv(s) && c < |s.conns| && Next(setup, s, c, Run(h)).Some? && Matches(s, c, l)
    requires var g := s.conns[c].handlers[h]; g.Resetting? || g.Deferring? || g.Panicking? || g.NotPanicking?
    ensures Matches(Next(setup, s, c, Run(h)).value, c, l)
  {
    var s' := Next(setup, s, c, Run(h)).value;
    RunKeepsRest(setup, s, c, h);
    assert l.handlers[h] == AbsHandler(s, s.conns[c].handlers[h]);
    HandlerMoved(s, s', c, h, s'.conns[c].handlers[h], l);
    assert l.handlers[h := l.handlers[h]] == l.handlers;
  }

  lemma RefinesStart(cfg: Config, setup: Setup, s: Server, c: nat, h: nat, l: Link)
    requires Inv(s) && c < |s.conns| && Next(setup, s, c, Run(h)).Some? && Matches(s, c, l)
    requires s.conns[c].handlers[h].Starting?
    ensures Step(cfg, l, Acquire(h)).Some? && Matches(Next(setup, s, c, Run(h)).value, c, Step(cfg, l, Acquire(h)).value)
  {
    var s' := Next(setup, s, c, Run(h)).value;
    RunKeepsRest(setup, s, c, h);
    assert l.handlers[h] == AbsHandler(s, s.conns[c].handlers[h]);
    HandlerMoved(s, s', c, h, s'.conns[c].handlers[h], l);
  }

  lemma RefinesReturn(cfg: Config, setup: Setup, s: Server, c: nat, h: nat, l: Link)
    requires Inv(s) && c < |s.conns| && Next(setup, s, c, Run(h)).Some? && Matches(s, c, l)
    requires s.conns[c].handlers[h].Returning? || s.conns[c].handlers[h].EarlyReturn?
    ensures Step(cfg, l, Free(h)).Some? && Matches(Next(setup, s, c, Run(h)).value, c, Step(cfg, l, Free(h)).value)
  {
    var s' := Next(setup, s, c, Run(h)).value;
    RunKeepsRest(setup, s, c, h);
    assert l.handlers[h] == AbsHandler(s, s.conns[c].handlers[h]);
    ReturnMatches(cfg, s, s', c, h, l);
  }

  lemma ReturnMatches(cfg: Config, s: Server, s': Server, c: nat, h: nat, l: Link)
    requires c < |s.conns| && h < |s.conns[c].handlers| && Matches(s, c, l) && RestKept(s, s', c, h)
    requires |s'.conns| == |s.conns| && s'.conns[c] == s.conns[c].(handlers := s.conns[c].handlers[h := Ended])
    requires l.handlers[h] == Leaving
    ensures Step(cfg, l, Free(h)).Some? && Matches(s', c, Step(cfg, l, Free(h)).value)
  {
    HandlerMoved(s, s', c, h, Ended, l);
  }

  lemma WorkServes(cfg: Config, setup: Setup, s: Server, c: nat, h: nat)
    requires Inv(s) && c < |s.conns| && h < |s.conns[c].handlers| && s.conns[c].handlers[h].Working?
    requires HandlerNext(setup, s, c, h).Some? && SameServer(cfg, setup)
    ensures var s' := HandlerNext(setup, s, c, h).value;
            AbsHandler(s', s'.conns[c].handlers[h]) == Served(cfg, AbsHandler(s, s.conns[c].handlers[h]))
  {
    var r := Content(s, s.conns[c].handlers[h].o);
    assert Ready(s, s.conns[c].handlers[h]);
    if r.id != 0 { WorkedReply(setup, r); }
  }

  lemma RefinesWork(cfg: Config, setup: Setup, s: Server, c: nat, h: nat, l: Link)
    requires Inv(s) && c < |s.conns| && Next(setup, s, c, Run(h)).Some? && SameServer(cfg, setup) && Matches(s, c, l)
    requires s.conns[c].handlers[h].Working?
    ensures Step(cfg, l, Dispatch(h)).Some? && Matches(Next(setup, s, c, Run(h)).value, c, Step(cfg, l, Dispatch(h)).value)
  {
    var s' := Next(setup, s, c, Run(h)).value;
    WorkServes(cfg, setup, s, c, h);
    RunKeepsRest(setup, s, c, h);
    HandlerMoved(s, s', c, h, s'.conns[c].handlers[h], l);
  }

  lemma RefinesAnswer(cfg: Config, setup: Setup, s: Server, c: nat, h: nat, l: Link)
    requires Inv(s) && c < |s.conns| && Next(setup, s, c, Run(h)).Some? && SameServer(cfg, setup) && Matches(s, c, l)
    requires s.conns[c].handlers[h].Answering? || s.conns[c].handlers[h].Recovering?
    ensures Step(cfg, l, Respond(h)).Some? && Matches(Next(setup, s, c, Run(h)).value, c, Step(cfg, l, Respond(h)).value)
  {
    var s' := Next(setup, s, c, Run(h)).value;
    var g := s.conns[c].handlers[h];
    assert l.handlers[h] == AbsHandler(s, g);
    RunKeepsRest(setup, s, c, h);
    AnswerMatches(cfg, s, s', c, h, s'.conns[c].handlers[h], g.o, l);
  }

  lemma AnswerMatches(cfg: Config, s: Server, s': Server, c: nat, h: nat, g: Goroutine, o: Obj, l: Link)
    requires c < |s.conns| && h < |s.conns[c].handlers| && Matches(s, c, l) && RestKept(s, s', c, h)
    requires |s'.conns| == |s.conns| && |s.conns[c].responses| < cfg.pendingResponses
    requires s'.conns[c] == s.conns[c].(handlers := s.conns[c].handlers[h := g], responses := s.conns[c].responses + [o])
    requires l.handlers[h] == Sending(ReplyOf(Content(s', o))) && AbsHandler(s', g) == Leaving
    ensures Step(cfg, l, Respond(h)).Some? && Matches(s', c, Step(cfg, l, Respond(h)).value)
  {
    HandlerAnswered(s, s', c, h, g, o, l);
  }

  lemma QuietKeepsRest(setup: Setup, s: Server, c: nat, e: PoolEvent)
    requires Inv(s) && c < |s.conns| && Next(setup, s, c, e).Some? && !e.Run?
    ensures RestKept(s, Next(setup, s, c, e).value, c, |s.conns[c].handlers|)
  {
    var k := s.conns[c];
    SameQueue(setup, s, c, e);
    forall j | 0 <= j < |k.handlers| ensures AbsHandler(Next(setup, s, c, e).value, k.handlers[j]) == AbsHandler(s, k.handlers[j]) {
      SameHandler(setup, s, c, e, c, j);
    }
  }

  lemma RefinesFill(cfg: Config, setup: Setup, s: Server, c: nat, frame: Frame, l: Link)
    requires Inv(s) && c < |s.conns| && Next(setup, s, c, Fill(frame)).Some? && Matches(s, c, l)
    requires l.toServer != [] && l.toServer[0] == frame
    ensures Step(cfg, l, Spawn).Some? && Matches(Next(setup, s, c, Fill(frame)).value, c, Step(cfg, l, Spawn).value)
  {
    QuietKeepsRest(setup, s, c, Fill(frame));
  }

  lemma RefinesRecycling(setup: Setup, s: Server, c: nat, e: PoolEvent, l: Link)
    requires Inv(s) && c < |s.conns| && Next(setup, s, c, e).Some? && Matches(s, c, l)
    requires e.Get? || e.DropRead? || e.Put?
    ensures Matches(Next(setup, s, c, e).value, c, l)
  {
    QuietKeepsRest(setup, s, c, e);
  }

  lemma RefinesPick(cfg: Config, setup: Setup, s: Server, c: nat, l: Link)
    requires Inv(s) && c < |s.conns| && Next(setup, s, c, Pick).Some? && Matches(s, c, l)
    ensures Step(cfg, l, TakeReply).Some? && Matches(Next(setup, s, c, Pick).value, c, Step(cfg, l, TakeReply).value)
  {
    QuietKeepsRest(setup, s, c, Pick);
  }

  lemma RefinesPrint(cfg: Config, setup: Setup, s: Server, c: nat, ok: bool, l: Link)
    requires Inv(s) && c < |s.conns| && Next(setup, s, c, Print(ok)).Some? && Matches(s, c, l)
    ensures Step(cfg, l, WriteReply(ok)).Some? && Matches(Next(setup, s, c, Print(ok)).value, c, Step(cfg, l, WriteReply(ok)).value)
  {
    QuietKeepsRest(setup, s, c, Print(ok));
  }

  /**
   * Sharing and recycling objects is invisible: every step of the server's goroutines on objects is a step
   * of the connection's system on values, or none at all, and no other connection notices. In particular a
   * handler takes one token and gives it back once, and a request with an id is answered once, by what the
   * server makes of its own input, whatever became of its object meanwhile.
   */
  lemma PoolRefinesLink(cfg: Config, setup: Setup, s: Server, c: nat, e: PoolEvent, l: Link)
    requires Inv(s) && c < |s.conns| && Next(setup, s, c, e).Some? && SameServer(cfg, setup) && Matches(s, c, l)
    requires e.Fill? ==> l.toServer != [] && l.toServer[0] == e.frame
    ensures
      var s' := Next(setup, s, c, e).value;
      match LinkEvent(s, c, e)
      case Some(le) => Step(cfg, l, le).Some? && Matches(s', c, Step(cfg, l, le).value)
      case None => Matches(s', c, l)
    ensures Inv(Next(setup, s, c, e).value)
    ensures forall d, l' | 0 <= d < |s.conns| && d != c && Matches(s, d, l') :: Matches(Next(setup, s, c, e).value, d, l')
  {
    StepKeepsInv(setup, s, c, e);
    forall d, l' | 0 <= d < |s.conns| && d != c && Matches(s, d, l') ensures Matches(Next(setup, s, c, e).value, d, l') {
      OthersMatch(setup, s, c, e, d, l');
    }
    match e
    case Fill(frame) => RefinesFill(cfg, setup, s, c, frame, l);
    case Run(h) => RefinesRun(cfg, setup, s, c, h, l);
    case Pick => RefinesPick(cfg, setup, s, c, l);
    case Print(ok) => RefinesPrint(cfg, setup, s, c, ok, l);
    case Get(_) | DropRead | Put => RefinesRecycling(setup, s, c, e, l);
  }

  // ----- whole runs -----

  ghost function RunAll(setup: Setup, s: Server, events: seq<(nat, PoolEvent)>): Option<Server>
    decreases |events|
  {
    if events == [] then Some(s)
    else if events[0].0 >= |s.conns| then None
    else match Next(setup, s, events[0].0, events[0].1)
      case None => None
      case Some(s') => RunAll(setup, s', events[1..])
  }

  lemma {:induction false} RunKeepsInv(setup: Setup, s: Server, events: seq<(nat, PoolEvent)>)
    requires Inv(s) && RunAll(setup, s, events).Some?
    ensures Inv(RunAll(setup, s, events).value)
    decreases |events|
  {
    if events != [] {
      StepKeepsInv(setup, s, events[0].0, events[0].1);
      RunKeepsInv(setup, Next(setup, s, events[0].0, events[0].1).value, events[1..]);
    }
  }

  // ----- the semaphore -----

  predicate HoldsToken(g: Goroutine) { !g.Starting? && !g.Ended? }

  function HoldersOf(handlers: seq<Goroutine>): int
  {
    if handlers == [] then 0
    else HoldersOf(handlers[..|handlers| - 1]) + One(HoldsToken(handlers[|handlers| - 1]))
  }

  function AllHolders(conns: seq<Conn>): int
  {
    if conns == [] then 0 else AllHolders(conns[..|conns| - 1]) + HoldersOf(conns[|conns| - 1].handlers)
  }

  ghost predicate Semaphore(setup: Setup, s: Server)
  {
    s.tokens == AllHolders(s.conns) && s.tokens <= setup.concurrency
  }

  lemma {:induction false} HoldersUpdate(handlers: seq<Goroutine>, h: nat, g: Goroutine)
    requires h < |handlers|
    ensures HoldersOf(handlers[h := g]) == HoldersOf(handlers) - One(HoldsToken(handlers[h])) + One(HoldsToken(g))
  {
    var n := |handlers| - 1;
    if h == n {
      assert handlers[h := g][..n] == handlers[..n];
    } else {
      HoldersUpdate(handlers[..n], h, g);
      assert handlers[h := g][..n] == handlers[..n][h := g];
    }
  }

  lemma {:induction false} AllHoldersUpdate(conns: seq<Conn>, c: nat, k: Conn)
    requires c < |conns|
    ensures AllHolders(conns[c := k]) == AllHolders(conns) - HoldersOf(conns[c].handlers) + HoldersOf(k.handlers)
  {
    var n := |conns| - 1;
    if c == n {
      assert conns[c := k][..n] == conns[..n];
    } else {
      AllHoldersUpdate(conns[..n], c, k);
      assert conns[c := k][..n] == conns[..n][c := k];
    }
  }

  lemma {:induction false} NoHolders(conns: nat)
    ensures AllHolders(NewServer(conns).conns) == 0
  {
    if conns != 0 {
      assert NewServer(conns).conns[..conns - 1] == NewServer(conns - 1).conns;
      NoHolders(conns - 1);
    }
  }

  /** What a step does to the tokens is what it does to the handlers that hold one. */
  lemma SemaphoreStep(setup: Setup, s: Server, c: nat, e: PoolEvent)
    requires Semaphore(setup, s) && c < |s.conns| && Next(setup, s, c, e).Some?
    ensures Semaphore(setup, Next(setup, s, c, e).value)
  {
    if e.Run? {
      SemaphoreRun(setup, s, c, e.h);
    } else {
      var k' := Next(setup, s, c, e).value.conns[c];
      AllHoldersUpdate(s.conns, c, k');
      if e.Fill? { assert k'.handlers[..|s.conns[c].handlers|] == s.conns[c].handlers; }
    }
  }

  lemma SemaphoreRun(setup: Setup, s: Server, c: nat, h: nat)
    requires Semaphore(setup, s) && c < |s.conns| && Next(setup, s, c, Run(h)).Some?
    ensures Semaphore(setup, Next(setup, s, c, Run(h)).value)
  {
    var k, t := s.conns[c], TurnOf(setup, s, |s.conns[c].responses|, s.conns[c].handlers[h]).value;
    AllHoldersUpdate(s.conns, c, After(s, c, h, t).conns[c]);
    HoldersUpdate(k.handlers, h, t.next);
  }

  lemma {:induction false} HolderCounts(handlers: seq<Goroutine>, h: nat)
    requires h < |handlers|
    ensures HoldersOf(handlers) >= One(HoldsToken(handlers[h]))
  {
    var n := |handlers| - 1;
    if h < n { HolderCounts(handlers[..n], h); } else { HoldersNonNegative(handlers[..n]); }
  }

  lemma {:induction false} HoldersNonNegative(handlers: seq<Goroutine>)
    ensures HoldersOf(handlers) >= 0
  {
    if handlers != [] { HoldersNonNegative(handlers[..|handlers| - 1]); }
  }

  lemma {:induction false} ConnCounts(conns: seq<Conn>, c: nat)
    requires c < |conns|
    ensures AllHolders(conns) >= HoldersOf(conns[c].handlers)
  {
    var n := |conns| - 1;
    if c < n { ConnCounts(conns[..n], c); HoldersNonNegative(conns[n].handlers); } else { AllNonNegative(conns[..n]); }
  }

  lemma {:induction false} AllNonNegative(conns: seq<Conn>)
    ensures AllHolders(conns) >= 0
  {
    if conns != [] {
      AllNonNegative(conns[..|conns| - 1]);
      HoldersNonNegative(conns[|conns| - 1].handlers);
    }
  }

  /** The tokens of the pool are those of the system that it refines. */
  lemma {:induction false} TokensMatch(s: Server, links: seq<Link>, n: nat)
    requires n <= |s.conns| == |links| && forall c | 0 <= c < |links| :: Matches(s, c, links[c])
    ensures AllHolders(s.conns[..n]) == SystemInvariant.SumOf(links[..n], SystemInvariant.HandlerTokens)
  {
    if n != 0 {
      TokensMatch(s, links, n - 1);
      assert s.conns[..n][..n - 1] == s.conns[..n - 1] && links[..n][..n - 1] == links[..n - 1];
      assert Matches(s, n - 1, links[n - 1]);
      HoldersMatch(s, s.conns[n - 1].handlers, links[n - 1].handlers);
    }
  }

  lemma {:induction false} HoldersMatch(s: Server, gs: seq<Goroutine>, hs: seq<Handler>)
    requires |gs| == |hs| && forall h | 0 <= h < |gs| :: hs[h] == AbsHandler(s, gs[h])
    ensures HoldersOf(gs) == SystemInvariant.TokenHolders(hs)
  {
    if gs != [] { HoldersMatch(s, gs[..|gs| - 1], hs[..|hs| - 1]); }
  }

  // ----- what one handler does in a run -----

  /** Tokens taken and given back, and responses sent. */
  datatype Tally = Tally(taken: nat, given: nat, sent: nat)

  /** What handler `h` of connection `c` has done in a run. */
  ghost function Done(setup: Setup, s: Server, events: seq<(nat, PoolEvent)>, c: nat, h: nat): Tally
    decreases |events|
  {
    if events == [] || events[0].0 >= |s.conns| then Tally(0, 0, 0)
    else match Next(setup, s, events[0].0, events[0].1)
      case None => Tally(0, 0, 0)
      case Some(s') =>
        var t := Done(setup, s', events[1..], c, h);
        if events[0] != (c, Run(h)) || c >= |s.conns| || h >= |s.conns[c].handlers| then t
        else
          var g := s.conns[c].handlers[h];
          Tally(t.taken + One(g.Starting?), t.given + One(g.EarlyReturn? || g.Returning?), t.sent + One(g.Answering? || g.Recovering?))
  }

  /** What it has still to do. */
  function ToTake(g: Goroutine): int { One(g.Starting?) }

  function ToGive(g: Goroutine): int { One(!g.Ended?) }

  function ToSend(s: Server, g: Goroutine): int
  {
    match g
    case Starting(o) => One(Content(s, o).id != 0)
    case Working(o) => One(Content(s, o).id != 0)
    case Answering(_) => 1
    case Panicking(_, _) => 1
    case Recovering(_) => 1
    case _ => 0
  }

  lemma OwnTurn(setup: Setup, s: Server, c: nat, h: nat)
    requires Inv(s) && c < |s.conns| && Next(setup, s, c, Run(h)).Some?
    ensures var s' := Next(setup, s, c, Run(h)).value; var g, g' := s.conns[c].handlers[h], s'.conns[c].handlers[h];
            && ToTake(g') == ToTake(g) - One(g.Starting?)
            && ToGive(g') == ToGive(g) - One(g.EarlyReturn? || g.Returning?)
            && ToSend(s', g') == ToSend(s, g) - One(g.Answering? || g.Recovering?)
  {
    assert Ready(s, s.conns[c].handlers[h]);
  }

  lemma OtherTurn(setup: Setup, s: Server, d: nat, e: PoolEvent, c: nat, h: nat)
    requires Inv(s) && d < |s.conns| && Next(setup, s, d, e).Some? && c < |s.conns| && h < |s.conns[c].handlers|
    requires !(d == c && e == Run(h))
    ensures var s' := Next(setup, s, d, e).value; var g := s.conns[c].handlers[h];
            c < |s'.conns| && h < |s'.conns[c].handlers| && s'.conns[c].handlers[h] == g && ToSend(s', g) == ToSend(s, g)
  {
    var g := s.conns[c].handlers[h];
    if Held(g).Some? {
      assert Holds(s, Held(g).value, HandlerOf(c, h));
      Untouched(setup, s, d, e, Held(g).value, HandlerOf(c, h));
    }
  }

  lemma {:induction false} HandlerRuns(setup: Setup, s: Server, events: seq<(nat, PoolEvent)>, c: nat, h: nat)
    requires Inv(s) && c < |s.conns| && h < |s.conns[c].handlers| && RunAll(setup, s, events).Some?
    ensures
      var s', t := RunAll(setup, s, events).value, Done(setup, s, events, c, h);
      && c < |s'.conns| && h < |s'.conns[c].handlers|
      && var g, g' := s.conns[c].handlers[h], s'.conns[c].handlers[h];
         && t.taken == ToTake(g) - ToTake(g') && t.given == ToGive(g) - ToGive(g')
         && t.sent == ToSend(s, g) - ToSend(s', g')
    decreases |events|
  {
    if events != [] {
      var (d, e) := events[0];
      StepKeepsInv(setup, s, d, e);
      if d == c && e == Run(h) { OwnTurn(setup, s, c, h); } else { OtherTurn(setup, s, d, e, c, h); }
      HandlerRuns(setup, Next(setup, s, d, e).value, events[1..], c, h);
    }
  }

  /**
   * Each handler takes one token and gives one back, and sends one response if its request has an id, none if
   * it is one-way: on reply, on error and on a recovered panic, in any run of the whole server, and whatever
   * the deferred function reads in an object that has been recycled or holds another request by then. Until it
   * ends it has done so at most once.
   */
  lemma OneTokenOneResponse(setup: Setup, conns: nat, before: seq<(nat, PoolEvent)>, events: seq<(nat, PoolEvent)>, c: nat, h: nat)
    requires RunAll(setup, NewServer(conns), before).Some?
    requires var s := RunAll(setup, NewServer(conns), before).value;
             && c < |s.conns| && h < |s.conns[c].handlers| && s.conns[c].handlers[h].Starting?
             && RunAll(setup, s, events).Some?
    ensures
      var s := RunAll(setup, NewServer(conns), before).value;
      var s', t, id := RunAll(setup, s, events).value, Done(setup, s, events, c, h), Content(s, s.conns[c].handlers[h].o).id;
      && t.taken <= 1 && t.given <= t.taken && t.sent <= One(id != 0)
      && c < |s'.conns| && h < |s'.conns[c].handlers|
      && (s'.conns[c].handlers[h].Ended? ==> t == Tally(1, 1, One(id != 0)))
  {
    NewServerInv(conns);
    RunKeepsInv(setup, NewServer(conns), before);
    HandlerRuns(setup, RunAll(setup, NewServer(conns), before).value, events, c, h);
  }

  lemma {:induction false} RunKeepsSemaphore(setup: Setup, s: Server, events: seq<(nat, PoolEvent)>)
    requires Semaphore(setup, s) && RunAll(setup, s, events).Some?
    ensures Semaphore(setup, RunAll(setup, s, events).value)
    decreases |events|
  {
    if events != [] {
      SemaphoreStep(setup, s, events[0].0, events[0].1);
      RunKeepsSemaphore(setup, Next(setup, s, events[0].0, events[0].1).value, events[1..]);
    }
  }

  /**
   * In any run the tokens are the handlers between taking one and giving it back, at most `Concurrency`, and
   * a handler that is about to give one back never waits.
   */
  lemma TokensAreHolders(setup: Setup, conns: nat, events: seq<(nat, PoolEvent)>)
    requires RunAll(setup, NewServer(conns), events).Some?
    ensures var s := RunAll(setup, NewServer(conns), events).value;
            && s.tokens == AllHolders(s.conns) && s.tokens <= setup.concurrency
            && forall c, h | 0 <= c < |s.conns| && 0 <= h < |s.conns[c].handlers|
                 && (s.conns[c].handlers[h].EarlyReturn? || s.conns[c].handlers[h].Returning?) ::
                 Next(setup, s, c, Run(h)).Some?
  {
    NoHolders(conns);
    RunKeepsSemaphore(setup, NewServer(conns), events);
    var s := RunAll(setup, NewServer(conns), events).value;
    forall c, h | 0 <= c < |s.conns| && 0 <= h < |s.conns[c].handlers|
        && (s.conns[c].handlers[h].EarlyReturn? || s.conns[c].handlers[h].Returning?)
      ensures Next(setup, s, c, Run(h)).Some?
    {
      HolderCounts(s.conns[c].handlers, h);
      ConnCounts(s.conns, c);
    }
  }

  /**
   * After any run of all the server's goroutines, no two of them hold the same object, none holds a pooled
   * one, and what is in the pool is like new.
   */
  lemma NoSharing(setup: Setup, conns: nat, events: seq<(nat, PoolEvent)>, o: Obj, w: Owner, w': Owner)
    requires RunAll(setup, NewServer(conns), events).Some?
    requires Holds(RunAll(setup, NewServer(conns), events).value, o, w)
    requires Holds(RunAll(setup, NewServer(conns), events).value, o, w')
    ensures w == w'
    ensures w == Pooled ==> Content(RunAll(setup, NewServer(conns), events).value, o) == BLANK
  {
    NewServerInv(conns);
    RunKeepsInv(setup, NewServer(conns), events);
    var s := RunAll(setup, NewServer(conns), events).value;
    assert OwnedAt(s, o, w) && OwnedAt(s, o, w');
  }

  /** The refinement starts with empty connections on both sides. */
  lemma NewServerMatches(conns: nat, c: nat)
    requires c < conns
    ensures Inv(NewServer(conns)) && Matches(NewServer(conns), c, NewLink())
  {
    NewServerInv(conns);
  }
}
