/**
 * The client's system together with the server on shared, recycled objects: every run of both is a run of
 * `Systems`, so that what is proved about reachable states holds of this server.
 */
module PooledSystems {
  import opened Links
  import opened Systems
  import opened Wrappers
  import LinkInvariant
  import ServerPool
  import SystemInvariant

  /** The links of `client` carry the client's side and the wires; their server's side stays as it was. */
  datatype Whole = Whole(client: System, server: ServerPool.Server)

  datatype WholeEvent = ByClient(event: SystemEvent) | ByServer(c: nat, step: ServerPool.PoolEvent)

  predicate ServerSide(e: Event)
  {
    e.Spawn? || e.Acquire? || e.Dispatch? || e.Respond? || e.Free? || e.TakeReply? || e.WriteReply?
  }

  /** All connections there will be are open from the start. */
  function Start(n: nat): Whole
  {
    Whole(NewSystem().(links := seq(n, c => NewLink())), ServerPool.NewServer(n))
  }

  /** What a step of the server's goroutines does to the wires of its connection. */
  function Wires(s: ServerPool.Server, c: nat, e: ServerPool.PoolEvent, l: Link): Link
    requires c < |s.conns|
  {
    match e
    case Fill(_) => if l.toServer == [] then l else l.(toServer := l.toServer[1..])
    case Print(ok) =>
      if !s.conns[c].writing.Holding? then l
      else l.(toClient := if ok && l.intact then l.toClient + [ServerPool.ReplyOf(ServerPool.Content(s, s.conns[c].writing.o))] else l.toClient,
              intact := l.intact && ok)
    case _ => l
  }

  ghost function Next(cfg: Config, setup: ServerPool.Setup, w: Whole, e: WholeEvent): Option<Whole>
  {
    match e
    case ByClient(event) =>
      if event.Open? || (event.At? && ServerSide(event.event)) then None
      else (match Systems.Next(cfg, w.client, event)
            case None => None
            case Some(s') => Some(w.(client := s')))
    case ByServer(c, step) =>
      if c >= |w.server.conns| || c >= |w.client.links| then None
      // a frame is read off the wire
      else if step.Fill? && (w.client.links[c].toServer == [] || w.client.links[c].toServer[0] != step.frame) then None
      else (match ServerPool.Next(setup, w.server, c, step)
            case None => None
            case Some(s') =>
              Some(Whole(w.client.(links := w.client.links[c := Wires(w.server, c, step, w.client.links[c])]), s')))
  }

  ghost function Run(cfg: Config, setup: ServerPool.Setup, w: Whole, events: seq<WholeEvent>): Option<Whole>
    decreases |events|
  {
    if events == [] then Some(w)
    else match Next(cfg, setup, w, events[0])
      case None => None
      case Some(w') => Run(cfg, setup, w', events[1..])
  }

  // ----- the system that this is a refinement of -----

  /** The connection with the server's side as values. */
  function ViewLink(s: ServerPool.Server, c: nat, l: Link): Link
    requires c < |s.conns|
  {
    var k := s.conns[c];
    l.(handlers := seq(|k.handlers|, h requires 0 <= h < |k.handlers| => ServerPool.AbsHandler(s, k.handlers[h])),
       responses := seq(|k.responses|, q requires 0 <= q < |k.responses| => ServerPool.ReplyOf(ServerPool.Content(s, k.responses[q]))),
       replying := if k.writing.Holding? then Some(ServerPool.ReplyOf(ServerPool.Content(s, k.writing.o))) else None)
  }

  ghost predicate Paired(w: Whole) { |w.server.conns| == |w.client.links| && ServerPool.Inv(w.server) }

  function View(w: Whole): System
    requires |w.server.conns| == |w.client.links|
  {
    w.client.(links := seq(|w.client.links|, c requires 0 <= c < |w.client.links| => ViewLink(w.server, c, w.client.links[c])),
              tokens := w.server.tokens)
  }

  lemma ViewMatches(s: ServerPool.Server, c: nat, l: Link)
    requires c < |s.conns|
    ensures ServerPool.Matches(s, c, ViewLink(s, c, l))
  {
  }

  /** Everything but the server's side. */
  ghost predicate SameRest(l: Link, l': Link)
  {
    && LinkInvariant.SameClientSide(l, l')
    && l'.toServer == l.toServer && l'.toClient == l.toClient && l'.intact == l.intact
  }

  lemma MatchedView(s: ServerPool.Server, c: nat, l: Link, v: Link)
    requires c < |s.conns| && ServerPool.Matches(s, c, v) && SameRest(l, v)
    ensures v == ViewLink(s, c, l)
  {
    assert v.handlers == ViewLink(s, c, l).handlers;
    assert v.responses == ViewLink(s, c, l).responses;
  }

  // ----- the client's steps -----

  /** What the server's side of a connection is makes no difference to the client's steps. */
  lemma StepCommutes(cfg: Config, l: Link, e: Event, v: Link)
    requires !ServerSide(e) && Step(cfg, l, e).Some? && SameRest(l, v)
    ensures Step(cfg, v, e).Some?
    ensures var l', v' := Step(cfg, l, e).value, Step(cfg, v, e).value;
            SameRest(l', v') && v'.handlers == v.handlers && v'.responses == v.responses && v'.replying == v.replying
  {
    match e
    case Dequeue(_) | Check(_) | Register(_) | CountUp | WriteId(_) | WriteRest(_) | Recycle | StopWriter => WriterCommutes(cfg, l, e, v);
    case ReadId | FailRead | Match | CountDown | ReadBody(_, _) | StopReader => ReaderCommutes(cfg, l, e, v);
    case Close(_) | StartRelease | Release(_) | CountRelease | Finish => MainCommutes(l, e, v);
    case _ =>
  }

  lemma WriterCommutes(cfg: Config, l: Link, e: Event, v: Link)
    requires WriterStep(cfg, l, e).Some? && SameRest(l, v)
    ensures WriterStep(cfg, v, e).Some?
    ensures var l', v' := WriterStep(cfg, l, e).value, WriterStep(cfg, v, e).value;
            SameRest(l', v') && v'.handlers == v.handlers && v'.responses == v.responses && v'.replying == v.replying
  {
  }

  lemma ReaderCommutes(cfg: Config, l: Link, e: Event, v: Link)
    requires ReaderStep(cfg, l, e).Some? && SameRest(l, v)
    ensures ReaderStep(cfg, v, e).Some?
    ensures var l', v' := ReaderStep(cfg, l, e).value, ReaderStep(cfg, v, e).value;
            SameRest(l', v') && v'.handlers == v.handlers && v'.responses == v.responses && v'.replying == v.replying
  {
  }

  lemma MainCommutes(l: Link, e: Event, v: Link)
    requires MainStep(l, e).Some? && SameRest(l, v)
    ensures MainStep(v, e).Some?
    ensures var l', v' := MainStep(l, e).value, MainStep(v, e).value;
            SameRest(l', v') && v'.handlers == v.handlers && v'.responses == v.responses && v'.replying == v.replying
  {
  }

  lemma LinkCommutes(cfg: Config, s: ServerPool.Server, c: nat, l: Link, e: Event)
    requires c < |s.conns| && !ServerSide(e) && Step(cfg, l, e).Some?
    ensures Step(cfg, ViewLink(s, c, l), e) == Some(ViewLink(s, c, Step(cfg, l, e).value))
  {
    var v := ViewLink(s, c, l);
    StepCommutes(cfg, l, e, v);
    ViewMatches(s, c, l);
    MatchedView(s, c, Step(cfg, l, e).value, Step(cfg, v, e).value);
  }

  lemma SameMove(cfg: Config, l: Link, v: Link, i: nat, e: Event)
    requires LinkInvariant.SameClientSide(l, v)
    ensures Moved(cfg, v, i, e) == Moved(cfg, l, i, e)
  {
  }

  lemma SameSignal(l: Link, v: Link, i: nat, e: Event, info: CallInfo)
    requires LinkInvariant.SameClientSide(l, v)
    ensures Signalled(v, i, e, info) == Signalled(l, i, e, info)
  {
  }

  /** What a step needs of the shared state, and does to it, depends on the client's side only. */
  lemma SharedCommutes(cfg: Config, s: System, v: System, i: nat, e: Event)
    requires i < |s.links| && i < |v.links| && LinkInvariant.SameClientSide(s.links[i], v.links[i])
    requires v.calls == s.calls && v.pool == s.pool && v.queue == s.queue
    ensures Enabled(s, i, e) && !ServerSide(e) ==> Enabled(v, i, e)
    ensures CallsAfter(cfg, v, i, e) == CallsAfter(cfg, s, i, e)
    ensures PoolAfter(v, i, e) == PoolAfter(s, i, e)
  {
    SameMove(cfg, s.links[i], v.links[i], i, e);
    match Moved(cfg, s.links[i], i, e)
    case None =>
    case Some((m, _)) => if m in s.calls { SameSignal(s.links[i], v.links[i], i, e, s.calls[m]); }
  }

  lemma ClientAt(cfg: Config, w: Whole, i: nat, e: Event)
    requires Paired(w) && !ServerSide(e) && NextAt(cfg, w.client, i, e).Some?
    ensures NextAt(cfg, View(w), i, e) == Some(View(w.(client := NextAt(cfg, w.client, i, e).value)))
  {
    var w' := w.(client := NextAt(cfg, w.client, i, e).value);
    LinkCommutes(cfg, w.server, i, w.client.links[i], e);
    SharedCommutes(cfg, w.client, View(w), i, e);
    assert View(w').links == View(w).links[i := Step(cfg, View(w).links[i], e).value];
  }

  lemma ClientStep(cfg: Config, setup: ServerPool.Setup, w: Whole, event: SystemEvent)
    requires Paired(w) && Next(cfg, setup, w, ByClient(event)).Some?
    ensures var w' := Next(cfg, setup, w, ByClient(event)).value;
            Paired(w') && Systems.Next(cfg, View(w), event) == Some(View(w'))
  {
    var w' := Next(cfg, setup, w, ByClient(event)).value;
    if event.At? {
      ClientAt(cfg, w, event.link, event.event);
    } else {
      assert View(w').links == View(w).links;
    }
  }

  // ----- the server's steps -----

  /** What a server's step of `Links` does to the wires. */
  lemma ServerWires(cfg: Config, s: ServerPool.Server, c: nat, e: ServerPool.PoolEvent, l: Link, v: Link, le: Event)
    requires c < |s.conns| && ServerPool.Matches(s, c, v) && SameRest(l, v)
    requires ServerPool.LinkEvent(s, c, e) == Some(le) && Step(cfg, v, le).Some?
    ensures ServerSide(le) && SameRest(Wires(s, c, e, l), Step(cfg, v, le).value)
  {
    LinkInvariant.ServerTouches(cfg, v, le);
  }

  lemma QuietWires(s: ServerPool.Server, c: nat, e: ServerPool.PoolEvent, l: Link)
    requires c < |s.conns| && ServerPool.LinkEvent(s, c, e) == None
    ensures Wires(s, c, e, l) == l
  {
  }

  /** The tokens go up and down with the steps that take and give them. */
  lemma StepTokens(setup: ServerPool.Setup, s: ServerPool.Server, c: nat, e: ServerPool.PoolEvent)
    requires c < |s.conns| && ServerPool.Next(setup, s, c, e).Some?
    ensures var s', le := ServerPool.Next(setup, s, c, e).value, ServerPool.LinkEvent(s, c, e);
            && |s'.conns| == |s.conns|
            && s'.tokens == s.tokens + (if le.Some? && le.value.Acquire? then 1 else 0) - (if le.Some? && le.value.Free? then 1 else 0)
            && (le.Some? && le.value.Acquire? ==> s.tokens < setup.concurrency)
            && (le.Some? && le.value.Free? ==> s.tokens > 0)
  {
  }

  /** The links after a server's step, seen as values: one has made the step, if any, the others none. */
  lemma ServerLinks(cfg: Config, setup: ServerPool.Setup, w: Whole, c: nat, e: ServerPool.PoolEvent)
    requires Paired(w) && Next(cfg, setup, w, ByServer(c, e)).Some? && ServerPool.SameServer(cfg, setup)
    ensures
      var w', v := Next(cfg, setup, w, ByServer(c, e)).value, View(w);
      && Paired(w')
      && (match ServerPool.LinkEvent(w.server, c, e)
          case None => View(w').links == v.links
          case Some(le) => ServerSide(le) && Step(cfg, v.links[c], le).Some? && View(w').links == v.links[c := Step(cfg, v.links[c], le).value])
  {
    var w', v := Next(cfg, setup, w, ByServer(c, e)).value, View(w);
    ViewMatches(w.server, c, w.client.links[c]);
    StepTokens(setup, w.server, c, e);
    ServerPool.PoolRefinesLink(cfg, setup, w.server, c, e, v.links[c]);
    forall d | 0 <= d < |v.links| && d != c ensures View(w').links[d] == v.links[d] {
      OtherLink(cfg, setup, w, c, e, d);
    }
    match ServerPool.LinkEvent(w.server, c, e)
    case None =>
      QuietWires(w.server, c, e, w.client.links[c]);
      MatchedView(w'.server, c, w'.client.links[c], v.links[c]);
    case Some(le) =>
      ServerWires(cfg, w.server, c, e, w.client.links[c], v.links[c], le);
      MatchedView(w'.server, c, w'.client.links[c], Step(cfg, v.links[c], le).value);
  }

  lemma OtherLink(cfg: Config, setup: ServerPool.Setup, w: Whole, c: nat, e: ServerPool.PoolEvent, d: nat)
    requires Paired(w) && Next(cfg, setup, w, ByServer(c, e)).Some? && d < |w.client.links| && d != c
    ensures var s' := Next(cfg, setup, w, ByServer(c, e)).value.server;
            |s'.conns| == |w.server.conns| && ViewLink(s', d, w.client.links[d]) == ViewLink(w.server, d, w.client.links[d])
  {
    StepTokens(setup, w.server, c, e);
    ViewMatches(w.server, d, w.client.links[d]);
    ServerPool.OthersMatch(setup, w.server, c, e, d, ViewLink(w.server, d, w.client.links[d]));
    MatchedView(Next(cfg, setup, w, ByServer(c, e)).value.server, d, w.client.links[d], ViewLink(w.server, d, w.client.links[d]));
  }

  /** A server's step moves no call and no counter of the client. */
  lemma ServerShares(cfg: Config, s: System, c: nat, le: Event)
    requires c < |s.links| && ServerSide(le)
    ensures CallsAfter(cfg, s, c, le) == s.calls && PoolAfter(s, c, le) == s.pool
    ensures !le.Free? ==> Enabled(s, c, le)
    ensures !le.Dequeue? && !le.CountUp? && !le.CountDown? && !le.CountRelease?
  {
  }

  lemma ServerStep(cfg: Config, setup: ServerPool.Setup, w: Whole, c: nat, e: ServerPool.PoolEvent)
    requires Paired(w) && Next(cfg, setup, w, ByServer(c, e)).Some? && ServerPool.SameServer(cfg, setup)
    ensures
      var w' := Next(cfg, setup, w, ByServer(c, e)).value;
      && Paired(w')
      && match ServerPool.LinkEvent(w.server, c, e)
         case None => View(w') == View(w)
         case Some(le) => Systems.Next(cfg, View(w), At(c, le)) == Some(View(w'))
  {
    ServerLinks(cfg, setup, w, c, e);
    StepTokens(setup, w.server, c, e);
    var le := ServerPool.LinkEvent(w.server, c, e);
    if le.Some? { SystemMoves(cfg, View(w), View(Next(cfg, setup, w, ByServer(c, e)).value), c, le.value); }
  }

  /** A system that differs by one connection's server step, and the token that it moves, has made this step. */
  lemma SystemMoves(cfg: Config, v: System, v': System, c: nat, le: Event)
    requires c < |v.links| && ServerSide(le) && Step(cfg, v.links[c], le).Some?
    requires v' == v.(links := v.links[c := Step(cfg, v.links[c], le).value], tokens := v'.tokens)
    requires v'.tokens == v.tokens + (if le.Acquire? then 1 else 0) - (if le.Free? then 1 else 0)
    requires (le.Acquire? ==> v.tokens < cfg.concurrency) && (le.Free? ==> v.tokens > 0)
    ensures Systems.Next(cfg, v, At(c, le)) == Some(v')
  {
    ServerShares(cfg, v, c, le);
  }

  // ----- whole runs -----

  lemma {:induction false} StartIsReachable(cfg: Config, n: nat)
    ensures SystemInvariant.Inv(cfg, NewSystem()) && Reachable(cfg, NewSystem().(links := seq(n, c => NewLink())))
  {
    SystemInvariant.NewSystemInv(cfg);
    var s := NewSystem().(links := seq(n, c => NewLink()));
    if n == 0 {
      assert s == NewSystem();
      assert Systems.Run(cfg, NewSystem(), []) == Some(NewSystem());
    } else {
      StartIsReachable(cfg, n - 1);
      var before := NewSystem().(links := seq(n - 1, c => NewLink()));
      assert before.links + [NewLink()] == s.links;
      SystemInvariant.ReachableNext(cfg, before, Open);
    }
  }

  lemma StartView(cfg: Config, n: nat)
    ensures Paired(Start(n)) && Reachable(cfg, View(Start(n)))
  {
    ServerPool.NewServerInv(n);
    StartIsReachable(cfg, n);
    forall c | 0 <= c < n ensures View(Start(n)).links[c] == Start(n).client.links[c] {
      MatchedView(ServerPool.NewServer(n), c, NewLink(), NewLink());
    }
    assert View(Start(n)).links == Start(n).client.links;
  }

  lemma StepKeepsView(cfg: Config, setup: ServerPool.Setup, w: Whole, e: WholeEvent)
    requires Paired(w) && Reachable(cfg, View(w)) && ServerPool.SameServer(cfg, setup) && Next(cfg, setup, w, e).Some?
    ensures var w' := Next(cfg, setup, w, e).value; Paired(w') && Reachable(cfg, View(w'))
  {
    match e
    case ByClient(event) =>
      ClientStep(cfg, setup, w, event);
      SystemInvariant.ReachableNext(cfg, View(w), event);
    case ByServer(c, step) =>
      ServerStep(cfg, setup, w, c, step);
      var le := ServerPool.LinkEvent(w.server, c, step);
      if le.Some? { SystemInvariant.ReachableNext(cfg, View(w), At(c, le.value)); }
  }

  lemma {:induction false} RunKeepsView(cfg: Config, setup: ServerPool.Setup, w: Whole, events: seq<WholeEvent>)
    requires Paired(w) && Reachable(cfg, View(w)) && ServerPool.SameServer(cfg, setup) && Run(cfg, setup, w, events).Some?
    ensures var w' := Run(cfg, setup, w, events).value; Paired(w') && Reachable(cfg, View(w'))
    decreases |events|
  {
    if events != [] {
      StepKeepsView(cfg, setup, w, events[0]);
      RunKeepsView(cfg, setup, Next(cfg, setup, w, events[0]).value, events[1..]);
    }
  }

  /**
   * Any run of the client's goroutines and of the server's goroutines on shared, recycled objects, connected
   * by their wires, is seen from the values a run of `Systems`: the calls are as in a reachable state.
   */
  lemma RunsAreReachable(cfg: Config, setup: ServerPool.Setup, n: nat, events: seq<WholeEvent>)
    requires ServerPool.SameServer(cfg, setup) && Run(cfg, setup, Start(n), events).Some?
    ensures var w := Run(cfg, setup, Start(n), events).value;
            && Paired(w) && Reachable(cfg, View(w))
            && View(w).calls == w.client.calls && View(w).tokens == w.server.tokens
  {
    StartView(cfg, n);
    RunKeepsView(cfg, setup, Start(n), events);
  }

  /** The steps of the server in such a run. */
  function ServerSteps(events: seq<WholeEvent>): seq<(nat, ServerPool.PoolEvent)>
  {
    if events == [] then []
    else (if events[0].ByServer? then [(events[0].c, events[0].step)] else []) + ServerSteps(events[1..])
  }

  /** They are a run of the server by itself. */
  lemma {:induction false} ServerRuns(cfg: Config, setup: ServerPool.Setup, w: Whole, events: seq<WholeEvent>)
    requires Run(cfg, setup, w, events).Some?
    ensures ServerPool.RunAll(setup, w.server, ServerSteps(events)) == Some(Run(cfg, setup, w, events).value.server)
    decreases |events|
  {
    if events != [] {
      ServerRuns(cfg, setup, Next(cfg, setup, w, events[0]).value, events[1..]);
      FirstServerStep(cfg, setup, w, events[0], ServerSteps(events[1..]));
    }
  }

  lemma FirstServerStep(cfg: Config, setup: ServerPool.Setup, w: Whole, e: WholeEvent, rest: seq<(nat, ServerPool.PoolEvent)>)
    requires Next(cfg, setup, w, e).Some?
    ensures ServerPool.RunAll(setup, w.server, (if e.ByServer? then [(e.c, e.step)] else []) + rest)
         == ServerPool.RunAll(setup, Next(cfg, setup, w, e).value.server, rest)
  {
    if e.ByServer? {
      assert ([(e.c, e.step)] + rest)[1..] == rest;
    } else {
      assert [] + rest == rest;
    }
  }
}
