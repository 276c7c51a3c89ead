/** Which request each handler of the server works on, over whole runs: its own bytes, and at most one handler each. */
module Executions {
  import opened Wrappers
  import opened Frames
  import opened GoInts
  import opened Links
  import opened Systems
  import LinkInvariant
  import SystemInvariant
  import SystemTheorems

  // ----- the log of a run -----

  /** The request whose frame this step puts on the wire of an unbroken connection. */
  function Wrote(l: Link, e: Event): seq<Call>
  {
    if e == WriteRest(true) && l.writer.WritingRest? && l.intact then [l.writer.call] else []
  }

  /** The requests written in a run, each with the number of its connection. */
  type Log = seq<(nat, Call)>

  function Logged(s: System, e: SystemEvent): Log
  {
    if e.At? && e.link < |s.links| && Wrote(s.links[e.link], e.event) != []
    then [(e.link, Wrote(s.links[e.link], e.event)[0])] else []
  }

  ghost function LogOf(cfg: Config, s: System, events: seq<SystemEvent>): Log
    decreases |events|
  {
    if events == [] || Next(cfg, s, events[0]) == None then []
    else Logged(s, events[0]) + LogOf(cfg, Next(cfg, s, events[0]).value, events[1..])
  }

  /** The requests written to one connection, in order. */
  function On(log: Log, i: nat): seq<Call>
  {
    if log == [] then []
    else On(log[..|log| - 1], i) + if log[|log| - 1].0 == i then [log[|log| - 1].1] else []
  }

  lemma OnSnoc(log: Log, i: nat, c: Call, j: nat)
    ensures On(log + [(i, c)], j) == On(log, j) + if i == j then [c] else []
  {
    assert (log + [(i, c)])[..|log|] == log;
  }

  lemma OnLogged(s: System, i: nat, e: Event, log: Log, j: nat)
    requires i < |s.links|
    ensures On(log + Logged(s, At(i, e)), j) == On(log, j) + if i == j then Wrote(s.links[i], e) else []
  {
    if Wrote(s.links[i], e) != [] {
      OnSnoc(log, i, Wrote(s.links[i], e)[0], j);
    } else {
      assert log + [] == log;
    }
  }

  // ----- one connection -----

  /** A frame or a handler carries this request: its payload, and id 0 exactly if it is one-way. */
  predicate Carries(cfg: Config, id: u64, payload: seq<int>, c: Call)
  {
    payload == cfg.payload(c) && (id == 0 <==> cfg.oneWay(c))
  }

  predicate Works(cfg: Config, h: Handler, c: Call)
  {
    match h
    case Arrived(id, input) => Carries(cfg, id, input, c)
    case Running(id, input) => Carries(cfg, id, input, c)
    case Sending(reply) => reply.body == cfg.serve(cfg.payload(c)) && !cfg.oneWay(c)
    case _ => true
  }

  /** The wire and the handlers have the requests in the order of writing; none is missing if the connection is intact. */
  ghost predicate InOrder(cfg: Config, l: Link, calls: seq<Call>)
  {
    && |l.handlers| + |l.toServer| <= |calls|
    && (l.intact ==> |l.handlers| + |l.toServer| == |calls|)
    && (forall k | 0 <= k < |l.toServer| :: Carries(cfg, l.toServer[k].id, l.toServer[k].payload, calls[|l.handlers| + k]))
    && (forall h | 0 <= h < |l.handlers| :: Works(cfg, l.handlers[h], calls[h]))
  }

  predicate HasDispatched(h: Handler) { h.Leaving? || h.Finished? }

  /** A handler of the connection has dispatched this request and handed its reply on. */
  ghost predicate Handled(handlers: seq<Handler>, calls: seq<Call>, c: Call)
  {
    exists h :: 0 <= h < |handlers| && h < |calls| && calls[h] == c && HasDispatched(handlers[h])
  }

  ghost predicate Names(pending: map<u64, Call>, id: u64, c: Call) { id in pending ==> pending[id] == c }

  ghost predicate Answers(l: Link, calls: seq<Call>, reply: Reply)
  {
    reply.id in l.pending ==> Handled(l.handlers, calls, l.pending[reply.id])
  }

  /** What has a pending id works for the request pending under it, and what has a reply's id follows its handler. */
  ghost predicate Identified(l: Link, calls: seq<Call>)
    requires |l.handlers| + |l.toServer| <= |calls|
  {
    && (forall k | 0 <= k < |l.toServer| :: Names(l.pending, l.toServer[k].id, calls[|l.handlers| + k]))
    && (forall h | 0 <= h < |l.handlers| :: Names(l.pending, LinkInvariant.HandlerId(l.handlers[h]), calls[h]))
    && (forall k | 0 <= k < |l.responses| :: Answers(l, calls, l.responses[k]))
    && (l.replying.Some? ==> Answers(l, calls, l.replying.value))
    && (forall k | 0 <= k < |l.toClient| :: Answers(l, calls, l.toClient[k]))
    && (l.reader.Matching? ==> Answers(l, calls, l.reader.reply))
  }

  ghost predicate Recorded(cfg: Config, l: Link, calls: seq<Call>)
  {
    && InOrder(cfg, l, calls)
    && (LinkInvariant.Active(l) ==> Identified(l, calls))
    && (l.reader.Discounting? || l.reader.Filling? ==> Handled(l.handlers, calls, l.reader.call))
  }

  /** What a handler has done stays done. */
  lemma HandlersGoOn(cfg: Config, l: Link, e: Event)
    requires Step(cfg, l, e).Some?
    ensures var after := Step(cfg, l, e).value.handlers;
            |l.handlers| <= |after| && forall h | 0 <= h < |l.handlers| && HasDispatched(l.handlers[h]) :: HasDispatched(after[h])
  {
    if !e.Spawn? && !e.Acquire? && !e.Dispatch? && !e.Respond? && !e.Free? { OtherHandlers(cfg, l, e); }
  }

  lemma OtherHandlers(cfg: Config, l: Link, e: Event)
    requires Step(cfg, l, e).Some? && !e.Spawn? && !e.Acquire? && !e.Dispatch? && !e.Respond? && !e.Free?
    ensures Step(cfg, l, e).value.handlers == l.handlers
  {
  }

  lemma StaysHandled(before: seq<Handler>, calls: seq<Call>, after: seq<Handler>, more: seq<Call>, c: Call)
    requires Handled(before, calls, c) && |before| <= |after|
    requires forall h | 0 <= h < |before| && HasDispatched(before[h]) :: HasDispatched(after[h])
    ensures Handled(after, calls + more, c)
  {
    var h :| 0 <= h < |before| && h < |calls| && calls[h] == c && HasDispatched(before[h]);
    assert (calls + more)[h] == c && HasDispatched(after[h]);
  }

  lemma StepInOrder(cfg: Config, l: Link, calls: seq<Call>, e: Event)
    requires InOrder(cfg, l, calls) && LinkInvariant.Hands(cfg, l) && Step(cfg, l, e).Some?
    ensures InOrder(cfg, Step(cfg, l, e).value, calls + Wrote(l, e))
  {
    match e
    case WriteRest(ok) => WriteInOrder(cfg, l, calls, ok);
    case Spawn => SpawnInOrder(cfg, l, calls);
    case Acquire(h) => HandlerInOrder(cfg, l, calls, e, h);
    case Dispatch(h) => HandlerInOrder(cfg, l, calls, e, h);
    case Respond(h) => HandlerInOrder(cfg, l, calls, e, h);
    case Free(h) => HandlerInOrder(cfg, l, calls, e, h);
    case _ => QuietInOrder(cfg, l, calls, e);
  }

  lemma WriteInOrder(cfg: Config, l: Link, calls: seq<Call>, ok: bool)
    requires InOrder(cfg, l, calls) && LinkInvariant.Hands(cfg, l) && Step(cfg, l, WriteRest(ok)).Some?
    ensures InOrder(cfg, Step(cfg, l, WriteRest(ok)).value, calls + Wrote(l, WriteRest(ok)))
  {
    assert Carries(cfg, l.writer.id, cfg.payload(l.writer.call), l.writer.call);
  }

  lemma SpawnInOrder(cfg: Config, l: Link, calls: seq<Call>)
    requires InOrder(cfg, l, calls) && Step(cfg, l, Spawn).Some?
    ensures InOrder(cfg, Step(cfg, l, Spawn).value, calls + Wrote(l, Spawn))
  {
    var f := l.toServer[0];
    assert Works(cfg, Arrived(f.id, f.payload), calls[|l.handlers|]);
    assert calls + [] == calls;
  }

  lemma HandlerInOrder(cfg: Config, l: Link, calls: seq<Call>, e: Event, h: nat)
    requires e == Acquire(h) || e == Dispatch(h) || e == Respond(h) || e == Free(h)
    requires InOrder(cfg, l, calls) && Step(cfg, l, e).Some?
    ensures InOrder(cfg, Step(cfg, l, e).value, calls + Wrote(l, e))
  {
    var l' := Step(cfg, l, e).value;
    assert Works(cfg, l.handlers[h], calls[h]);
    assert Works(cfg, l'.handlers[h], calls[h]);
    assert l'.handlers == l.handlers[h := l'.handlers[h]];
    assert calls + [] == calls;
  }

  lemma QuietInOrder(cfg: Config, l: Link, calls: seq<Call>, e: Event)
    requires InOrder(cfg, l, calls) && Step(cfg, l, e).Some?
    requires !e.WriteRest? && !e.Spawn? && !e.Acquire? && !e.Dispatch? && !e.Respond? && !e.Free?
    ensures InOrder(cfg, Step(cfg, l, e).value, calls + Wrote(l, e))
  {
    QuietWire(cfg, l, e);
    assert calls + [] == calls;
    ShorterInOrder(cfg, l, calls, Step(cfg, l, e).value);
  }

  lemma QuietWire(cfg: Config, l: Link, e: Event)
    requires Step(cfg, l, e).Some?
    requires !e.WriteRest? && !e.Spawn? && !e.Acquire? && !e.Dispatch? && !e.Respond? && !e.Free?
    ensures var l' := Step(cfg, l, e).value;
            l'.handlers == l.handlers && l'.toServer <= l.toServer && (l'.intact ==> l.intact && l'.toServer == l.toServer)
  {
  }

  lemma ShorterInOrder(cfg: Config, l: Link, calls: seq<Call>, l': Link)
    requires InOrder(cfg, l, calls)
    requires l'.handlers == l.handlers && l'.toServer <= l.toServer && (l'.intact ==> l.intact && l'.toServer == l.toServer)
    ensures InOrder(cfg, l', calls)
  {
  }

  lemma StepIdentified(cfg: Config, l: Link, calls: seq<Call>, e: Event)
    requires LinkInvariant.Active(l) && LinkInvariant.Control(cfg, l) && LinkInvariant.Flow(l) && LinkInvariant.Content(cfg, l)
    requires InOrder(cfg, l, calls) && Identified(l, calls)
    requires Step(cfg, l, e).Some? && LinkInvariant.Active(Step(cfg, l, e).value) && Step(cfg, l, e).value.registrations < TWO64
    ensures InOrder(cfg, Step(cfg, l, e).value, calls + Wrote(l, e))
    ensures Identified(Step(cfg, l, e).value, calls + Wrote(l, e))
  {
    StepInOrder(cfg, l, calls, e);
    assert calls + [] == calls;
    match e
    case Register(id) => RegisterIdentified(cfg, l, calls, id);
    case WriteRest(ok) => WriteIdentified(cfg, l, calls, ok);
    case Respond(h) => RespondIdentified(cfg, l, calls, h);
    case Acquire(h) => HandlerIdentified(cfg, l, calls, e, h);
    case Dispatch(h) => HandlerIdentified(cfg, l, calls, e, h);
    case Free(h) => HandlerIdentified(cfg, l, calls, e, h);
    case Spawn => SpawnIdentified(cfg, l, calls);
    case Match => FewerIdentified(cfg, l, calls);
    case TakeReply | WriteReply(_) | Cut(_, _) => ServerIdentified(cfg, l, calls, e);
    case ReadId | FailRead | CountDown | ReadBody(_, _) | StopReader => ReaderIdentified(cfg, l, calls, e);
    case _ => ClientIdentified(cfg, l, calls, e);
  }

  lemma RegisterIdentified(cfg: Config, l: Link, calls: seq<Call>, id: u64)
    requires LinkInvariant.Control(cfg, l) && LinkInvariant.Flow(l) && |l.handlers| + |l.toServer| <= |calls|
    requires Identified(l, calls) && Step(cfg, l, Register(id)).Some? && l.registrations + 1 < TWO64
    ensures Identified(Step(cfg, l, Register(id)).value, calls)
  {
    LinkInvariant.AllocationStep(l, id);
    assert LinkInvariant.FlowAt(l, id);
    FreshIdentified(l, calls, id, Step(cfg, l, Register(id)).value);
  }

  lemma FreshIdentified(l: Link, calls: seq<Call>, id: u64, l': Link)
    requires |l.handlers| + |l.toServer| <= |calls| && Identified(l, calls)
    requires id != 0 && LinkInvariant.Copies(l, id) == 0
    requires l'.pending.Keys == l.pending.Keys + {id} && forall j | j in l.pending && j != id :: l'.pending[j] == l.pending[j]
    requires l'.toServer == l.toServer && l'.handlers == l.handlers && l'.responses == l.responses
    requires l'.replying == l.replying && l'.toClient == l.toClient && l'.reader == l.reader
    ensures Identified(l', calls)
  {
    forall k | 0 <= k < |l.toServer| ensures l.toServer[k].id != id { LinkInvariant.Counted(LinkInvariant.FrameIds(l.toServer), k); }
    forall k | 0 <= k < |l.handlers| ensures LinkInvariant.HandlerId(l.handlers[k]) != id { LinkInvariant.Counted(LinkInvariant.HandlerIds(l.handlers), k); }
    forall k | 0 <= k < |l.responses| ensures l.responses[k].id != id { LinkInvariant.Counted(LinkInvariant.ReplyIds(l.responses), k); }
    forall k | 0 <= k < |l.toClient| ensures l.toClient[k].id != id { LinkInvariant.Counted(LinkInvariant.ReplyIds(l.toClient), k); }
  }

  lemma WriteIdentified(cfg: Config, l: Link, calls: seq<Call>, ok: bool)
    requires LinkInvariant.Active(l) && LinkInvariant.Control(cfg, l) && InOrder(cfg, l, calls)
    requires Identified(l, calls) && Step(cfg, l, WriteRest(ok)).Some?
    requires InOrder(cfg, Step(cfg, l, WriteRest(ok)).value, calls + Wrote(l, WriteRest(ok)))
    ensures Identified(Step(cfg, l, WriteRest(ok)).value, calls + Wrote(l, WriteRest(ok)))
  {
    var l' := Step(cfg, l, WriteRest(ok)).value;
    if Wrote(l, WriteRest(ok)) == [] {
      assert calls + [] == calls;
      SameIdentified(l, calls, l');
    } else {
      assert Names(l.pending, l.writer.id, l.writer.call);
      LongerIdentified(l, calls, l', Frame(l.writer.id, cfg.payload(l.writer.call)), l.writer.call);
    }
  }

  ghost predicate SameTraffic(l: Link, l': Link)
  {
    && l'.pending == l.pending && l'.handlers == l.handlers && l'.responses == l.responses && l'.replying == l.replying
    && l'.toClient == l.toClient && l'.reader == l.reader
  }

  lemma SameIdentified(l: Link, calls: seq<Call>, l': Link)
    requires |l.handlers| + |l.toServer| <= |calls| && Identified(l, calls)
    requires SameTraffic(l, l') && l'.toServer == l.toServer
    ensures Identified(l', calls)
  {
  }

  lemma LongerIdentified(l: Link, calls: seq<Call>, l': Link, f: Frame, c: Call)
    requires |l.handlers| + |l.toServer| == |calls| && Identified(l, calls)
    requires SameTraffic(l, l') && l'.toServer == l.toServer + [f] && Names(l.pending, f.id, c)
    ensures Identified(l', calls + [c])
  {
    forall c' | Handled(l.handlers, calls, c') ensures Handled(l.handlers, calls + [c], c') {
      StaysHandled(l.handlers, calls, l.handlers, [c], c');
    }
  }

  lemma KeptAnswers(cfg: Config, l: Link, calls: seq<Call>, e: Event)
    requires Step(cfg, l, e).Some?
    ensures forall c | Handled(l.handlers, calls, c) :: Handled(Step(cfg, l, e).value.handlers, calls, c)
  {
    HandlersGoOn(cfg, l, e);
    assert calls + [] == calls;
    forall c | Handled(l.handlers, calls, c) ensures Handled(Step(cfg, l, e).value.handlers, calls, c) {
      StaysHandled(l.handlers, calls, Step(cfg, l, e).value.handlers, [], c);
    }
  }

  lemma RespondIdentified(cfg: Config, l: Link, calls: seq<Call>, h: nat)
    requires LinkInvariant.Allocation(l)
    requires |l.handlers| + |l.toServer| <= |calls| && Identified(l, calls) && Step(cfg, l, Respond(h)).Some?
    ensures Identified(Step(cfg, l, Respond(h)).value, calls)
  {
    var l' := Step(cfg, l, Respond(h)).value;
    KeptAnswers(cfg, l, calls, Respond(h));
    assert Names(l.pending, LinkInvariant.HandlerId(l.handlers[h]), calls[h]);
    assert HasDispatched(l'.handlers[h]);
    assert Answers(l', calls, l.handlers[h].reply);
  }

  lemma HandlerIdentified(cfg: Config, l: Link, calls: seq<Call>, e: Event, h: nat)
    requires e == Acquire(h) || e == Dispatch(h) || e == Free(h)
    requires |l.handlers| + |l.toServer| <= |calls| && Identified(l, calls) && Step(cfg, l, e).Some?
    ensures Identified(Step(cfg, l, e).value, calls)
  {
    var l' := Step(cfg, l, e).value;
    KeptAnswers(cfg, l, calls, e);
    assert LinkInvariant.HandlerId(l'.handlers[h]) == LinkInvariant.HandlerId(l.handlers[h]);
  }

  lemma SpawnIdentified(cfg: Config, l: Link, calls: seq<Call>)
    requires |l.handlers| + |l.toServer| <= |calls| && Identified(l, calls) && Step(cfg, l, Spawn).Some?
    ensures Identified(Step(cfg, l, Spawn).value, calls)
  {
    KeptAnswers(cfg, l, calls, Spawn);
    assert Names(l.pending, l.toServer[0].id, calls[|l.handlers|]);
  }

  lemma FewerIdentified(cfg: Config, l: Link, calls: seq<Call>)
    requires |l.handlers| + |l.toServer| <= |calls| && Identified(l, calls) && Step(cfg, l, Match).Some?
    ensures Identified(Step(cfg, l, Match).value, calls)
  {
  }

  /** With fewer replies on their way, and these the same or one a step further. */
  lemma ServerIdentified(cfg: Config, l: Link, calls: seq<Call>, e: Event)
    requires |l.handlers| + |l.toServer| <= |calls| && Identified(l, calls) && Step(cfg, l, e).Some?
    requires e.TakeReply? || e.WriteReply? || e.Cut?
    ensures Identified(Step(cfg, l, e).value, calls)
  {
    var l' := Step(cfg, l, e).value;
    match e
    case TakeReply => TakeIdentified(l, calls, l');
    case WriteReply(_) => PassIdentified(l, calls, l');
    case Cut(_, _) => CutIdentified(l, calls, l');
    case _ =>
  }

  lemma TakeIdentified(l: Link, calls: seq<Call>, l': Link)
    requires |l.handlers| + |l.toServer| <= |calls| && Identified(l, calls) && l.responses != []
    requires l' == l.(replying := Some(l.responses[0]), responses := l.responses[1..])
    ensures Identified(l', calls)
  {
  }

  lemma PassIdentified(l: Link, calls: seq<Call>, l': Link)
    requires |l.handlers| + |l.toServer| <= |calls| && Identified(l, calls) && l.replying.Some?
    requires l' == l.(replying := None, toClient := l'.toClient, intact := l'.intact)
    requires l'.toClient == l.toClient || l'.toClient == l.toClient + [l.replying.value]
    ensures Identified(l', calls)
  {
  }

  lemma CutIdentified(l: Link, calls: seq<Call>, l': Link)
    requires |l.handlers| + |l.toServer| <= |calls| && Identified(l, calls)
    requires l' == l.(toServer := l'.toServer, toClient := l'.toClient, intact := false)
    requires l'.toServer <= l.toServer && l'.toClient <= l.toClient
    ensures Identified(l', calls)
  {
  }

  lemma ReaderIdentified(cfg: Config, l: Link, calls: seq<Call>, e: Event)
    requires |l.handlers| + |l.toServer| <= |calls| && Identified(l, calls) && Step(cfg, l, e).Some?
    requires e.ReadId? || e.FailRead? || e.CountDown? || e.ReadBody? || e.StopReader?
    ensures Identified(Step(cfg, l, e).value, calls)
  {
    var l' := Step(cfg, l, e).value;
    assert l' == l.(reader := l'.reader, toClient := l'.toClient);
    assert if e.ReadId? then l.toClient == [l'.reader.reply] + l'.toClient else l'.toClient == l.toClient && !l'.reader.Matching?;
    ReadIdentified(l, calls, l');
  }

  lemma ReadIdentified(l: Link, calls: seq<Call>, l': Link)
    requires |l.handlers| + |l.toServer| <= |calls| && Identified(l, calls)
    requires l' == l.(reader := l'.reader, toClient := l'.toClient)
    requires if l'.reader.Matching? then l.toClient == [l'.reader.reply] + l'.toClient else l'.toClient == l.toClient
    ensures Identified(l', calls)
  {
    if l'.reader.Matching? { assert l.toClient[0] == l'.reader.reply && l.toClient[1..] == l'.toClient; }
  }

  lemma ClientIdentified(cfg: Config, l: Link, calls: seq<Call>, e: Event)
    requires |l.handlers| + |l.toServer| <= |calls| && Identified(l, calls) && Step(cfg, l, e).Some?
    requires LinkInvariant.Active(Step(cfg, l, e).value)
    requires e.Dequeue? || e.Check? || e.CountUp? || e.WriteId? || e.Recycle? || e.StopWriter?
          || e.Close? || e.StartRelease? || e.Release? || e.CountRelease? || e.Finish?
    ensures Identified(Step(cfg, l, e).value, calls)
  {
    SameIdentified(l, calls, Step(cfg, l, e).value);
  }

  /** Every step of a connection keeps the record of what was written to it. */
  lemma StepRecorded(cfg: Config, l: Link, calls: seq<Call>, e: Event)
    requires LinkInvariant.Inv(cfg, l) && Recorded(cfg, l, calls)
    requires Step(cfg, l, e).Some? && Step(cfg, l, e).value.registrations < TWO64
    ensures Recorded(cfg, Step(cfg, l, e).value, calls + Wrote(l, e))
  {
    LinkInvariant.Monotone(cfg, l, e);
    StepInOrder(cfg, l, calls, e);
    if LinkInvariant.Active(Step(cfg, l, e).value) { StepIdentified(cfg, l, calls, e); }
    ReaderHandled(cfg, l, calls, e);
  }

  lemma ReaderHandled(cfg: Config, l: Link, calls: seq<Call>, e: Event)
    requires LinkInvariant.Control(cfg, l) && Recorded(cfg, l, calls) && Step(cfg, l, e).Some?
    ensures var l' := Step(cfg, l, e).value;
            l'.reader.Discounting? || l'.reader.Filling? ==> Handled(l'.handlers, calls + Wrote(l, e), l'.reader.call)
  {
    var l' := Step(cfg, l, e).value;
    if l'.reader.Discounting? || l'.reader.Filling? {
      InHandHandled(cfg, l, calls, e);
      HandlersGoOn(cfg, l, e);
      StaysHandled(l.handlers, calls, l'.handlers, Wrote(l, e), l'.reader.call);
    }
  }

  lemma InHandHandled(cfg: Config, l: Link, calls: seq<Call>, e: Event)
    requires LinkInvariant.Shutdown(l) && Step(cfg, l, e).Some?
    requires LinkInvariant.Active(l) && l.reader.Matching? ==> Answers(l, calls, l.reader.reply)
    requires l.reader.Discounting? || l.reader.Filling? ==> Handled(l.handlers, calls, l.reader.call)
    ensures var r := Step(cfg, l, e).value.reader;
            r.Discounting? || r.Filling? ==> Handled(l.handlers, calls, r.call)
  {
  }

  // ----- the whole system -----

  /** The call that a writer has in its hand and has not written yet. */
  function Carrying(w: Writer): Option<Call>
  {
    match w
    case Taken(call) => Some(call)
    case Registering(call) => Some(call)
    case Counting(call, _, _) => Some(call)
    case WritingId(call, _) => Some(call)
    case WritingRest(call, _) => Some(call)
    case _ => None
  }

  /** The call can not be written any more: it is past the queue and in no writer's hand to be written. */
  ghost predicate Past(calls: map<Call, CallInfo>, links: seq<Link>, c: Call)
  {
    && c in calls && Accepted(calls[c].place) && !calls[c].place.Queued?
    && forall j | 0 <= j < |links| :: Carrying(links[j].writer) != Some(c)
  }

  /** No request was written twice, and none that was written can be written again. */
  ghost predicate Once(s: System, log: Log)
  {
    && (forall a, b | 0 <= a < b < |log| :: log[a].1 != log[b].1)
    && (forall a | 0 <= a < |log| :: Past(s.calls, s.links, log[a].1))
  }

  /** A call whose reply was read was handled on that connection. */
  ghost predicate ReadFrom(links: seq<Link>, log: Log, c: Call, o: Outcome)
  {
    o.Delivered? || o.ReadFailure? ==> o.link < |links| && Handled(links[o.link].handlers, On(log, o.link), c)
  }

  ghost predicate Kept(cfg: Config, s: System, log: Log)
  {
    && (forall a | 0 <= a < |log| :: log[a].0 < |s.links|)
    && (SystemTheorems.FewRegistrations(s) ==>
      && (forall i | 0 <= i < |s.links| :: Recorded(cfg, s.links[i], On(log, i)))
      && Once(s, log)
      && (forall c | c in s.calls :: ReadFrom(s.links, log, c, s.calls[c].outcome)))
  }

  /** Of two connections only one has a call to be written. */
  lemma CarriedIsThere(cfg: Config, s: System, j: nat, c: Call)
    requires SystemInvariant.Inv(cfg, s) && j < |s.links| && s.links[j].registrations < TWO64
    requires Carrying(s.links[j].writer) == Some(c)
    ensures c in s.calls && (s.calls[c].place == InHand(j) || (s.calls[c].place.Pending? && s.calls[c].place.link == j))
  {
    var l := s.links[j];
    assert l in s.links && LinkInvariant.Active(l);
    var p := if HandOf(cfg, l.writer) == Some(c) then InHand(j) else Pending(j, l.writer.id);
    assert SystemInvariant.Holds(cfg, s.queue, s.links, c, p);
    assert SystemInvariant.PlacedAt(cfg, s, c, p);
  }

  // ----- steps of a connection -----

  lemma CarryStep(cfg: Config, l: Link, e: Event)
    requires Step(cfg, l, e).Some?
    ensures var l' := Step(cfg, l, e).value;
            Carrying(l'.writer) == None || Carrying(l'.writer) == Carrying(l.writer) || (e.Dequeue? && Carrying(l'.writer) == Some(e.call))
  {
  }

  lemma MovesOn(cfg: Config, s: System, i: nat, e: Event, c: Call)
    requires i < |s.links| && c in s.calls && Accepted(s.calls[c].place) && !s.calls[c].place.Queued?
    ensures var calls := CallsAfter(cfg, s, i, e);
            c in calls && Accepted(calls[c].place) && !calls[c].place.Queued?
  {
  }

  lemma PastStep(cfg: Config, s: System, i: nat, e: Event, c: Call)
    requires SystemInvariant.Inv(cfg, s) && NextAt(cfg, s, i, e).Some? && Past(s.calls, s.links, c)
    ensures var s' := NextAt(cfg, s, i, e).value; Past(s'.calls, s'.links, c)
  {
    CarryStep(cfg, s.links[i], e);
    MovesOn(cfg, s, i, e, c);
    assert SystemInvariant.PlacedAt(cfg, s, c, Queued);
    assert c !in s.queue;
    assert Carrying(s.links[i].writer) != Some(c);
  }

  /** A request that is being written was not written before, and never will be again. */
  lemma WrittenOnce(cfg: Config, s: System, i: nat, e: Event, c: Call)
    requires SystemInvariant.Inv(cfg, s) && SystemTheorems.FewRegistrations(s)
    requires NextAt(cfg, s, i, e).Some? && Wrote(s.links[i], e) == [c]
    ensures !Past(s.calls, s.links, c)
    ensures var s' := NextAt(cfg, s, i, e).value; Past(s'.calls, s'.links, c)
  {
    assert Carrying(s.links[i].writer) == Some(c);
    CarriedIsThere(cfg, s, i, c);
    forall j | 0 <= j < |s.links| && j != i ensures Carrying(s.links[j].writer) != Some(c) {
      if Carrying(s.links[j].writer) == Some(c) { CarriedIsThere(cfg, s, j, c); }
    }
    MovesOn(cfg, s, i, e, c);
    assert Carrying(Step(cfg, s.links[i], e).value.writer) == None;
  }

  lemma OnceStep(cfg: Config, s: System, i: nat, e: Event, log: Log)
    requires SystemInvariant.Inv(cfg, s) && SystemTheorems.FewRegistrations(s)
    requires NextAt(cfg, s, i, e).Some? && Once(s, log)
    ensures Once(NextAt(cfg, s, i, e).value, log + Logged(s, At(i, e)))
  {
    var s' := NextAt(cfg, s, i, e).value;
    forall a | 0 <= a < |log| ensures Past(s'.calls, s'.links, log[a].1) { PastStep(cfg, s, i, e, log[a].1); }
    if Wrote(s.links[i], e) != [] { WrittenOnce(cfg, s, i, e, s.links[i].writer.call); }
  }

  /** The outcome that a step leaves with a call: its old one, or that of the reading just done. */
  lemma OutcomeAfter(cfg: Config, s: System, i: nat, e: Event, c: Call)
    requires i < |s.links| && Step(cfg, s.links[i], e).Some? && c in s.calls
    ensures var o := CallsAfter(cfg, s, i, e)[c].outcome; var reader := s.links[i].reader;
            o == s.calls[c].outcome || o.Released? || (o.link == i && reader.Filling? && reader.call == c)
  {
  }

  lemma ReadFromStep(cfg: Config, s: System, i: nat, e: Event, log: Log, c: Call)
    requires NextAt(cfg, s, i, e).Some? && c in s.calls && ReadFrom(s.links, log, c, s.calls[c].outcome)
    requires Recorded(cfg, s.links[i], On(log, i))
    ensures var s' := NextAt(cfg, s, i, e).value;
            c in s'.calls && ReadFrom(s'.links, log + Logged(s, At(i, e)), c, s'.calls[c].outcome)
  {
    OutcomeAfter(cfg, s, i, e, c);
    var s' := NextAt(cfg, s, i, e).value;
    var o := s'.calls[c].outcome;
    if o.Delivered? || o.ReadFailure? {
      assert Handled(s.links[o.link].handlers, On(log, o.link), c);
      OnLogged(s, i, e, log, o.link);
      if o.link == i {
        HandlersGoOn(cfg, s.links[i], e);
        StaysHandled(s.links[i].handlers, On(log, i), s'.links[i].handlers, Wrote(s.links[i], e), c);
      }
    }
  }

  lemma FewerBefore(cfg: Config, s: System, e: SystemEvent)
    requires Next(cfg, s, e).Some? && SystemTheorems.FewRegistrations(Next(cfg, s, e).value)
    ensures SystemTheorems.FewRegistrations(s)
  {
    var s' := Next(cfg, s, e).value;
    forall l | l in s.links ensures l.registrations < TWO64 {
      var k :| 0 <= k < |s.links| && s.links[k] == l;
      assert s'.links[k] in s'.links;
      if e.At? && e.link == k { LinkInvariant.Monotone(cfg, l, e.event); }
    }
  }

  lemma RecordedStep(cfg: Config, s: System, i: nat, e: Event, log: Log, j: nat)
    requires SystemInvariant.Inv(cfg, s) && NextAt(cfg, s, i, e).Some? && j < |s.links|
    requires SystemTheorems.FewRegistrations(NextAt(cfg, s, i, e).value)
    requires Recorded(cfg, s.links[j], On(log, j))
    ensures Recorded(cfg, NextAt(cfg, s, i, e).value.links[j], On(log + Logged(s, At(i, e)), j))
  {
    OnLogged(s, i, e, log, j);
    var s' := NextAt(cfg, s, i, e).value;
    assert s.links[i] in s.links && s'.links[i] in s'.links;
    if i == j { StepRecorded(cfg, s.links[i], On(log, i), e); } else { assert On(log, j) + [] == On(log, j); }
  }

  lemma StepKept(cfg: Config, s: System, i: nat, e: Event, log: Log)
    requires SystemInvariant.Inv(cfg, s) && NextAt(cfg, s, i, e).Some? && Kept(cfg, s, log)
    ensures Kept(cfg, NextAt(cfg, s, i, e).value, log + Logged(s, At(i, e)))
  {
    var s' := NextAt(cfg, s, i, e).value;
    if SystemTheorems.FewRegistrations(s') {
      FewerBefore(cfg, s, At(i, e));
      OnceStep(cfg, s, i, e, log);
      forall j | 0 <= j < |s'.links| ensures Recorded(cfg, s'.links[j], On(log + Logged(s, At(i, e)), j)) {
        RecordedStep(cfg, s, i, e, log, j);
      }
      forall c | c in s'.calls ensures ReadFrom(s'.links, log + Logged(s, At(i, e)), c, s'.calls[c].outcome) {
        SystemInvariant.HoldsStep(cfg, s, i, e, 0, Queued);
        ReadFromStep(cfg, s, i, e, log, c);
      }
    }
  }

  // ----- the other steps -----

  lemma {:induction false} NothingOn(log: Log, i: nat)
    requires forall a | 0 <= a < |log| :: log[a].0 < i
    ensures On(log, i) == []
  {
    if log != [] { NothingOn(log[..|log| - 1], i); }
  }

  lemma OpenKept(cfg: Config, s: System, log: Log)
    requires Kept(cfg, s, log)
    ensures Kept(cfg, s.(links := s.links + [NewLink()]), log)
  {
    var s' := s.(links := s.links + [NewLink()]);
    if SystemTheorems.FewRegistrations(s') {
      FewerBefore(cfg, s, Open);
      NothingOn(log, |s.links|);
      assert forall j | 0 <= j < |s.links| :: s'.links[j] == s.links[j];
      assert Recorded(cfg, NewLink(), []);
      forall c | c in s.calls ensures ReadFrom(s'.links, log, c, s.calls[c].outcome) {
        assert ReadFrom(s.links, log, c, s.calls[c].outcome);
      }
    }
  }

  lemma CallerKept(cfg: Config, s: System, e: SystemEvent, log: Log)
    requires Kept(cfg, s, log) && Next(cfg, s, e).Some? && !e.At? && !e.Open?
    ensures Kept(cfg, Next(cfg, s, e).value, log)
  {
    var s' := Next(cfg, s, e).value;
    assert s'.links == s.links;
    if SystemTheorems.FewRegistrations(s) {
      forall a | 0 <= a < |log| ensures Past(s'.calls, s'.links, log[a].1) { assert Past(s.calls, s.links, log[a].1); }
      forall c | c in s'.calls ensures ReadFrom(s'.links, log, c, s'.calls[c].outcome) {
        assert c in s.calls ==> s'.calls[c].outcome == s.calls[c].outcome;
      }
    }
  }

  lemma NextKept(cfg: Config, s: System, e: SystemEvent, log: Log)
    requires SystemInvariant.Inv(cfg, s) && Kept(cfg, s, log) && Next(cfg, s, e).Some?
    ensures Kept(cfg, Next(cfg, s, e).value, log + Logged(s, e))
  {
    if e.At? {
      StepKept(cfg, s, e.link, e.event, log);
    } else {
      assert log + [] == log;
      if e.Open? { OpenKept(cfg, s, log); } else { CallerKept(cfg, s, e, log); }
    }
  }

  lemma {:induction false} RunKept(cfg: Config, s: System, log: Log, events: seq<SystemEvent>)
    requires SystemInvariant.Inv(cfg, s) && Kept(cfg, s, log) && Run(cfg, s, events).Some?
    ensures Kept(cfg, Run(cfg, s, events).value, log + LogOf(cfg, s, events))
    decreases |events|
  {
    if events == [] {
      assert log + [] == log;
    } else {
      FirstLogged(cfg, s, log, events);
      SystemInvariant.NextKeepsInv(cfg, s, events[0]);
      NextKept(cfg, s, events[0], log);
      RunKept(cfg, Next(cfg, s, events[0]).value, log + Logged(s, events[0]), events[1..]);
    }
  }

  lemma FirstLogged(cfg: Config, s: System, log: Log, events: seq<SystemEvent>)
    requires events != [] && Run(cfg, s, events).Some?
    ensures Next(cfg, s, events[0]).Some? && Run(cfg, s, events) == Run(cfg, Next(cfg, s, events[0]).value, events[1..])
    ensures log + LogOf(cfg, s, events) == (log + Logged(s, events[0])) + LogOf(cfg, Next(cfg, s, events[0]).value, events[1..])
  {
  }

  lemma RunFromStart(cfg: Config, events: seq<SystemEvent>)
    requires Run(cfg, NewSystem(), events).Some?
    ensures Kept(cfg, Run(cfg, NewSystem(), events).value, LogOf(cfg, NewSystem(), events))
  {
    SystemInvariant.NewSystemInv(cfg);
    RunKept(cfg, NewSystem(), [], events);
    assert [] + LogOf(cfg, NewSystem(), events) == LogOf(cfg, NewSystem(), events);
  }

  // ----- main results -----

  /**
   * In any run the h-th handler of a connection works on the h-th request written to it, one-way or not: it has
   * exactly this caller's payload, id 0 if and only if it is one-way, and answers with what the server makes of
   * this payload. On an intact connection every request written is on the wire or with its handler.
   */
  lemma HandlersHaveOwnPayload(cfg: Config, events: seq<SystemEvent>, i: nat, h: nat)
    requires Run(cfg, NewSystem(), events).Some?
    requires var s := Run(cfg, NewSystem(), events).value;
             SystemTheorems.FewRegistrations(s) && i < |s.links| && h < |s.links[i].handlers|
    ensures
      var l, calls := Run(cfg, NewSystem(), events).value.links[i], On(LogOf(cfg, NewSystem(), events), i);
      && h < |calls|
      && (l.handlers[h].Arrived? || l.handlers[h].Running? ==>
           l.handlers[h].input == cfg.payload(calls[h]) && (l.handlers[h].id == 0 <==> cfg.oneWay(calls[h])))
      && (l.handlers[h].Sending? ==>
           l.handlers[h].reply.body == cfg.serve(cfg.payload(calls[h])) && !cfg.oneWay(calls[h]))
      && (l.intact ==> |l.handlers| + |l.toServer| == |calls|)
  {
    RunFromStart(cfg, events);
    var l, calls := Run(cfg, NewSystem(), events).value.links[i], On(LogOf(cfg, NewSystem(), events), i);
    assert Recorded(cfg, l, calls);
    assert Works(cfg, l.handlers[h], calls[h]);
  }

  lemma {:induction false} OnListed(log: Log, i: nat, h: nat)
    requires h < |On(log, i)|
    ensures exists a :: 0 <= a < |log| && log[a] == (i, On(log, i)[h])
  {
    var n := |log| - 1;
    if h < |On(log[..n], i)| {
      OnListed(log[..n], i, h);
      var a :| 0 <= a < n && log[..n][a] == (i, On(log[..n], i)[h]);
      assert log[a] == (i, On(log, i)[h]);
    } else {
      assert log[n] == (i, On(log, i)[h]);
    }
  }

  lemma {:induction false} OnDistinct(log: Log, i: nat, h: nat, j: nat, k: nat)
    requires forall a, b | 0 <= a < b < |log| :: log[a].1 != log[b].1
    requires h < |On(log, i)| && k < |On(log, j)| && (i, h) != (j, k)
    ensures On(log, i)[h] != On(log, j)[k]
  {
    var n := |log| - 1;
    if h < |On(log[..n], i)| { OnListed(log[..n], i, h); }
    if k < |On(log[..n], j)| { OnListed(log[..n], j, k); }
    if h < |On(log[..n], i)| && k < |On(log[..n], j)| { OnDistinct(log[..n], i, h, j, k); }
  }

  /** No request has two handlers, on one connection or on two. */
  lemma HandledAtMostOnce(cfg: Config, events: seq<SystemEvent>, i: nat, h: nat, j: nat, k: nat)
    requires Run(cfg, NewSystem(), events).Some?
    requires var s := Run(cfg, NewSystem(), events).value;
             && SystemTheorems.FewRegistrations(s) && i < |s.links| && j < |s.links|
             && h < |s.links[i].handlers| && k < |s.links[j].handlers| && (i, h) != (j, k)
    ensures var log := LogOf(cfg, NewSystem(), events);
            h < |On(log, i)| && k < |On(log, j)| && On(log, i)[h] != On(log, j)[k]
  {
    RunFromStart(cfg, events);
    HandlersHaveOwnPayload(cfg, events, i, h);
    HandlersHaveOwnPayload(cfg, events, j, k);
    OnDistinct(LogOf(cfg, NewSystem(), events), i, h, j, k);
  }

  /** This handler, and no other of any connection, works on this call. */
  ghost predicate OnlyHandler(links: seq<Link>, log: Log, c: Call, i: nat, h: nat)
  {
    && i < |links| && h < |links[i].handlers| && h < |On(log, i)| && On(log, i)[h] == c
    && forall j, k | 0 <= j < |links| && 0 <= k < |links[j].handlers| && (j, k) != (i, h) :: k < |On(log, j)| && On(log, j)[k] != c
  }

  /**
   * Exactly once: a call whose reply was read, decoded or not, was dispatched by one handler, on the connection
   * that the reply came by, and has no other handler anywhere.
   */
  lemma AnsweredWasHandledOnce(cfg: Config, events: seq<SystemEvent>, c: Call)
    requires Run(cfg, NewSystem(), events).Some?
    requires var s := Run(cfg, NewSystem(), events).value;
             && SystemTheorems.FewRegistrations(s) && c in s.calls && (s.calls[c].outcome.Delivered? || s.calls[c].outcome.ReadFailure?)
    ensures
      var s, log := Run(cfg, NewSystem(), events).value, LogOf(cfg, NewSystem(), events);
      var i := s.calls[c].outcome.link;
      i < |s.links| && exists h: nat :: OnlyHandler(s.links, log, c, i, h) && HasDispatched(s.links[i].handlers[h])
  {
    RunFromStart(cfg, events);
    var s, log := Run(cfg, NewSystem(), events).value, LogOf(cfg, NewSystem(), events);
    var i := s.calls[c].outcome.link;
    assert ReadFrom(s.links, log, c, s.calls[c].outcome);
    var h :| 0 <= h < |s.links[i].handlers| && h < |On(log, i)| && On(log, i)[h] == c && HasDispatched(s.links[i].handlers[h]);
    forall j, k | 0 <= j < |s.links| && 0 <= k < |s.links[j].handlers| && (j, k) != (i, h)
      ensures k < |On(log, j)| && On(log, j)[k] != c
    {
      HandledAtMostOnce(cfg, events, j, k, i, h);
    }
    assert OnlyHandler(s.links, log, c, i, h);
  }
}
