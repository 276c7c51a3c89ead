/** Runs in which a `Call` returns nil although its method was never heard of, or failed. */
module NilErrors {
  import opened Frames
  import opened GoInts
  import opened Links
  import opened Systems
  import opened SystemInvariant
  import opened Wrappers

  /** One call, number 0, on one connection. */
  function Single(info: CallInfo, queue: seq<Call>, l: Link, count: u64, tokens: nat): System
  {
    OnOneLink(map[0 := info], queue, l, count, tokens, 1)
  }

  /** Any calls on one connection, nothing pooled, with so many objects made. */
  function OnOneLink(calls: map<Call, CallInfo>, queue: seq<Call>, l: Link, count: u64, tokens: nat, objects: nat): System
  {
    System(calls, queue, [l], {}, objects, count, tokens)
  }

  /** A step of the connection that puts no object back. */
  lemma CallsMove(cfg: Config, calls: map<Call, CallInfo>, queue: seq<Call>, l: Link, count: u64, tokens: nat, objects: nat, e: Event,
                  calls': map<Call, CallInfo>, queue': seq<Call>, l': Link, count': u64, tokens': nat)
    requires Reachable(cfg, OnOneLink(calls, queue, l, count, tokens, objects))
    requires Step(cfg, l, e) == Some(l') && Enabled(OnOneLink(calls, queue, l, count, tokens, objects), 0, e)
    requires e.Acquire? ==> tokens < cfg.concurrency
    requires !e.Recycle? && e != Check(true)
    requires calls' == CallsAfter(cfg, OnOneLink(calls, queue, l, count, tokens, objects), 0, e)
    requires queue' == if e.Dequeue? then queue[1..] else queue
    requires count' == if e.CountUp? then Plus1(count) else if e.CountDown? || e.CountRelease? then Minus1(count) else count
    requires tokens' == if e.Acquire? then tokens + 1 else if e.Free? then tokens - 1 else tokens
    ensures Reachable(cfg, OnOneLink(calls', queue', l', count', tokens', objects))
  {
    var s := OnOneLink(calls, queue, l, count, tokens, objects);
    assert s.links[0 := l'] == [l'];
    assert Next(cfg, s, At(0, e)) == Some(OnOneLink(calls', queue', l', count', tokens', objects));
    ReachableNext(cfg, s, At(0, e));
  }

  function InfoAfter(cfg: Config, l: Link, e: Event, info: CallInfo): CallInfo
  {
    match Moved(cfg, l, 0, e)
    case None => info
    case Some((_, place)) => Signalled(l, 0, e, info).(place := place)
  }

  /** A step of the connection that puts no object back. */
  lemma LinkMoves(cfg: Config, info: CallInfo, queue: seq<Call>, l: Link, count: u64, tokens: nat, e: Event,
                  info': CallInfo, queue': seq<Call>, l': Link, count': u64, tokens': nat)
    requires Reachable(cfg, Single(info, queue, l, count, tokens))
    requires Step(cfg, l, e) == Some(l') && Enabled(Single(info, queue, l, count, tokens), 0, e)
    requires e.Acquire? ==> tokens < cfg.concurrency
    requires !e.Recycle? && e != Check(true)
    requires match Moved(cfg, l, 0, e) case Some((m, _)) => m == 0 case None => true
    requires info' == InfoAfter(cfg, l, e, info)
    requires queue' == if e.Dequeue? then queue[1..] else queue
    requires count' == if e.CountUp? then Plus1(count) else if e.CountDown? || e.CountRelease? then Minus1(count) else count
    requires tokens' == if e.Acquire? then tokens + 1 else if e.Free? then tokens - 1 else tokens
    ensures Reachable(cfg, Single(info', queue', l', count', tokens'))
  {
    SingleAfter(cfg, info, queue, l, count, tokens, e);
    CallsMove(cfg, map[0 := info], queue, l, count, tokens, 1, e, map[0 := info'], queue', l', count', tokens');
  }

  lemma SingleAfter(cfg: Config, info: CallInfo, queue: seq<Call>, l: Link, count: u64, tokens: nat, e: Event)
    requires match Moved(cfg, l, 0, e) case Some((m, _)) => m == 0 case None => true
    ensures CallsAfter(cfg, Single(info, queue, l, count, tokens), 0, e) == map[0 := InfoAfter(cfg, l, e, info)]
  {
    var calls, info' := map[0 := info], InfoAfter(cfg, l, e, info);
    assert calls[0 := info'] == map[0 := info'] && calls[0 := info] == calls;
  }

  /** A step that moves neither the call nor a counter. */
  lemma LinkTurns(cfg: Config, info: CallInfo, l: Link, count: u64, tokens: nat, e: Event, l': Link)
    requires Reachable(cfg, Single(info, [], l, count, tokens))
    requires Step(cfg, l, e) == Some(l') && Enabled(Single(info, [], l, count, tokens), 0, e)
    requires Moved(cfg, l, 0, e) == None && !e.Recycle? && e != Check(true) && !e.Dequeue?
    requires !e.CountUp? && !e.CountDown? && !e.CountRelease? && !e.Acquire? && !e.Free?
    ensures Reachable(cfg, Single(info, [], l', count, tokens))
  {
    LinkMoves(cfg, info, [], l, count, tokens, e, info, [], l', count, tokens);
  }

  /** A configuration in which one call can be made. */
  ghost predicate Roomy(cfg: Config)
  {
    cfg.pendingRequests > 0 && cfg.pendingResponses > 0 && cfg.concurrency > 0 && !cfg.oneWay(0)
  }

  function Info(place: Place): CallInfo
  {
    CallInfo(0, place, false, false, NoError, NoError, 0, 0, 0, NoOutcome)
  }

  lemma Enqueued(cfg: Config)
    requires Roomy(cfg)
    ensures Reachable(cfg, Single(Info(Queued), [0], NewLink(), 0, 0))
  {
    var prepared := System(map[0 := Info(Prepared)], [], [], {}, 1, 0, 0);
    var queued := System(map[0 := Info(Queued)], [0], [], {}, 1, 0, 0);
    assert Run(cfg, NewSystem(), []) == Some(NewSystem());
    assert map[][0 := Info(Prepared)] == prepared.calls && {} - {0} == prepared.pool;
    Reaches(cfg, NewSystem(), Prepare(0, 0), prepared);
    assert prepared.calls[0 := Info(Queued)] == queued.calls;
    assert prepared.queue + [0] == queued.queue;
    Reaches(cfg, prepared, Enqueue(0), queued);
    assert queued.links + [NewLink()] == [NewLink()];
    Reaches(cfg, queued, Open, Single(Info(Queued), [0], NewLink(), 0, 0));
  }

  lemma Reaches(cfg: Config, s: System, e: SystemEvent, s': System)
    requires Reachable(cfg, s) && Next(cfg, s, e) == Some(s')
    ensures Reachable(cfg, s')
  {
    ReachableNext(cfg, s, e);
  }

  /** The call is registered under id 1 and counted. */
  function Registered(): Link
  {
    NewLink().(pending := map[1 := 0], requestId := 1, registrations := 1, writer := WritingId(0, 1))
  }

  lemma CallTaken(cfg: Config)
    requires Roomy(cfg)
    ensures Reachable(cfg, Single(Info(InHand(0)), [], NewLink().(writer := Registering(0)), 0, 0))
  {
    Enqueued(cfg);
    var taken := NewLink().(writer := Taken(0));
    LinkMoves(cfg, Info(Queued), [0], NewLink(), 0, 0, Dequeue(0), Info(InHand(0)), [], taken, 0, 0);
    LinkTurns(cfg, Info(InHand(0)), taken, 0, 0, Check(false), NewLink().(writer := Registering(0)));
  }

  lemma CallRegistered(cfg: Config)
    requires Roomy(cfg)
    ensures Reachable(cfg, Single(Info(Pending(0, 1)), [], Registered(), 1, 0))
  {
    CallTaken(cfg);
    var inserted := Registered().(writer := Counting(0, 1, 0));
    LinkMoves(cfg, Info(InHand(0)), [], NewLink().(writer := Registering(0)), 0, 0, Register(1),
              Info(Pending(0, 1)), [], inserted, 0, 0);
    LinkMoves(cfg, Info(Pending(0, 1)), [], inserted, 0, 0, CountUp, Info(Pending(0, 1)), [], Registered(), 1, 0);
  }

  /** `Call` returns what its request says. */
  lemma CallReturns(cfg: Config, info: CallInfo, l: Link, count: u64, tokens: nat)
    requires Reachable(cfg, Single(info, [], l, count, tokens)) && !info.returned && info.buffered + info.closes > 0
    ensures var after := info.(returned := true, result := info.err, buffered := if info.buffered > 0 then info.buffered - 1 else 0);
            Reachable(cfg, Single(after, [], l, count, tokens))
  {
    var s := Single(info, [], l, count, tokens);
    var after := info.(returned := true, result := info.err, buffered := if info.buffered > 0 then info.buffered - 1 else 0);
    ReachableNext(cfg, s, Return(0));
    assert s.calls[0 := after] == map[0 := after];
  }

  // ----- released by `Stop` -----

  lemma ClosedByStop(cfg: Config)
    requires Roomy(cfg)
    ensures Reachable(cfg, Single(Info(Pending(0, 1)), [],
      Registered().(writer := WriterDone(false), reader := ReaderDone(false), main := Releasing(ByStop), intact := false), 1, 0))
  {
    CallRegistered(cfg);
    var info, l := Info(Pending(0, 1)), Registered().(main := Closing(ByStop));
    LinkTurns(cfg, info, Registered(), 1, 0, Close(ByStop), l);
    var l' := l.(writer := WriterDone(false), intact := false);
    LinkTurns(cfg, info, l, 1, 0, WriteId(false), l');
    BothGone(cfg, info, l');
  }

  lemma BothGone(cfg: Config, info: CallInfo, l: Link)
    requires Reachable(cfg, Single(info, [], l, 1, 0))
    requires l.writer.WriterDone? && l.reader == Waiting && l.main == Closing(ByStop)
    ensures Reachable(cfg, Single(info, [], l.(reader := ReaderDone(false), main := Releasing(ByStop)), 1, 0))
  {
    var l' := l.(reader := ReaderDone(false));
    LinkTurns(cfg, info, l, 1, 0, FailRead, l');
    LinkTurns(cfg, info, l', 1, 0, StartRelease, l'.(main := Releasing(ByStop)));
  }

  /** The client is stopped before the frame is written; the call is released and returns nil. */
  lemma StopReturnsNil(cfg: Config)
    requires Roomy(cfg)
    ensures exists s :: Reachable(cfg, s) && ReturnedNil(s, Released(ByStop))
  {
    ClosedByStop(cfg);
    var l := Registered().(writer := WriterDone(false), reader := ReaderDone(false), main := Releasing(ByStop), intact := false);
    var l' := l.(main := Owing(0, ByStop), pending := map[]);
    assert map[1 := 0] - {1} == map[];
    var info := Info(Completed).(closes := 1, outcome := Released(ByStop));
    LinkMoves(cfg, Info(Pending(0, 1)), [], l, 1, 0, Release(1), info, [], l', 1, 0);
    CallReturns(cfg, info, l', 1, 0);
    assert ReturnedNil(Single(info.(returned := true), [], l', 1, 0), Released(ByStop));
  }

  /** The call returned nil, uncancelled, with this outcome. */
  predicate ReturnedNil(s: System, outcome: Outcome)
  {
    0 in s.calls && s.calls[0].returned && !s.calls[0].cancelled && s.calls[0].result == NoError && s.calls[0].outcome == outcome
  }

  // ----- a reply that could not be read -----

  /** What the server makes of the call. */
  function Answer(cfg: Config): Reply { Reply(1, cfg.serve(cfg.payload(0))) }

  lemma CallSent(cfg: Config)
    requires Roomy(cfg)
    ensures Reachable(cfg, Single(Info(Pending(0, 1)), [],
      Registered().(writer := Selecting, toServer := [Frame(1, cfg.payload(0))]), 1, 0))
  {
    CallRegistered(cfg);
    var info, l := Info(Pending(0, 1)), Registered().(writer := WritingRest(0, 1));
    LinkTurns(cfg, info, Registered(), 1, 0, WriteId(true), l);
    assert l.toServer + [Frame(1, cfg.payload(0))] == [Frame(1, cfg.payload(0))];
    LinkTurns(cfg, info, l, 1, 0, WriteRest(true), l.(writer := Selecting, toServer := [Frame(1, cfg.payload(0))]));
  }

  /** A connection whose one handler is at this point. */
  function Serving(h: Handler, responses: seq<Reply>): Link
  {
    Registered().(writer := Selecting, handlers := [h], responses := responses)
  }

  lemma CallAnswered(cfg: Config)
    requires Roomy(cfg)
    ensures Reachable(cfg, Single(Info(Pending(0, 1)), [], Serving(Leaving, [Answer(cfg)]), 1, 1))
  {
    CallSent(cfg);
    var info, input := Info(Pending(0, 1)), cfg.payload(0);
    var arrived := Serving(Arrived(1, input), []);
    var sent := Registered().(writer := Selecting, toServer := [Frame(1, input)]);
    assert sent.toServer[1..] == [] && sent.handlers + [Arrived(1, input)] == arrived.handlers;
    LinkTurns(cfg, info, sent, 1, 0, Spawn, arrived);
    CallAcquired(cfg, info);
    CallWorked(cfg, info);
  }

  lemma CallAcquired(cfg: Config, info: CallInfo)
    requires Roomy(cfg) && Reachable(cfg, Single(info, [], Serving(Arrived(1, cfg.payload(0)), []), 1, 0))
    ensures Reachable(cfg, Single(info, [], Serving(Running(1, cfg.payload(0)), []), 1, 1))
  {
    var input := cfg.payload(0);
    var arrived, running := Serving(Arrived(1, input), []), Serving(Running(1, input), []);
    assert arrived.handlers[0 := Running(1, input)] == running.handlers;
    LinkMoves(cfg, info, [], arrived, 1, 0, Acquire(0), info, [], running, 1, 1);
  }

  lemma CallWorked(cfg: Config, info: CallInfo)
    requires Roomy(cfg) && Reachable(cfg, Single(info, [], Serving(Running(1, cfg.payload(0)), []), 1, 1))
    ensures Reachable(cfg, Single(info, [], Serving(Leaving, [Answer(cfg)]), 1, 1))
  {
    var running, sending := Serving(Running(1, cfg.payload(0)), []), Serving(Sending(Answer(cfg)), []);
    assert running.handlers[0 := Sending(Answer(cfg))] == sending.handlers;
    LinkTurns(cfg, info, running, 1, 1, Dispatch(0), sending);
    CallResponded(cfg, info);
  }

  lemma CallResponded(cfg: Config, info: CallInfo)
    requires Roomy(cfg) && Reachable(cfg, Single(info, [], Serving(Sending(Answer(cfg)), []), 1, 1))
    ensures Reachable(cfg, Single(info, [], Serving(Leaving, [Answer(cfg)]), 1, 1))
  {
    var sending, leaving := Serving(Sending(Answer(cfg)), []), Serving(Leaving, [Answer(cfg)]);
    assert sending.handlers[0 := Leaving] == leaving.handlers && sending.responses + [Answer(cfg)] == leaving.responses;
    LinkTurns(cfg, info, sending, 1, 1, Respond(0), leaving);
  }

  lemma CallReplied(cfg: Config)
    requires Roomy(cfg)
    ensures Reachable(cfg, Single(Info(Pending(0, 1)), [], Serving(Leaving, []).(reader := Matching(Answer(cfg))), 1, 1))
  {
    CallAnswered(cfg);
    var info, l, r := Info(Pending(0, 1)), Serving(Leaving, []), Answer(cfg);
    assert Serving(Leaving, [r]).responses[1..] == [];
    LinkTurns(cfg, info, Serving(Leaving, [r]), 1, 1, TakeReply, l.(replying := Some(r)));
    CallDelivered(cfg, info, l, r);
  }

  lemma CallDelivered(cfg: Config, info: CallInfo, l: Link, r: Reply)
    requires Reachable(cfg, Single(info, [], l.(replying := Some(r)), 1, 1))
    requires l.intact && l.toClient == [] && l.reader == Waiting && l.replying == None
    ensures Reachable(cfg, Single(info, [], l.(reader := Matching(r)), 1, 1))
  {
    assert l.toClient + [r] == [r];
    LinkTurns(cfg, info, l.(replying := Some(r)), 1, 1, WriteReply(true), l.(toClient := [r]));
    IdRead(cfg, info, l, r);
  }

  lemma IdRead(cfg: Config, info: CallInfo, l: Link, r: Reply)
    requires Reachable(cfg, Single(info, [], l.(toClient := [r]), 1, 1)) && l.toClient == [] && l.reader == Waiting
    ensures Reachable(cfg, Single(info, [], l.(reader := Matching(r)), 1, 1))
  {
    assert [r][1..] == l.toClient;
    LinkTurns(cfg, info, l.(toClient := [r]), 1, 1, ReadId, l.(reader := Matching(r)));
  }

  /** The reply has reached the client's reader, which holds the call. */
  lemma CallFilling(cfg: Config)
    requires Roomy(cfg)
    ensures Reachable(cfg, Single(Info(InReader(0)), [],
      Serving(Leaving, []).(pending := map[], reader := Filling(0, Answer(cfg))), 0, 1))
  {
    CallReplied(cfg);
    var l, r := Serving(Leaving, []), Answer(cfg);
    var matched := l.(pending := map[], reader := Discounting(0, r));
    assert map[1 := 0] - {1} == map[];
    LinkMoves(cfg, Info(Pending(0, 1)), [], l.(reader := Matching(r)), 1, 1, Match, Info(InReader(0)), [], matched, 1, 1);
    LinkMoves(cfg, Info(InReader(0)), [], matched, 1, 1, CountDown,
              Info(InReader(0)), [], matched.(reader := Filling(0, r)), 0, 1);
  }

  /**
   * The method was called and answered, with an error text even if `serve` gives one, but the connection broke
   * before that text was read: the call returns nil.
   */
  lemma BrokenReadReturnsNil(cfg: Config)
    requires Roomy(cfg)
    ensures exists s :: Reachable(cfg, s) && ReturnedNil(s, ReadFailure(0, cfg.serve(cfg.payload(0)), false))
  {
    CallFilling(cfg);
    var l := Serving(Leaving, []).(pending := map[], reader := Filling(0, Answer(cfg)));
    var l' := l.(reader := ReaderDone(false));
    var outcome := ReadFailure(0, cfg.serve(cfg.payload(0)), false);
    var info := Info(Completed).(tokens := 1, buffered := 1, outcome := outcome);
    LinkMoves(cfg, Info(InReader(0)), [], l, 0, 1, ReadBody(false, false), info, [], l', 0, 1);
    CallReturns(cfg, info, l', 0, 1);
    assert ReturnedNil(Single(info.(returned := true, buffered := 0), [], l', 0, 1), outcome);
  }
}
