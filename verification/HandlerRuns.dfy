/** What one server handler does in the course of a whole run of its connection (server.go:320-351). */
module HandlerRuns {
  import opened Links
  import SystemInvariant

  ghost function Times(events: seq<Event>, e: Event): nat
  {
    if events == [] then 0 else One(events[0] == e) + Times(events[1..], e)
  }

  /** How many tokens the handler has still to take, dispatches to make, responses to send, and tokens to give back. */
  function ToTake(h: Handler): int { One(h.Arrived?) }

  function ToDispatch(h: Handler): int { One(h.Arrived? || h.Running?) }

  function ToSend(h: Handler): int
  {
    match h
    case Arrived(id, _) => One(id != 0)
    case Running(id, _) => One(id != 0)
    case Sending(_) => 1
    case _ => 0
  }

  function ToReturn(h: Handler): int { One(!h.Finished?) }

  lemma HandlerStep(cfg: Config, l: Link, e: Event, h: nat)
    requires h < |l.handlers| && Step(cfg, l, e).Some?
    ensures var l' := Step(cfg, l, e).value;
            && |l'.handlers| >= |l.handlers|
            && ToTake(l'.handlers[h]) == ToTake(l.handlers[h]) - One(e == Acquire(h))
            && ToDispatch(l'.handlers[h]) == ToDispatch(l.handlers[h]) - One(e == Dispatch(h))
            && ToSend(l'.handlers[h]) == ToSend(l.handlers[h]) - One(e == Respond(h))
            && ToReturn(l'.handlers[h]) == ToReturn(l.handlers[h]) - One(e == Free(h))
  {
    if !(e.Acquire? || e.Dispatch? || e.Respond? || e.Free? || e.Spawn?) {
      SystemInvariant.SameHandlers(cfg, l, e);
    } else {
      HandlerMoves(cfg, l, e, h);
    }
  }

  lemma HandlerMoves(cfg: Config, l: Link, e: Event, h: nat)
    requires h < |l.handlers| && ServerStep(cfg, l, e).Some?
    requires e.Acquire? || e.Dispatch? || e.Respond? || e.Free? || e.Spawn?
    ensures var l' := ServerStep(cfg, l, e).value;
            && |l'.handlers| >= |l.handlers|
            && ToTake(l'.handlers[h]) == ToTake(l.handlers[h]) - One(e == Acquire(h))
            && ToDispatch(l'.handlers[h]) == ToDispatch(l.handlers[h]) - One(e == Dispatch(h))
            && ToSend(l'.handlers[h]) == ToSend(l.handlers[h]) - One(e == Respond(h))
            && ToReturn(l'.handlers[h]) == ToReturn(l.handlers[h]) - One(e == Free(h))
  {
  }

  lemma {:induction false} HandlerProgress(cfg: Config, l: Link, events: seq<Event>, h: nat)
    requires h < |l.handlers| && Steps(cfg, l, events).Some?
    ensures var l' := Steps(cfg, l, events).value;
            && |l'.handlers| >= |l.handlers|
            && Times(events, Acquire(h)) == ToTake(l.handlers[h]) - ToTake(l'.handlers[h])
            && Times(events, Dispatch(h)) == ToDispatch(l.handlers[h]) - ToDispatch(l'.handlers[h])
            && Times(events, Respond(h)) == ToSend(l.handlers[h]) - ToSend(l'.handlers[h])
            && Times(events, Free(h)) == ToReturn(l.handlers[h]) - ToReturn(l'.handlers[h])
    decreases |events|
  {
    if events != [] {
      HandlerStep(cfg, l, events[0], h);
      HandlerProgress(cfg, Step(cfg, l, events[0]).value, events[1..], h);
    }
  }

  /**
   * From its start to its end a handler takes one token and gives one back, dispatches once, and sends one
   * response if its request has an id and none if it is one-way, whatever else happens on the connection;
   * until its end it has done so at most once.
   */
  lemma OneTokenOneResponse(cfg: Config, l: Link, events: seq<Event>, h: nat)
    requires h < |l.handlers| && l.handlers[h].Arrived? && Steps(cfg, l, events).Some?
    ensures Times(events, Acquire(h)) <= 1 && Times(events, Free(h)) <= Times(events, Acquire(h))
    ensures Times(events, Dispatch(h)) <= Times(events, Acquire(h))
    ensures Times(events, Respond(h)) <= One(l.handlers[h].id != 0)
    ensures h < |Steps(cfg, l, events).value.handlers|
    ensures Steps(cfg, l, events).value.handlers[h].Finished? ==>
      && Times(events, Acquire(h)) == 1 && Times(events, Dispatch(h)) == 1 && Times(events, Free(h)) == 1
      && Times(events, Respond(h)) == One(l.handlers[h].id != 0)
  {
    HandlerProgress(cfg, l, events, h);
  }
}
