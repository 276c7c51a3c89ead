/** The main results about the whole system: what is true in every reachable state. */
module SystemTheorems {
  import opened GoInts
  import opened Links
  import opened Sequences
  import opened Systems
  import opened SystemInvariant
  import LinkInvariant

  // ----- the connection: ids -----

  /**
   * An id is underway at most once, and then pending; on an intact connection the pending ids are exactly
   * those underway. So an id, though reused as soon as its reply was read, never names two requests.
   */
  lemma IdsAreDistinct(cfg: Config, s: System, i: nat, id: u64)
    requires Reachable(cfg, s) && i < |s.links| && id != 0
    requires s.links[i].registrations < TWO64 && LinkInvariant.Active(s.links[i])
    ensures LinkInvariant.Copies(s.links[i], id) <= 1
    ensures LinkInvariant.Copies(s.links[i], id) == 1 ==> id in s.links[i].pending
    ensures s.links[i].intact && id in s.links[i].pending ==> LinkInvariant.Copies(s.links[i], id) == 1
  {
    ReachableInv(cfg, s);
    assert s.links[i] in s.links;
    assert LinkInvariant.FlowAt(s.links[i], id);
  }

  /** The client's reader never reaches "unexpected message". */
  lemma NoUnexpectedMessage(cfg: Config, s: System, i: nat)
    requires Reachable(cfg, s) && i < |s.links| && s.links[i].registrations < TWO64
    ensures s.links[i].reader != ReaderDone(true)
    ensures s.links[i].reader.Matching? ==> s.links[i].reader.reply.id in s.links[i].pending
  {
    ReachableInv(cfg, s);
    var l := s.links[i];
    assert l in s.links;
    if l.reader.Matching? {
      assert LinkInvariant.Active(l) && l.reader.reply.id != 0;
      assert LinkInvariant.FlowAt(l, l.reader.reply.id);
    }
  }

  /** The server never has more reply-bearing requests of a connection in work than the client has pending. */
  lemma ServerLoadBounded(cfg: Config, s: System, i: nat)
    requires Reachable(cfg, s) && i < |s.links|
    requires s.links[i].registrations < TWO64 && LinkInvariant.Active(s.links[i])
    ensures |InService(s.links[i])| <= |s.links[i].pending|
    ensures !s.links[i].writer.WriterDone? && !s.links[i].writer.Counting? ==> |s.links[i].pending| <= cfg.pendingRequests + 1
    ensures |s.links[i].pending| <= cfg.pendingRequests + 2
  {
    ReachableInv(cfg, s);
    var l := s.links[i];
    assert l in s.links;
    var keys := multiset(l.pending.Keys);
    forall id: u64 ensures InService(l)[id] <= keys[id] {
      if id != 0 { assert LinkInvariant.FlowAt(l, id); }
    }
    assert keys == InService(l) + (keys - InService(l));
    assert |keys| == |l.pending.Keys| == |l.pending|;
  }

  /** The nonzero ids of a connection that are with a handler, between handler and writer, or in the writer's hand. */
  ghost function InService(l: Link): multiset<u64>
  {
    (multiset(LinkInvariant.HandlerIds(l.handlers)) + multiset(LinkInvariant.ReplyIds(l.responses))
      + if l.replying.Some? then multiset{l.replying.value.id} else multiset{})[0 := 0]
  }

  /** The id of a registered call is never the one-way id, and one-way requests carry no other. */
  lemma IdsFitCalls(cfg: Config, s: System, i: nat)
    requires Reachable(cfg, s) && i < |s.links| && s.links[i].registrations < TWO64
    ensures forall id | id in s.links[i].pending :: 1 <= id <= s.links[i].requestId <= s.links[i].registrations
    ensures s.links[i].writer.WritingRest? ==> (s.links[i].writer.id == 0 <==> cfg.oneWay(s.links[i].writer.call))
  {
    ReachableInv(cfg, s);
    assert s.links[i] in s.links;
  }

  // ----- the calls -----

  /** Where the shared structures, or the fate of the call, say that it is. */
  ghost predicate Somewhere(cfg: Config, s: System, c: Call, p: Place)
  {
    if Structured(p) then Holds(cfg, s.queue, s.links, c, p) else Is(s.calls, c, p)
  }

  /**
   * Every accepted `Call` is in exactly one of: the queue, one writer's hand, one pending map, one reader's
   * hand, completed, recycled after cancellation. It is signalled by one token or one close, never both or
   * twice, and just when it is completed. A one-way request is in the queue, in one writer's hand, recycled,
   * or lost with a failed write, and never signalled.
   */
  lemma ExactlyOncePlaced(cfg: Config, s: System, c: Call)
    requires Reachable(cfg, s) && c in s.calls && Accepted(s.calls[c].place)
    ensures forall p :: Somewhere(cfg, s, c, p) <==> p == s.calls[c].place
    ensures var p := s.calls[c].place;
            if cfg.oneWay(c) then p.Queued? || p.InHand? || p.Recycled? || p.Lost?
            else Structured(p) || p.Completed? || (p.Recycled? && s.calls[c].cancelled)
    ensures s.calls[c].tokens + s.calls[c].closes == if s.calls[c].place.Completed? then 1 else 0
    ensures NoRepeats(s.queue)
  {
    ReachableInv(cfg, s);
    assert GoodCall(cfg, s.links, c, s.calls[c]);
    forall p ensures Somewhere(cfg, s, c, p) <==> p == s.calls[c].place {
      if Structured(p) { assert PlacedAt(cfg, s, c, p); }
    }
  }

  /**
   * Nothing shared ever holds up what a goroutine is about to do with it: the send into `done` neither
   * blocks nor panics, `done` is not closed twice, and a handler finds its token in the semaphore.
   */
  lemma NeverBlocked(cfg: Config, s: System, i: nat, e: Event)
    requires Reachable(cfg, s) && i < |s.links| && Step(cfg, s.links[i], e).Some?
    requires e.ReadBody? || e.Release? || e.Free?
    ensures NextAt(cfg, s, i, e).Some?
  {
    ReachableInv(cfg, s);
    match e
    case ReadBody(_, _) => DoneHasRoom(cfg, s, i);
    case Release(id) => NotYetClosed(cfg, s, i, id);
    case Free(h) => TokenToReturn(cfg, s, i, h);
    case _ =>
  }

  lemma DoneHasRoom(cfg: Config, s: System, i: nat)
    requires Inv(cfg, s) && i < |s.links| && s.links[i].reader.Filling?
    ensures s.links[i].reader.call in s.calls && DoneIsFree(s.calls[s.links[i].reader.call])
  {
    var c := s.links[i].reader.call;
    assert Holds(cfg, s.queue, s.links, c, InReader(i));
    assert PlacedAt(cfg, s, c, InReader(i));
    assert GoodCall(cfg, s.links, c, s.calls[c]);
  }

  lemma NotYetClosed(cfg: Config, s: System, i: nat, id: u64)
    requires Inv(cfg, s) && i < |s.links| && id in s.links[i].pending
    ensures s.links[i].pending[id] in s.calls && s.calls[s.links[i].pending[id]].closes == 0
  {
    var c := s.links[i].pending[id];
    assert Holds(cfg, s.queue, s.links, c, Pending(i, id));
    assert PlacedAt(cfg, s, c, Pending(i, id));
    assert GoodCall(cfg, s.links, c, s.calls[c]);
  }

  lemma TokenToReturn(cfg: Config, s: System, i: nat, h: nat)
    requires Inv(cfg, s) && i < |s.links| && h < |s.links[i].handlers| && s.links[i].handlers[h].Leaving?
    ensures s.tokens > 0
  {
    TokenOf(s.links[i].handlers, h);
    TokensNonNegative(s.links);
    SumIncludes(s.links, HandlerTokens, i);
  }

  /**
   * The end of a connection releases everything: once it is gone, no call is pending on it, nor in its writer's
   * or its reader's hand, and none is to be discounted.
   */
  lemma GoneHoldsNothing(cfg: Config, s: System, i: nat, c: Call)
    requires Reachable(cfg, s) && i < |s.links| && s.links[i].registrations < TWO64 && s.links[i].main.Gone?
    requires c in s.calls
    ensures s.calls[c].place != InHand(i) && s.calls[c].place != InReader(i)
    ensures forall id :: s.calls[c].place != Pending(i, id)
    ensures s.links[i].pending == map[] && Owed(s.links[i]) == 0
  {
    ReachableInv(cfg, s);
    GoneIsEmpty(cfg, s, i, c);
  }

  lemma GoneIsEmpty(cfg: Config, s: System, i: nat, c: Call)
    requires Inv(cfg, s) && i < |s.links| && s.links[i].registrations < TWO64 && s.links[i].main.Gone? && c in s.calls
    ensures s.links[i].pending == map[] && s.links[i].writer.WriterDone? && s.links[i].reader.ReaderDone?
    ensures forall p | p == InHand(i) || p == InReader(i) || (p.Pending? && p.link == i) :: s.calls[c].place != p
  {
    assert s.links[i] in s.links;
    forall p | p == InHand(i) || p == InReader(i) || (p.Pending? && p.link == i) ensures s.calls[c].place != p {
      assert PlacedAt(cfg, s, c, p);
    }
  }

  /** A call completed by a reply has the reply that the server makes of this call's own payload. */
  lemma OwnReply(cfg: Config, s: System, c: Call)
    requires Reachable(cfg, s) && c in s.calls && s.calls[c].outcome.Delivered?
    ensures s.calls[c].outcome.link < |s.links|
    ensures s.links[s.calls[c].outcome.link].registrations < TWO64 ==>
      s.calls[c].outcome.body == cfg.serve(cfg.payload(c)) && cfg.decodes(c, cfg.serve(cfg.payload(c)))
    ensures s.calls[c].tokens == 1 && s.calls[c].closes == 0 && !cfg.oneWay(c)
  {
    ReachableInv(cfg, s);
    assert GoodCall(cfg, s.links, c, s.calls[c]);
  }

  /** What a caller that returned without being cancelled has got: a token or a close, and its outcome. */
  lemma ReturnedIsDone(cfg: Config, s: System, c: Call)
    requires Reachable(cfg, s) && c in s.calls && s.calls[c].returned && !s.calls[c].cancelled && !cfg.oneWay(c)
    ensures s.calls[c].place.Abandoned? || (s.calls[c].place.Completed? && !s.calls[c].outcome.NoOutcome?)
  {
    ReachableInv(cfg, s);
    assert GoodCall(cfg, s.links, c, s.calls[c]);
  }

  /**
   * What `Call` returns, exactly. Cancelled or not accepted, the context's error. Otherwise what its outcome
   * reports, and that is nil if and only if a reply without an error text was delivered, or the reading of the
   * reply failed before an error text was taken from it, or the connection was closed by `Stop`. An error text
   * is always the one that the server made of this call's own payload.
   */
  lemma ReturnedError(cfg: Config, s: System, c: Call)
    requires Reachable(cfg, s) && c in s.calls && s.calls[c].returned && !cfg.oneWay(c)
    ensures s.calls[c].cancelled || s.calls[c].place.Abandoned? ==> s.calls[c].result == ContextDone
    ensures !s.calls[c].cancelled && !s.calls[c].place.Abandoned? ==>
      && s.calls[c].result == Reported(s.calls[c].outcome)
      && (s.calls[c].result == NoError <==>
           match s.calls[c].outcome
           case NoOutcome => false
           case Delivered(_, body) => body.err == []
           case ReadFailure(_, body, taken) => !taken || body.err == []
           case Released(cause) => cause == ByStop)
    ensures s.calls[c].result.Remote? && (forall l | l in s.links :: l.registrations < TWO64) ==>
      s.calls[c].result.text == cfg.serve(cfg.payload(c)).err
  {
    ReachableInv(cfg, s);
    ReturnedReports(cfg, s, c);
  }

  lemma ReturnedReports(cfg: Config, s: System, c: Call)
    requires Inv(cfg, s) && c in s.calls && s.calls[c].returned && !cfg.oneWay(c)
    ensures GoodCall(cfg, s.links, c, s.calls[c])
    ensures !s.calls[c].cancelled && !s.calls[c].place.Abandoned? ==> s.calls[c].place.Completed?
  {
  }

  /** An object in the pool belongs to no call that is prepared, queued, in a hand, pending or completed. */
  lemma PooledIsUnused(cfg: Config, s: System, c: Call, p: Place)
    requires Reachable(cfg, s) && c in s.calls && Somewhere(cfg, s, c, p) && !p.Recycled?
    ensures s.calls[c].obj !in s.pool
    ensures forall d | d in s.calls && d != c && s.calls[d].obj == s.calls[c].obj :: s.calls[d].place.Recycled?
  {
    ReachableInv(cfg, s);
    if Structured(p) { assert PlacedAt(cfg, s, c, p); }
  }

  // ----- counters -----

  lemma {:induction false} SumNonNegative(links: seq<Link>, f: Link -> int)
    requires forall l | l in links :: f(l) >= 0
    ensures SumOf(links, f) >= 0
  {
    if links != [] {
      assert forall l | l in links[..|links| - 1] :: l in links;
      SumNonNegative(links[..|links| - 1], f);
    }
  }

  lemma {:induction false} SumIncludes(links: seq<Link>, f: Link -> int, i: nat)
    requires i < |links| && forall l | l in links :: f(l) >= 0
    ensures SumOf(links, f) >= f(links[i])
  {
    var n := |links| - 1;
    assert forall l | l in links[..n] :: l in links;
    if i < n { SumIncludes(links[..n], f, i); } else { SumNonNegative(links[..n], f); }
  }

  lemma {:induction false} TokenOf(handlers: seq<Handler>, h: nat)
    requires h < |handlers|
    ensures TokenHolders(handlers) >= One(HoldsToken(handlers[h]))
  {
    var n := |handlers| - 1;
    if h < n { TokenOf(handlers[..n], h); } else { HoldersNonNegative(handlers[..n]); }
  }

  lemma {:induction false} HoldersNonNegative(handlers: seq<Handler>)
    ensures TokenHolders(handlers) >= 0
  {
    if handlers != [] { HoldersNonNegative(handlers[..|handlers| - 1]); }
  }

  lemma TokensNonNegative(links: seq<Link>)
    ensures forall l | l in links :: HandlerTokens(l) >= 0
  {
    forall l | l in links ensures HandlerTokens(l) >= 0 { HoldersNonNegative(l.handlers); }
  }

  ghost predicate FewRegistrations(s: System)
  {
    forall l | l in s.links :: l.registrations < TWO64
  }

  lemma OwedNonNegative(cfg: Config, l: Link)
    requires LinkInvariant.Inv(cfg, l) && l.registrations < TWO64
    ensures Owed(l) >= One(l.reader.Discounting?) + One(l.main.Owing?)
    ensures l.main.Gone? ==> Owed(l) == 0
  {
    if l.writer.Counting? { assert l.writer.id in l.pending; }
  }

  /**
   * `requestsCount` is the pending requests plus the deletions not yet subtracted minus the insertions not
   * yet added, over all connections, and once every connection is gone it is zero.
   */
  lemma CountIsExact(cfg: Config, s: System)
    requires Reachable(cfg, s) && FewRegistrations(s)
    ensures SumOf(s.links, Owed) >= 0
    ensures SumOf(s.links, Owed) < TWO64 ==> s.count == SumOf(s.links, Owed)
    ensures (forall l | l in s.links :: l.main.Gone?) ==> s.count == 0
  {
    ReachableInv(cfg, s);
    OwedByAll(cfg, s);
    if forall l | l in s.links :: l.main.Gone? { GoneOwesNothing(cfg, s); }
  }

  /** Whoever is about to subtract one from `requestsCount` finds at least one to subtract from. */
  lemma CountNeverUnderflows(cfg: Config, s: System, i: nat)
    requires Reachable(cfg, s) && FewRegistrations(s) && i < |s.links|
    requires s.links[i].reader.Discounting? || s.links[i].main.Owing?
    ensures SumOf(s.links, Owed) >= 1
    ensures SumOf(s.links, Owed) < TWO64 ==> s.count >= 1
  {
    ReachableInv(cfg, s);
    OwedByOne(cfg, s, i);
  }

  lemma OwedByAll(cfg: Config, s: System)
    requires Inv(cfg, s) && FewRegistrations(s)
    ensures (forall l | l in s.links :: Owed(l) >= 0) && SumOf(s.links, Owed) >= 0
  {
    forall l | l in s.links ensures Owed(l) >= 0 { OwedNonNegative(cfg, l); }
    SumNonNegative(s.links, Owed);
  }

  lemma OwedByOne(cfg: Config, s: System, i: nat)
    requires Inv(cfg, s) && FewRegistrations(s) && i < |s.links|
    requires s.links[i].reader.Discounting? || s.links[i].main.Owing?
    ensures SumOf(s.links, Owed) >= 1
  {
    OwedByAll(cfg, s);
    OwedNonNegative(cfg, s.links[i]);
    SumIncludes(s.links, Owed, i);
  }

  lemma GoneOwesNothing(cfg: Config, s: System)
    requires Inv(cfg, s) && FewRegistrations(s) && forall l | l in s.links :: l.main.Gone?
    ensures SumOf(s.links, Owed) == 0
  {
    forall l | l in s.links ensures Owed(l) == 0 { OwedNonNegative(cfg, l); }
    SumZero(s.links, Owed);
  }

  lemma {:induction false} SumZero(links: seq<Link>, f: Link -> int)
    requires forall l | l in links :: f(l) == 0
    ensures SumOf(links, f) == 0
  {
    if links != [] {
      assert forall l | l in links[..|links| - 1] :: l in links;
      SumZero(links[..|links| - 1], f);
    }
  }

  /** The tokens in `workerChain` are the handlers between acquire and release, never more than allowed. */
  lemma SemaphoreIsExact(cfg: Config, s: System)
    requires Reachable(cfg, s)
    ensures s.tokens == SumOf(s.links, HandlerTokens) && s.tokens <= cfg.concurrency
  {
    ReachableInv(cfg, s);
  }
}
