/** A run in which a reply that cannot be decoded ends the connection under an unrelated call. */
module OtherCalls {
  import opened GoInts
  import opened Links
  import opened NilErrors
  import opened Systems
  import opened Wrappers

  /** The second call, with an object of its own. */
  function Second(place: Place): CallInfo { Info(place).(obj := 1) }

  function Pair(first: CallInfo, second: CallInfo): map<Call, CallInfo> { map[0 := first, 1 := second] }

  /** The state with both calls. */
  function Both(first: CallInfo, second: CallInfo, queue: seq<Call>, l: Link, count: u64): System
  {
    OnOneLink(Pair(first, second), queue, l, count, 1, 2)
  }

  /** The reply to call 0 is about to be read. */
  function Reading(cfg: Config): Link
  {
    NilErrors.Serving(Leaving, []).(pending := map[], reader := Filling(0, Answer(cfg)))
  }

  lemma PairAfter(cfg: Config, first: CallInfo, second: CallInfo, queue: seq<Call>, l: Link, count: u64, e: Event,
                  first': CallInfo, second': CallInfo)
    requires match Moved(cfg, l, 0, e)
             case None => first' == first && second' == second
             case Some((m, place)) =>
               (m == 0 && first' == Signalled(l, 0, e, first).(place := place) && second' == second)
               || (m == 1 && second' == Signalled(l, 0, e, second).(place := place) && first' == first)
    ensures CallsAfter(cfg, Both(first, second, queue, l, count), 0, e) == Pair(first', second')
  {
    var calls := Pair(first, second);
    assert calls[0 := first'] == Pair(first', second) && calls[1 := second'] == Pair(first, second');
  }

  /** Steps that change what the calls are at. */
  lemma PairMoves(cfg: Config, first: CallInfo, second: CallInfo, queue: seq<Call>, l: Link, count: u64, e: Event,
                  first': CallInfo, second': CallInfo, queue': seq<Call>, l': Link, count': u64)
    requires Reachable(cfg, Both(first, second, queue, l, count))
    requires Step(cfg, l, e) == Some(l') && Enabled(Both(first, second, queue, l, count), 0, e)
    requires !e.Acquire? && !e.Free? && !e.Recycle? && e != Check(true)
    requires match Moved(cfg, l, 0, e)
             case None => first' == first && second' == second
             case Some((m, place)) =>
               (m == 0 && first' == Signalled(l, 0, e, first).(place := place) && second' == second)
               || (m == 1 && second' == Signalled(l, 0, e, second).(place := place) && first' == first)
    requires queue' == if e.Dequeue? then queue[1..] else queue
    requires count' == if e.CountUp? then Plus1(count) else if e.CountDown? || e.CountRelease? then Minus1(count) else count
    ensures Reachable(cfg, Both(first', second', queue', l', count'))
  {
    PairAfter(cfg, first, second, queue, l, count, e, first', second');
    CallsMove(cfg, Pair(first, second), queue, l, count, 1, 2, e, Pair(first', second'), queue', l', count', 1);
  }

  lemma SecondEnqueued(cfg: Config)
    requires Roomy(cfg) && !cfg.oneWay(1)
    ensures Reachable(cfg, Both(Info(InReader(0)), Second(Queued), [1], Reading(cfg), 0))
  {
    CallFilling(cfg);
    var first, l := Info(InReader(0)), Reading(cfg);
    var prepared := Both(first, Second(Prepared), [], l, 0);
    assert map[0 := first][1 := Second(Prepared)] == prepared.calls && {} - {1} == prepared.pool;
    Reaches(cfg, Single(first, [], l, 0, 1), Prepare(1, 1), prepared);
    assert prepared.calls[1 := Second(Queued)] == Pair(first, Second(Queued)) && prepared.queue + [1] == [1];
    Reaches(cfg, prepared, Enqueue(1), Both(first, Second(Queued), [1], l, 0));
  }

  lemma SecondTaken(cfg: Config)
    requires Roomy(cfg) && !cfg.oneWay(1)
    ensures Reachable(cfg, Both(Info(InReader(0)), Second(InHand(0)), [], Reading(cfg).(writer := Registering(1)), 0))
  {
    SecondEnqueued(cfg);
    var first, l := Info(InReader(0)), Reading(cfg);
    PairMoves(cfg, first, Second(Queued), [1], l, 0, Dequeue(1), first, Second(InHand(0)), [], l.(writer := Taken(1)), 0);
    PairMoves(cfg, first, Second(InHand(0)), [], l.(writer := Taken(1)), 0, Check(false),
              first, Second(InHand(0)), [], l.(writer := Registering(1)), 0);
  }

  /** Call 1 is pending under id 1, which call 0 has given back. */
  function Reused(cfg: Config): Link
  {
    Reading(cfg).(pending := map[1 := 1], registrations := 2, writer := WritingId(1, 1))
  }

  lemma SecondRegistered(cfg: Config)
    requires Roomy(cfg) && !cfg.oneWay(1)
    ensures Reachable(cfg, Both(Info(InReader(0)), Second(Pending(0, 1)), [], Reused(cfg), 1))
  {
    SecondTaken(cfg);
    var first, inserted := Info(InReader(0)), Reused(cfg).(writer := Counting(1, 1, 0));
    assert map[][1 := 1] == inserted.pending;
    PairMoves(cfg, first, Second(InHand(0)), [], Reading(cfg).(writer := Registering(1)), 0, Register(1),
              first, Second(Pending(0, 1)), [], inserted, 0);
    PairMoves(cfg, first, Second(Pending(0, 1)), [], inserted, 0, CountUp, first, Second(Pending(0, 1)), [], Reused(cfg), 1);
  }

  /** Call 0 after its reading failed, with the error text taken. */
  function Unread(cfg: Config): CallInfo
  {
    var body := cfg.serve(cfg.payload(0));
    Info(Completed).(tokens := 1, buffered := 1, err := Said(body, NoError), outcome := ReadFailure(0, body, true))
  }

  lemma ReaderEnds(cfg: Config)
    requires Roomy(cfg) && !cfg.oneWay(1)
    ensures Reachable(cfg, Both(Unread(cfg), Second(Pending(0, 1)), [],
      Reused(cfg).(reader := ReaderDone(false), main := Closing(ByReader)), 1))
  {
    SecondRegistered(cfg);
    var l := Reused(cfg).(reader := ReaderDone(false));
    PairMoves(cfg, Info(InReader(0)), Second(Pending(0, 1)), [], Reused(cfg), 1, ReadBody(false, true),
              Unread(cfg), Second(Pending(0, 1)), [], l, 1);
    PairMoves(cfg, Unread(cfg), Second(Pending(0, 1)), [], l, 1, Close(ByReader),
              Unread(cfg), Second(Pending(0, 1)), [], l.(main := Closing(ByReader)), 1);
  }

  lemma WriterEnds(cfg: Config)
    requires Roomy(cfg) && !cfg.oneWay(1)
    ensures Reachable(cfg, Both(Unread(cfg), Second(Pending(0, 1)), [],
      Reused(cfg).(reader := ReaderDone(false), writer := WriterDone(false), intact := false, main := Releasing(ByReader)), 1))
  {
    ReaderEnds(cfg);
    var first, second, l := Unread(cfg), Second(Pending(0, 1)), Reused(cfg).(reader := ReaderDone(false), main := Closing(ByReader));
    var l' := l.(writer := WriterDone(false), intact := false);
    PairMoves(cfg, first, second, [], l, 1, WriteId(false), first, second, [], l', 1);
    PairMoves(cfg, first, second, [], l', 1, StartRelease, first, second, [], l'.(main := Releasing(ByReader)), 1);
  }

  /** Call 1 after its release. */
  function Lost(): CallInfo
  {
    Second(Completed).(closes := 1, err := ConnectionLost, outcome := Released(ByReader))
  }

  /** Both calls at the end: the one could not be read, the other was released and has returned an error. */
  predicate EndedTogether(cfg: Config, s: System)
  {
    && 0 in s.calls && s.calls[0].outcome == ReadFailure(0, cfg.serve(cfg.payload(0)), true)
    && 1 in s.calls && s.calls[1].returned && !s.calls[1].cancelled
    && s.calls[1].outcome == Released(ByReader) && s.calls[1].result == ConnectionLost
  }

  /**
   * What one reply does to other callers: the reading of call 0's reply fails, although it arrived whole, and
   * ends the connection; call 1, which had nothing to do with it and may not even have been sent, is released
   * and returns an error. The reading has no other end if the reply does not decode into the targets of call 0.
   */
  lemma BadReplyEndsOthers(cfg: Config)
    requires Roomy(cfg) && !cfg.oneWay(1)
    ensures exists s :: Reachable(cfg, s) && EndedTogether(cfg, s)
    ensures !cfg.decodes(0, cfg.serve(cfg.payload(0))) ==> forall taken :: Step(cfg, Reused(cfg), ReadBody(true, taken)) == None
  {
    WriterEnds(cfg);
    var l := Reused(cfg).(reader := ReaderDone(false), writer := WriterDone(false), intact := false, main := Releasing(ByReader));
    var l' := l.(pending := map[], main := Owing(1, ByReader));
    assert map[1 := 1] - {1} == map[];
    PairMoves(cfg, Unread(cfg), Second(Pending(0, 1)), [], l, 1, Release(1), Unread(cfg), Lost(), [], l', 1);
    SecondReturns(cfg, l');
  }

  lemma SecondReturns(cfg: Config, l: Link)
    requires Reachable(cfg, Both(Unread(cfg), Lost(), [], l, 1))
    ensures exists s :: Reachable(cfg, s) && EndedTogether(cfg, s)
  {
    var s, after := Both(Unread(cfg), Lost(), [], l, 1), Lost().(returned := true, result := ConnectionLost);
    var s' := Both(Unread(cfg), after, [], l, 1);
    assert s.calls[1 := after] == s'.calls;
    Reaches(cfg, s, Return(1), s');
    assert EndedTogether(cfg, s');
  }
}
