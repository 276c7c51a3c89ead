/** The selector: an index of live clients by tag, rebuilt from discovery (selector.go). */
module SelectorIndex {
  import opened ConsistentHash
  import opened Dialing
  import opened Discovery
  import opened GoInts
  import opened Holdings
  import opened Registry
  import opened Sequences
  import opened TaggedPool
  import RingLaws
  import SortSearch

  datatype Answer = Services(services: seq<Service>) | Unavailable

  /** The selector's own lookups, and what they return. */
  datatype Lookup = ByRound(tag: string) | ByKey(tag: string, key: int) | Listing(tag: string)

  datatype Located = Picked(pick: Pick) | Listed(clients: seq<Client>) | Refused

  /** The results of the round robin calls for one tag among these lookups. */
  ghost function Turns(lookups: seq<Lookup>, results: seq<Located>, tag: string): seq<Pick>
    requires |lookups| == |results|
  {
    if lookups == [] then []
    else
      var n := |lookups| - 1;
      var before := Turns(lookups[..n], results[..n], tag);
      if lookups[n] == ByRound(tag) && results[n].Picked? then before + [results[n].pick] else before
  }

  /** How many of these lookups are round robin calls for the tag. */
  ghost function Asked(lookups: seq<Lookup>, tag: string): nat
  {
    if lookups == [] then 0
    else Asked(lookups[..|lookups| - 1], tag) + if lookups[|lookups| - 1] == ByRound(tag) then 1 else 0
  }

  ghost function IdsOf(entry: Tagged?): seq<string>
  {
    if entry == null then [] else entry.ids
  }

  ghost function ClientsOf(entry: Tagged?): seq<Client>
  {
    if entry == null then [] else entry.clients
  }

  ghost function OriginsOf(entry: Tagged?): seq<Service>
  {
    if entry == null then [] else entry.origins
  }

  /** What the clients of a rebuilt entry were opened for: survivors keep theirs, new Ids are opened as listed now. */
  ghost function Origins(ids: seq<string>, origins: seq<Service>, services: seq<Service>): (r: seq<Service>)
    requires |ids| == |origins|
    ensures |r| == |services|
  {
    seq(|services|, i requires 0 <= i < |services| =>
      if services[i].id in ids then origins[FirstIndex(ids, services[i].id)] else services[i])
  }

  /**
   * An entry that lists the plain filter, kept its hash flag and the clients of surviving Ids, and opened the
   * others at the addresses listed now. It is the same object, counter and all, if the Ids are the same.
   */
  ghost predicate Refreshed(before: Tagged, now: Tagged, tag: string, discovered: seq<Service>)
  {
    && now.ids == Ids(Filter(tag, discovered))
    && (now.ids == before.ids ==> now == before)
    && (now.hash != null) == (before.hash != null)
    && |before.ids| == |before.clients| == |before.origins| && OpenedFor(now.ids, now.clients, now.origins)
    && SameClients(before.ids, before.clients, now.ids, now.clients)
    && now.origins == Origins(before.ids, before.origins, Filter(tag, discovered))
  }

  /**
   * Stickiness across a rediscovery: after a `pull` that refreshed an entry, a key is answered by the very
   * same client, unless the service that answered it left or the one that answers it now just arrived.
   */
  lemma PullIsSticky(h: Hash, before: Tagged, now: Tagged, tag: string, discovered: seq<Service>,
                     key: int, pick: Pick, pick': Pick, owner: string, owner': string)
    requires Refreshed(before, now, tag, discovered)
    requires RingLaws.StrictlySorted(before.ids)
    requires SortedById(discovered) && forall s | s in discovered :: NoRepeats(s.tags)
    requires before.ids != [] && now.ids != []
    requires HashedPick(h, before.ids, before.clients, key, pick) && HashedPick(h, now.ids, now.clients, key, pick')
    requires Answers(h, REPLICAS, before.ids, h.ofUint64(ToUint64(key)), owner)
    requires Answers(h, REPLICAS, now.ids, h.ofUint64(ToUint64(key)), owner')
    ensures owner in before.ids && owner' in now.ids
    ensures owner in now.ids && owner' in before.ids ==> owner == owner' && pick == pick'
    ensures forall id :: id in now.ids <==> exists s :: s in discovered && s.id == id && tag in s.tags
  {
    FilterSorted(tag, discovered);
    FilterMembers(tag, discovered);
    HashedIsSticky(h, before.ids, before.clients, now.ids, now.clients, key, pick, pick', owner, owner');
    forall id ensures id in now.ids <==> exists s :: s in discovered && s.id == id && tag in s.tags {
      IdMember(Filter(tag, discovered), id);
    }
  }

  /**
   * How far `pull` has come: entries still in the snapshot are untouched; of the others, those that lag
   * are untouched too and the rest are refreshed.
   */
  ghost predicate RoundsDone(before: map<string, Tagged>, now: map<string, Tagged>, snapshot: map<string, Tagged>,
                             lagging: set<string>, discovered: seq<Service>)
  {
    && now.Keys == before.Keys
    && (forall t | t in snapshot :: t in now && now[t] == snapshot[t] == before[t])
    && (forall t | t in now && t !in snapshot ::
         if t in lagging then now[t] == before[t] else Refreshed(before[t], now[t], t, discovered))
    && lagging !! snapshot.Keys
  }

  lemma RoundDone(before: map<string, Tagged>, now: map<string, Tagged>, snapshot: map<string, Tagged>,
                  lagging: set<string>, discovered: seq<Service>, t: string, entry: Tagged, failed: bool)
    requires RoundsDone(before, now, snapshot, lagging, discovered) && t in snapshot
    requires if failed then entry == now[t] else Refreshed(snapshot[t], entry, t, discovered)
    ensures RoundsDone(before, now[t := entry], snapshot - {t}, if failed then lagging + {t} else lagging, discovered)
    ensures |snapshot - {t}| < |snapshot|
    ensures |if failed then lagging + {t} else lagging| == |lagging| + if failed then 1 else 0
  {
  }

  /** The scratch buffer of `pull` backs no stored entry. */
  ghost predicate Unaliased(tagged: map<string, Tagged>, scratch: array<Service>)
  {
    forall t | t in tagged :: tagged[t].services.base != scratch
  }

  lemma SelfRefreshed(entry: Tagged, tag: string, discovered: seq<Service>)
    requires entry.ids == Ids(Filter(tag, discovered)) && OpenedFor(entry.ids, entry.clients, entry.origins)
    requires RingLaws.StrictlySorted(entry.ids)
    ensures Refreshed(entry, entry, tag, discovered)
  {
    SortedNoRepeats(entry.ids);
    SameOrigins(entry.ids, entry.origins, Filter(tag, discovered));
  }

  lemma SameOrigins(ids: seq<string>, origins: seq<Service>, services: seq<Service>)
    requires NoRepeats(ids) && |ids| == |origins| && ids == Ids(services)
    ensures Origins(ids, origins, services) == origins
  {
    forall i | 0 <= i < |ids| ensures FirstIndex(ids, services[i].id) == i { assert ids[i] == services[i].id; }
  }

  lemma StillUnaliased(tagged: map<string, Tagged>, scratch: array<Service>, t: string, entry: Tagged)
    requires Unaliased(tagged, scratch) && entry.services.base != scratch
    ensures Unaliased(tagged[t := entry], scratch)
  {
  }

  lemma NothingHeld()
    ensures Conserved(HeldBy(map[]), {})
  {
  }

  /** The clients that each tag's entry holds. */
  ghost function HeldBy(tagged: map<string, Tagged>): map<string, seq<Client>>
  {
    map t | t in tagged :: tagged[t].clients
  }

  /** The clients of one tag and those of the others make up all, without overlap. */
  lemma HeldWithout(tagged: map<string, Tagged>, tag: string)
    requires tag in tagged && Disjoint(HeldBy(tagged))
    ensures NoRepeats(tagged[tag].clients) && Disjoint(HeldBy(tagged - {tag}))
    ensures AllHeld(HeldBy(tagged)) == AllHeld(HeldBy(tagged - {tag})) + Members(tagged[tag].clients)
    ensures AllHeld(HeldBy(tagged - {tag})) !! Members(tagged[tag].clients)
  {
    var held, rest := HeldBy(tagged), HeldBy(tagged - {tag});
    HeldNoRepeats(held, tag);
    assert forall t | t in rest :: t in held && rest[t] == held[t];
    forall c | c in AllHeld(held) ensures c in AllHeld(rest) + Members(held[tag]) {
      var t, i :| t in held && 0 <= i < |held[t]| && held[t][i] == c;
      if t != tag { HeldMember(rest, t, i); }
    }
    forall c | c in AllHeld(rest) ensures c in AllHeld(held) && c !in Members(held[tag]) {
      var t, i :| t in rest && 0 <= i < |rest[t]| && rest[t][i] == c;
      HeldMember(held, t, i);
    }
    forall c | c in Members(held[tag]) ensures c in AllHeld(held) {
      var i :| 0 <= i < |held[tag]| && held[tag][i] == c;
      HeldMember(held, tag, i);
    }
  }

  lemma HeldUpdate(tagged: map<string, Tagged>, tag: string, r: Tagged)
    ensures HeldBy(tagged[tag := r]) == HeldBy(tagged)[tag := r.clients]
  {
  }

  lemma OneMore<T>(s: seq<T>, i: nat)
    requires i < |s|
    ensures s[..i + 1] == s[..i] + [s[i]]
  {
  }

  /**
   * These lookups returned, to the round robin calls for the tag, the successive picks of this one entry from
   * counter value `start` on, and refused none; they took the counter to `index`.
   */
  ghost predicate TakenInTurn(entry: Tagged, start: int, index: int, lookups: seq<Lookup>, results: seq<Located>, tag: string)
  {
    && |results| == |lookups|
    && |Turns(lookups, results, tag)| == Asked(lookups, tag)
    && SuccessivePicks(entry, start, Turns(lookups, results, tag))
    && index == Advance(start, Asked(lookups, tag))
  }

  lemma OneMoreTurn(entry: Tagged, start: int, index: int, lookups: seq<Lookup>, k: nat, results: seq<Located>, tag: string,
                    index': int, r: Located)
    requires k < |lookups| && TakenInTurn(entry, start, index, lookups[..k], results, tag)
    requires index' == if lookups[k] == ByRound(tag) then Next(index) else index
    requires lookups[k] == ByRound(tag) ==> r == Picked(entry.At(index'))
    ensures TakenInTurn(entry, start, index', lookups[..k + 1], results + [r], tag)
  {
    assert lookups[..k + 1][..k] == lookups[..k] && (results + [r])[..k] == results;
    if lookups[k] == ByRound(tag) { OneMorePick(entry, start, Turns(lookups[..k], results, tag), r.pick); }
  }

  /**
   * So the selector's round robin is fair: while the counter stays below 2^63, among any lookups that need no new
   * entry for the tag, its m `RoundRobin` calls return each of the n clients floor(m/n) or ceil(m/n) times.
   */
  lemma TurnsAreFair(entry: Tagged, start: nat, index: int, lookups: seq<Lookup>, results: seq<Located>, tag: string, c: Client)
    requires TakenInTurn(entry, start, index, lookups, results, tag) && start + Asked(lookups, tag) < TWO63
    requires NoRepeats(entry.clients) && c in entry.clients
    ensures var m, n := Asked(lookups, tag), |entry.clients|;
            m / n <= multiset(Turns(lookups, results, tag))[Found(c)] <= if m % n == 0 then m / n else m / n + 1
  {
    CallsAreFair(entry, start, Turns(lookups, results, tag), c);
  }

  class Selector {
    const dialer: Dialer
    const hash: Hash
    var tagged: map<string, Tagged>
    var discovered: seq<Service>
    var stopped: bool

    ghost function Held(): map<string, seq<Client>>
      reads this
    {
      HeldBy(tagged)
    }

    ghost predicate Entry(tag: string, entry: Tagged)
      reads entry.services.base, entry.hash
    {
      && entry.Valid()
      && entry.tag == tag
      && RingLaws.StrictlySorted(entry.ids)
      && (entry.hash != null ==> entry.hash.hash == hash)
    }

    /** The backing arrays and rings of the stored entries. */
    ghost function Stored(): set<object>
      reads this
    {
      (set t | t in tagged :: tagged[t].services.base as object)
      + (set t | t in tagged && tagged[t].hash != null :: tagged[t].hash as object)
    }

    /** What was discovered and every entry are in order. */
    ghost predicate Ordered()
      reads this, Stored()
    {
      && SortedById(discovered)
      && (forall s | s in discovered :: NoRepeats(s.tags))
      && (forall t | t in tagged :: Entry(t, tagged[t]))
    }

    /** All is in order, and the live clients are the disjoint union of what the entries hold. */
    ghost predicate Valid()
      reads this, dialer, Stored()
    {
      Ordered() && Conserved(Held(), dialer.live)
    }

    /** The entry of a tag lists exactly the Ids that the plain filter gives, in Id order. */
    ghost predicate Agrees(tag: string)
      requires tag in tagged
      reads this
    {
      tagged[tag].ids == Ids(Filter(tag, discovered))
    }

    constructor (hash: Hash, dialer: Dialer)
      requires dialer.live == {}
      ensures Valid() && tagged == map[] && discovered == [] && !stopped
      ensures this.hash == hash && this.dialer == dialer
    {
      this.hash := hash;
      this.dialer := dialer;
      this.tagged := map[];
      this.discovered := [];
      this.stopped := false;
    }

    /** `getServices`: fills the given buffer, or a new array once it is too small or missing. */
    method GetServices(tag: string, services: seq<Service>, buffer: array?<Service>) returns (s: Slice)
      modifies if buffer == null then {} else {buffer}
      ensures s.Valid() && s.Elements() == Filter(tag, services)
      ensures s.base == buffer || fresh(s.base)
    {
      var base: array<Service>;
      if buffer == null { base := new Service[0]; } else { base := buffer; }
      s := Slice(base, 0);
      for i := 0 to |services|
        invariant s.Valid() && s.Elements() == Filter(tag, services[..i])
        invariant s.base == buffer || fresh(s.base)
      {
        ghost var before := s.Elements();
        var service := services[i];
        for k := 0 to |service.tags|
          invariant s.Valid() && s.Elements() == before + TagMatches(tag, service, service.tags[..k])
          invariant s.base == buffer || fresh(s.base)
        {
          assert service.tags[..k + 1][..k] == service.tags[..k];
          if service.tags[k] == tag {
            s := Append(s, service);
          }
        }
        assert service.tags[..|service.tags|] == service.tags;
        assert services[..i + 1][..i] == services[..i];
      }
      assert services[..|services|] == services;
    }

    /** Go's `append`: in place while there is room, else into a larger copy. */
    method Append(s: Slice, service: Service) returns (r: Slice)
      requires s.Valid()
      modifies s.base
      ensures r.Valid() && r.Elements() == old(s.Elements()) + [service]
      ensures r.base == s.base || fresh(r.base)
    {
      var base := s.base;
      if s.len == base.Length {
        base := new Service[2 * s.len + 1];
        forall i | 0 <= i < s.len { base[i] := s.base[i]; }
      }
      base[s.len] := service;
      r := Slice(base, s.len + 1);
    }

    /** The loop of `newTagged`: take over the clients of surviving Ids, open the others, give up on a failure. */
    method OpenClients(previous: Tagged?, s: Slice)
      returns (clients: seq<Client>, created: seq<Client?>, failed: bool, ghost started: seq<Client>)
      requires s.Valid() && (previous != null ==> previous.Valid())
      modifies dialer
      ensures Tally(old(dialer.live), s.len, created, started, dialer.live)
      ensures dialer.refused == old(dialer.refused) + if failed then 1 else 0
      ensures !failed ==>
        && Rebuilt(IdsOf(previous), ClientsOf(previous), Ids(s.Elements()), clients, old(dialer.live))
        && Members(started) == Created(IdsOf(previous), Ids(s.Elements()), clients)
        && OpenedFor(Ids(s.Elements()), clients, Origins(IdsOf(previous), OriginsOf(previous), s.Elements()))
    {
      ghost var ids, oldIds, origins := Ids(s.Elements()), IdsOf(previous), Origins(IdsOf(previous), OriginsOf(previous), s.Elements());
      clients, failed, started := [], false, [];
      created := seq(s.len, k => null);
      var i := 0;
      while i < s.len && !failed
        invariant 0 <= i <= s.len
        invariant Tally(old(dialer.live), s.len, created, started, dialer.live)
        invariant dialer.refused == old(dialer.refused) + if failed then 1 else 0
        invariant !failed ==> BuiltSoFar(oldIds, ClientsOf(previous), ids[..i], clients, old(dialer.live), started)
        invariant !failed ==> OpenedFor(ids[..i], clients, origins[..i])
        decreases s.len - i, !failed
      {
        OneMore(ids, i);
        OneMore(origins, i);
        clients, created, failed, started := OpenNext(previous, s, i, clients, created, started, old(dialer.live));
        if !failed { i := i + 1; }
      }
      assert ids[..s.len] == ids && origins[..s.len] == origins;
    }

    /** One round of that loop. */
    method OpenNext(previous: Tagged?, s: Slice, i: nat, clients: seq<Client>, created: seq<Client?>,
                    ghost started: seq<Client>, ghost live: set<Client>)
      returns (clients': seq<Client>, created': seq<Client?>, failed: bool, ghost started': seq<Client>)
      requires s.Valid() && i < s.len && (previous != null ==> previous.Valid())
      requires Tally(live, s.len, created, started, dialer.live)
      requires BuiltSoFar(IdsOf(previous), ClientsOf(previous), Ids(s.Elements())[..i], clients, live, started)
      requires OpenedFor(Ids(s.Elements())[..i], clients, Origins(IdsOf(previous), OriginsOf(previous), s.Elements())[..i])
      modifies dialer
      ensures Tally(live, s.len, created', started', dialer.live)
      ensures dialer.refused == old(dialer.refused) + if failed then 1 else 0
      ensures !failed ==>
        var id, origin := Ids(s.Elements())[i], Origins(IdsOf(previous), OriginsOf(previous), s.Elements())[i];
        && BuiltSoFar(IdsOf(previous), ClientsOf(previous), Ids(s.Elements())[..i] + [id], clients', live, started')
        && OpenedFor(Ids(s.Elements())[..i] + [id], clients', Origins(IdsOf(previous), OriginsOf(previous), s.Elements())[..i] + [origin])
    {
      var service := s.base[i];
      assert s.Elements()[i] == service;
      var known := Reuse(previous, service.id);
      if known != null {
        ExtendReused(IdsOf(previous), ClientsOf(previous), Ids(s.Elements())[..i], clients, live, started, service.id, known);
        return clients + [known], created, false, started;
      }
      ghost var ids, origins := Ids(s.Elements())[..i], Origins(IdsOf(previous), OriginsOf(previous), s.Elements())[..i];
      clients', created', failed, started' := OpenOne(service, clients, created, started, live,
                                                      IdsOf(previous), ClientsOf(previous), ids, origins, s.len);
    }

    /** A service whose Id the old entry does not have: its client is opened, or the round fails. */
    method OpenOne(service: Service, clients: seq<Client>, created: seq<Client?>, ghost started: seq<Client>, ghost live: set<Client>,
                   ghost oldIds: seq<string>, ghost oldClients: seq<Client>, ghost ids: seq<string>, ghost origins: seq<Service>,
                   ghost nils: nat)
      returns (clients': seq<Client>, created': seq<Client?>, failed: bool, ghost started': seq<Client>)
      requires Tally(live, nils, created, started, dialer.live) && service.id !in oldIds
      requires BuiltSoFar(oldIds, oldClients, ids, clients, live, started) && OpenedFor(ids, clients, origins)
      modifies dialer
      ensures Tally(live, nils, created', started', dialer.live)
      ensures dialer.refused == old(dialer.refused) + if failed then 1 else 0
      ensures !failed ==> BuiltSoFar(oldIds, oldClients, ids + [service.id], clients', live, started')
      ensures !failed ==> OpenedFor(ids + [service.id], clients', origins + [service])
    {
      var client := dialer.Start(service.address, service.port);
      if client == null {
        return clients, created, true, started;
      }
      TallySnoc(live, nils, created, started, dialer.live - {client}, client);
      ExtendOpened(oldIds, oldClients, ids, clients, live, started, service.id, client);
      return clients + [client], created + [client], false, started + [client];
    }

    /** The inner loop of `newTagged`: the client of the first old service with this Id. */
    method Reuse(previous: Tagged?, id: string) returns (client: Client?)
      requires previous != null ==> previous.Valid()
      ensures id !in IdsOf(previous) <==> client == null
      ensures id in IdsOf(previous) ==> client == ClientsOf(previous)[FirstIndex(IdsOf(previous), id)]
      ensures id in IdsOf(previous) ==> PointsAt(client, OriginsOf(previous)[FirstIndex(IdsOf(previous), id)])
    {
      client := null;
      if previous == null { return; }
      ghost var ids := previous.ids;
      for j := 0 to previous.services.len
        invariant id !in ids[..j]
      {
        assert ids[..j + 1] == ids[..j] + [ids[j]];
        if previous.services.base[j].id == id {
          assert FirstIndex(ids, id) == j;
          return previous.clients[j];
        }
      }
      assert ids[..previous.services.len] == ids;
    }

    /** The clean-up of `newTagged`: `created` starts with nils, which `stop` ignores. */
    method StopCreated(created: seq<Client?>, nils: nat, ghost started: seq<Client>, ghost others: set<Client>)
      requires Tally(others, nils, created, started, dialer.live)
      modifies dialer
      ensures dialer.live == others && dialer.refused == old(dialer.refused)
    {
      ghost var n := 0;
      assert started[0..] == started;
      for k := 0 to |created|
        invariant n == if k <= nils then 0 else k - nils
        invariant dialer.live == others + Members(started[n..]) && dialer.refused == old(dialer.refused)
      {
        assert k < nils ==> created[k] == null;
        assert k >= nils ==> created[k] == started[k - nils];
        if created[k] != null {
          MembersTail(started, n);
          dialer.Stop(created[k]);
          n := n + 1;
        }
      }
    }

    method NewTagged(tag: string, previous: Tagged?, s: Slice, chash: bool) returns (r: Tagged?)
      requires s.Valid() && (previous != null ==> previous.Valid())
      modifies dialer
      ensures dialer.refused == old(dialer.refused) + if r == null then 1 else 0
      ensures r == null ==> dialer.live == old(dialer.live)
      ensures r != null ==>
        && fresh(r) && r.Valid() && r.tag == tag && r.index == 0 && r.services == s && (chash <==> r.hash != null)
        && (r.hash != null ==> fresh(r.hash) && r.hash.hash == hash)
        && r.origins == Origins(IdsOf(previous), OriginsOf(previous), s.Elements())
        && Rebuilt(IdsOf(previous), ClientsOf(previous), Ids(s.Elements()), r.clients, old(dialer.live))
        && dialer.live == old(dialer.live) + Created(IdsOf(previous), Ids(s.Elements()), r.clients)
    {
      ghost var live := dialer.live;
      var clients, created, failed, started := OpenClients(previous, s);
      if failed {
        StopCreated(created, s.len, started, live);
        return null;
      }
      r := new Tagged(hash, tag, s, clients, chash, Origins(IdsOf(previous), OriginsOf(previous), s.Elements()));
    }

    /** The last loop of `replaceTagged`: stop the clients whose Ids are gone. */
    method StopDropped(previous: Tagged, s: Slice)
      requires s.Valid() && previous.Valid()
      requires NoRepeats(previous.clients)
      requires Dropped(previous.ids, previous.clients, Ids(s.Elements())) <= dialer.live
      modifies dialer
      ensures dialer.live == old(dialer.live) - Dropped(previous.ids, previous.clients, Ids(s.Elements()))
      ensures dialer.refused == old(dialer.refused)
    {
      ghost var ids, oldIds, oldClients := Ids(s.Elements()), previous.ids, previous.clients;
      for i := 0 to previous.services.len
        invariant dialer.live == old(dialer.live) - Dropped(oldIds[..i], oldClients[..i], ids)
        invariant dialer.refused == old(dialer.refused)
      {
        DroppedSnoc(oldIds, oldClients, ids, i);
        var service := previous.services.base[i];
        var j := 0;
        while j < s.len && s.base[j].id != service.id
          invariant 0 <= j <= s.len
          invariant service.id !in ids[..j]
        {
          assert ids[..j + 1] == ids[..j] + [s.base[j].id];
          j := j + 1;
        }
        assert ids[..s.len] == ids;
        assert j < s.len ==> ids[j] == service.id;
        if j == s.len {
          dialer.Stop(previous.clients[i]);
        }
      }
      assert oldIds[..previous.services.len] == oldIds && oldClients[..previous.services.len] == oldClients;
    }

    /** `replaceTagged`, given the entry that is stored. */
    method ReplaceTagged(tag: string, previous: Tagged?, s: Slice, chash: bool) returns (r: Tagged?)
      requires Valid()
      requires previous == if tag in tagged then tagged[tag] else null
      requires s.Valid() && RingLaws.StrictlySorted(Ids(s.Elements()))
      modifies this`tagged, dialer
      ensures Valid()
      ensures dialer.refused == old(dialer.refused) + if r == null then 1 else 0
      ensures r == null ==> tagged == old(tagged) && dialer.live == old(dialer.live)
      ensures r != null ==>
        && tagged == old(tagged)[tag := r] && fresh(r) && r.index == 0
        && r.services == s && (chash <==> r.hash != null) && r.Valid()
        && old(s.Elements()) == s.Elements()
        && r.origins == Origins(IdsOf(previous), OriginsOf(previous), s.Elements())
        && SameClients(IdsOf(previous), ClientsOf(previous), IdsOf(r), r.clients)
    {
      ghost var live := dialer.live;
      if previous != null { SortedNoRepeats(previous.ids); }
      r := NewTagged(tag, previous, s, chash);
      if r != null {
        RebuiltSameClients(IdsOf(previous), ClientsOf(previous), r.ids, r.clients, live);
        Exchange(tag, previous, r, live);
      }
    }

    /** The second half of `replaceTagged`: store the new entry and stop what it dropped. */
    method Exchange(tag: string, previous: Tagged?, r: Tagged, ghost live: set<Client>)
      requires Ordered() && Entry(tag, r) && Conserved(Held(), live)
      requires previous == if tag in tagged then tagged[tag] else null
      requires Rebuilt(IdsOf(previous), ClientsOf(previous), r.ids, r.clients, live)
      requires dialer.live == live + Created(IdsOf(previous), r.ids, r.clients)
      modifies this`tagged, dialer
      ensures Valid() && tagged == old(tagged)[tag := r] && dialer.refused == old(dialer.refused)
    {
      ghost var held, oldIds, oldClients := Held(), IdsOf(previous), ClientsOf(previous);
      assert previous != null ==> previous.Valid() && RingLaws.StrictlySorted(oldIds);
      ExchangeConserves(held, live, dialer.live, tag, oldIds, oldClients, r.ids, r.clients);
      Install(tag, r);
      StopOld(previous, r);
    }

    /** If there was an entry, stop what the new one has dropped (selector.go:298-315). */
    method StopOld(previous: Tagged?, r: Tagged)
      requires Ordered() && r.Valid() && (previous != null ==> previous.Valid() && NoRepeats(previous.clients))
      requires |IdsOf(previous)| == |ClientsOf(previous)|
      requires Dropped(IdsOf(previous), ClientsOf(previous), r.ids) <= dialer.live
      modifies dialer
      ensures Ordered() && dialer.refused == old(dialer.refused)
      ensures dialer.live == old(dialer.live) - Dropped(IdsOf(previous), ClientsOf(previous), r.ids)
    {
      if previous != null {
        StopDropped(previous, r.services);
      } else {
        assert Dropped(IdsOf(previous), ClientsOf(previous), r.ids) == {};
      }
    }

    /** The locked assignment of `replaceTagged`. */
    method Install(tag: string, r: Tagged)
      requires Ordered() && Entry(tag, r)
      modifies this`tagged
      ensures Ordered() && tagged == old(tagged)[tag := r]
      ensures Held() == old(Held())[tag := r.clients]
    {
      tagged := tagged[tag := r];
      HeldUpdate(old(tagged), tag, r);
    }

    /** The stored entry of a tag will do: there is one, and it has a ring if one is needed. */
    ghost predicate WillDo(tag: string, chash: bool)
      reads this
    {
      tag in tagged && (!chash || tagged[tag].hash != null)
    }

    /**
     * `fill`: the stored entry, and nothing changes, if it will do; else a new one that has a ring if one was
     * asked for.
     */
    method Fill(tag: string, chash: bool) returns (r: Tagged?)
      requires Valid()
      modifies this`tagged, dialer
      ensures Valid()
      ensures old(WillDo(tag, chash)) ==>
        r == old(tagged)[tag] && tagged == old(tagged) && dialer.live == old(dialer.live)
      ensures r != null && !old(WillDo(tag, chash)) ==>
        fresh(r) && r.index == 0 && (r.hash != null <==> chash) && r.ids == Ids(Filter(tag, discovered))
      ensures dialer.refused == old(dialer.refused) + if r == null then 1 else 0
      ensures r == null ==> tagged == old(tagged) && dialer.live == old(dialer.live)
      ensures r != null ==>
        && tagged == old(tagged)[tag := r]
        && (chash ==> r.hash != null)
        && (tag in old(tagged) && old(tagged)[tag].hash != null ==> r.hash != null)
        && (if tag in old(tagged) && r == old(tagged)[tag] then dialer.live == old(dialer.live)
            else Agrees(tag) && var previous := if tag in old(tagged) then old(tagged)[tag] else null;
                 r.origins == Origins(IdsOf(previous), OriginsOf(previous), Filter(tag, discovered)))
        && OpenedFor(r.ids, r.clients, r.origins)
        && (tag in old(tagged) ==>
             SameClients(old(tagged)[tag].ids, old(tagged)[tag].clients, r.ids, r.clients))
    {
      if tag in tagged && (!chash || tagged[tag].hash != null) {
        r := tagged[tag];
        SortedNoRepeats(r.ids);
        assert tagged == tagged[tag := r];
        return;
      }
      var previous: Tagged? := if tag in tagged then tagged[tag] else null;
      var s := GetServices(tag, discovered, null);
      if !chash && previous != null {
        assert false; // selector.go:209-211 never runs: such an entry was returned above
      }
      FilterSorted(tag, discovered);
      r := ReplaceTagged(tag, previous, s, chash);
    }

    /** `RoundRobin`: advances the counter of the tag's entry, a new one if there was none. */
    method RoundRobin(tag: string) returns (r: Located)
      requires Valid()
      modifies this`tagged, dialer, (if tag in tagged then {tagged[tag]} else {})`index
      ensures Valid()
      ensures r == Refused ==> tagged == old(tagged) && dialer.live == old(dialer.live)
      ensures r != Refused ==>
        && tag in tagged && tagged == old(tagged)[tag := tagged[tag]]
        && r == Picked(tagged[tag].At(tagged[tag].index))
      ensures tag in old(tagged) ==>
        && r != Refused && tagged == old(tagged) && dialer.live == old(dialer.live)
        && tagged[tag].index == Next(old(tagged[tag].index))
      ensures tag !in old(tagged) && r != Refused ==> fresh(tagged[tag]) && tagged[tag].index == 1 && Agrees(tag)
    {
      var entry := Fill(tag, false);
      if entry == null { return Refused; }
      var pick := entry.RoundRobin();
      r := Picked(pick);
    }

    /** `Hashed`: asks the ring of the tag's entry, which is built if it is missing. */
    method Hashed(tag: string, key: int) returns (r: Located)
      requires Valid()
      modifies this`tagged, dialer
      ensures Valid()
      ensures r == Refused ==> tagged == old(tagged) && dialer.live == old(dialer.live)
      ensures r != Refused ==>
        && WillDo(tag, true) && tagged == old(tagged)[tag := tagged[tag]]
        && r.Picked? && HashedPick(hash, tagged[tag].ids, tagged[tag].clients, key, r.pick)
      ensures old(WillDo(tag, true)) ==> r != Refused && tagged == old(tagged) && dialer.live == old(dialer.live)
      ensures !old(WillDo(tag, true)) && r != Refused ==> fresh(tagged[tag]) && tagged[tag].index == 0 && Agrees(tag)
    {
      var entry := Fill(tag, true);
      if entry == null { return Refused; }
      var pick := entry.Hashed(key);
      r := Picked(pick);
    }

    /** `All`: the clients of the tag's entry. */
    method All(tag: string) returns (r: Located)
      requires Valid()
      modifies this`tagged, dialer
      ensures Valid()
      ensures r == Refused ==> tagged == old(tagged) && dialer.live == old(dialer.live)
      ensures r != Refused ==>
        && tag in tagged && tagged == old(tagged)[tag := tagged[tag]] && r == Listed(tagged[tag].clients)
      ensures tag in old(tagged) ==> r != Refused && tagged == old(tagged) && dialer.live == old(dialer.live)
      ensures tag !in old(tagged) && r != Refused ==> fresh(tagged[tag]) && tagged[tag].index == 0 && Agrees(tag)
    {
      var entry := Fill(tag, false);
      if entry == null { return Refused; }
      r := Listed(entry.clients);
    }

    /** The counters of the stored entries. */
    ghost function Entries(): set<Tagged>
      reads this
    {
      set t | t in tagged :: tagged[t]
    }

    /** One lookup: the entry of its tag is the stored one, if it will do, or a new one; nothing else changes. */
    method Locate(lookup: Lookup) returns (r: Located)
      requires Valid()
      modifies this`tagged, dialer, (if lookup.tag in tagged then {tagged[lookup.tag]} else {})`index
      ensures Valid()
      ensures tagged == old(tagged) ||
        (lookup.tag in tagged && tagged == old(tagged)[lookup.tag := tagged[lookup.tag]] && fresh(tagged[lookup.tag]))
      ensures old(WillDo(lookup.tag, lookup.ByKey?)) ==>
        && r != Refused && tagged == old(tagged)
        && tagged[lookup.tag].index == (if lookup.ByRound? then Next(old(tagged[lookup.tag].index)) else old(tagged[lookup.tag].index))
        && (lookup.ByRound? ==> r == Picked(tagged[lookup.tag].At(tagged[lookup.tag].index)))
    {
      match lookup
      case ByRound(t) => r := RoundRobin(t);
      case ByKey(t, key) => r := Hashed(t, key);
      case Listing(t) => r := All(t);
    }

    /** Seen from some tag: its entry stays the very same, and its counter moves only for its own calls. */
    method LocateBeside(lookup: Lookup, ghost tag: string) returns (r: Located)
      requires Valid() && WillDo(tag, lookup.ByKey? && lookup.tag == tag)
      modifies this`tagged, dialer, Entries()`index
      ensures Valid() && tag in tagged && tagged[tag] == old(tagged)[tag]
      ensures forall e | e in Entries() :: fresh(e) || e in old(Entries())
      ensures tagged[tag].index == if lookup == ByRound(tag) then Next(old(tagged[tag].index)) else old(tagged[tag].index)
      ensures lookup == ByRound(tag) ==> r == Picked(tagged[tag].At(tagged[tag].index))
    {
      assert lookup.tag in tagged && tag != lookup.tag ==> tagged[tag] != tagged[lookup.tag];
      r := Locate(lookup);
    }

    /**
     * Round robin over the selector's own calls: through any lookups, for this tag and others, that need no
     * new entry for this tag, its entry stays the very same, and the results of its `RoundRobin` calls are
     * the successive picks of that entry, none refused.
     */
    method Lookups(lookups: seq<Lookup>, ghost tag: string) returns (results: seq<Located>)
      requires Valid() && tag in tagged
      requires tagged[tag].hash != null || forall k | 0 <= k < |lookups| :: !(lookups[k].ByKey? && lookups[k].tag == tag)
      modifies this`tagged, dialer, Entries()`index
      ensures Valid() && tag in tagged && tagged[tag] == old(tagged)[tag]
      ensures TakenInTurn(tagged[tag], old(tagged[tag].index), tagged[tag].index, lookups, results, tag)
    {
      results := [];
      ghost var entry, start := tagged[tag], tagged[tag].index;
      for k := 0 to |lookups|
        invariant Valid() && tag in tagged && tagged[tag] == entry
        invariant forall e | e in Entries() :: fresh(e) || e in old(Entries())
        invariant TakenInTurn(entry, start, entry.index, lookups[..k], results, tag)
      {
        results := LookupNext(lookups, k, results, tag, entry, start);
      }
      assert lookups[..|lookups|] == lookups;
    }

    /** One round of that. */
    method LookupNext(lookups: seq<Lookup>, k: nat, results: seq<Located>, ghost tag: string, ghost entry: Tagged, ghost start: int)
      returns (results': seq<Located>)
      requires Valid() && k < |lookups| && WillDo(tag, lookups[k].ByKey? && lookups[k].tag == tag) && tagged[tag] == entry
      requires TakenInTurn(entry, start, entry.index, lookups[..k], results, tag)
      modifies this`tagged, dialer, Entries()`index
      ensures Valid() && tag in tagged && tagged[tag] == entry
      ensures forall e | e in Entries() :: fresh(e) || e in old(Entries())
      ensures TakenInTurn(entry, start, entry.index, lookups[..k + 1], results', tag)
    {
      var r := LocateBeside(lookups[k], tag);
      OneMoreTurn(entry, start, old(entry.index), lookups, k, results, tag, entry.index, r);
      results' := results + [r];
    }

    /** One round of `pull`: bring the entry of a tag up to date, collecting services in the scratch buffer. */
    method Refresh(tag: string, entry: Tagged, scratch: array<Service>) returns (failed: bool)
      requires Valid() && Unaliased(tagged, scratch)
      requires tag in tagged && tagged[tag] == entry
      modifies this`tagged, dialer, scratch
      ensures Valid() && Unaliased(tagged, scratch)
      ensures dialer.refused == old(dialer.refused) + if failed then 1 else 0
      ensures tag in tagged && tagged == old(tagged)[tag := tagged[tag]]
      ensures if failed then tagged[tag] == entry else Refreshed(entry, tagged[tag], tag, discovered)
    {
      FilterSorted(tag, discovered);
      var same, copied := Collect(tag, entry, scratch);
      if same {
        SelfRefreshed(entry, tag, discovered);
        return false;
      }
      failed := Rebuild(tag, entry, copied, scratch);
    }

    method Rebuild(tag: string, entry: Tagged, copied: Slice, ghost scratch: array<Service>) returns (failed: bool)
      requires Valid() && Unaliased(tagged, scratch) && copied.base != scratch
      requires tag in tagged && tagged[tag] == entry
      requires copied.Valid() && copied.Elements() == Filter(tag, discovered) && SortedById(copied.Elements())
      requires entry.ids != Ids(Filter(tag, discovered))
      modifies this`tagged, dialer
      ensures Valid() && Unaliased(tagged, scratch)
      ensures dialer.refused == old(dialer.refused) + if failed then 1 else 0
      ensures tag in tagged && tagged == old(tagged)[tag := tagged[tag]]
      ensures if failed then tagged[tag] == entry else Refreshed(entry, tagged[tag], tag, discovered)
    {
      var r := ReplaceTagged(tag, entry, copied, entry.hash != null);
      failed := r == null;
      if r != null { StillUnaliased(old(tagged), scratch, tag, r); }
    }

    /** Filters into the scratch buffer, compares with the entry and copies out what is to be stored. */
    method Collect(tag: string, entry: Tagged, scratch: array<Service>) returns (same: bool, copied: Slice)
      requires entry.Valid() && entry.services.base != scratch
      modifies scratch
      ensures same <==> entry.ids == Ids(Filter(tag, discovered))
      ensures !same ==> copied.Valid() && fresh(copied.base) && copied.Elements() == Filter(tag, discovered)
    {
      var s := GetServices(tag, discovered, scratch);
      same := SameServices(entry.services.Elements(), s.Elements());
      SameServicesIds(entry.services.Elements(), s.Elements());
      copied := s;
      if !same { copied := Copy(s); }
    }

    /** The copy out of the scratch buffer. */
    method Copy(s: Slice) returns (copied: Slice)
      requires s.Valid()
      ensures copied.Valid() && fresh(copied.base) && copied.Elements() == s.Elements()
    {
      var base := new Service[s.len];
      forall k | 0 <= k < s.len { base[k] := s.base[k]; }
      copied := Slice(base, s.len);
      assert copied.Elements() == s.Elements();
    }

    /**
     * `pull`. An unavailable registry, and an answer whose sorted Ids are those already known, change
     * nothing. Otherwise every entry either lists the new plain filter, with surviving clients kept, or
     * it lags: its rebuild failed to connect, one
     * refused start for each, and it is exactly as before. If all connects succeed none lags.
     */
    method Pull(answer: Answer) returns (ok: bool, ghost lagging: set<string>)
      requires Valid() && (answer.Services? ==> WellFormed(answer.services))
      modifies this`tagged, this`discovered, dialer
      ensures Valid() && tagged.Keys == old(tagged).Keys
      ensures ok <==> answer.Services?
      ensures dialer.refused == old(dialer.refused) + |lagging|
      ensures !ok || SameIds(answer.services, old(discovered)) ==>
        tagged == old(tagged) && discovered == old(discovered) && dialer.live == old(dialer.live) && lagging == {}
      ensures ok && !SameIds(answer.services, old(discovered)) ==>
        && multiset(discovered) == multiset(answer.services)
        && (forall t | t in tagged && t in lagging :: tagged[t] == old(tagged)[t])
        && (forall t | t in tagged && t !in lagging :: Refreshed(old(tagged)[t], tagged[t], t, discovered))
    {
      lagging := {};
      if answer.Unavailable? {
        return false, {};
      }
      ok := true;
      IdBelowIsStrictWeak();
      var sorted := SortSearch.SortSlice(answer.services, IdBelow);
      SortingWellFormed(answer.services, sorted);
      SameServicesMeaning(answer.services, sorted, discovered);
      if SameServices(discovered, sorted) {
        return;
      }
      lagging := TakeUp(sorted);
    }

    /** An answer with other Ids becomes what is known, and every entry is brought up to date. */
    method TakeUp(sorted: seq<Service>) returns (ghost lagging: set<string>)
      requires Valid() && SortedById(sorted) && forall s | s in sorted :: NoRepeats(s.tags)
      modifies this`tagged, this`discovered, dialer
      ensures Valid() && discovered == sorted && RoundsDone(old(tagged), tagged, map[], lagging, discovered)
      ensures dialer.refused == old(dialer.refused) + |lagging|
    {
      discovered := sorted;
      lagging := RefreshAll();
    }

    /** The loop of `pull` over a snapshot of the entries, in the unspecified order of a Go map. */
    method RefreshAll() returns (ghost lagging: set<string>)
      requires Valid()
      modifies this`tagged, dialer
      ensures Valid() && RoundsDone(old(tagged), tagged, map[], lagging, discovered)
      ensures dialer.refused == old(dialer.refused) + |lagging|
    {
      lagging := {};
      var scratch := new Service[128];
      var snapshot := tagged;
      while snapshot != map[]
        invariant Valid() && Unaliased(tagged, scratch)
        invariant RoundsDone(old(tagged), tagged, snapshot, lagging, discovered)
        invariant dialer.refused == old(dialer.refused) + |lagging|
        decreases |snapshot|
      {
        snapshot, lagging := Round(old(tagged), snapshot, lagging, scratch);
      }
    }

    method Round(ghost before: map<string, Tagged>, snapshot: map<string, Tagged>, ghost lagging: set<string>, scratch: array<Service>)
      returns (rest: map<string, Tagged>, ghost lagging': set<string>)
      requires Valid() && Unaliased(tagged, scratch) && snapshot != map[]
      requires RoundsDone(before, tagged, snapshot, lagging, discovered)
      modifies this`tagged, dialer, scratch
      ensures Valid() && Unaliased(tagged, scratch)
      ensures RoundsDone(before, tagged, rest, lagging', discovered)
      ensures |rest| < |snapshot| && |lagging'| - dialer.refused == |lagging| - old(dialer.refused)
    {
      var t :| t in snapshot;
      ghost var now := tagged;
      var failed := Refresh(t, snapshot[t], scratch);
      RoundDone(before, now, snapshot, lagging, discovered, t, tagged[t], failed);
      lagging' := if failed then lagging + {t} else lagging;
      rest := snapshot - {t};
    }

    method StopAll(clients: seq<Client>, ghost others: set<Client>)
      requires NoRepeats(clients) && dialer.live == others + Members(clients) && others !! Members(clients)
      modifies dialer
      ensures dialer.live == others && dialer.refused == old(dialer.refused)
    {
      assert clients[0..] == clients;
      for i := 0 to |clients|
        invariant dialer.live == others + Members(clients[i..]) && dialer.refused == old(dialer.refused)
      {
        MembersTail(clients, i);
        assert clients[i] in Members(clients);
        dialer.Stop(clients[i]);
      }
    }

    /** `Stop`: every client of every entry is stopped, once, and the map discarded. A second call panics in Go. */
    method Stop()
      requires Valid() && !stopped
      modifies this`tagged, this`stopped, dialer
      ensures Valid() && stopped && tagged == map[] && dialer.live == {}
    {
      stopped := true;
      StopEntries();
      tagged := map[];
      NothingHeld();
    }

    method StopEntries()
      requires Conserved(Held(), dialer.live)
      modifies dialer
      ensures dialer.live == {}
    {
      var rest := tagged;
      while rest != map[]
        invariant Conserved(HeldBy(rest), dialer.live)
        decreases |rest|
      {
        var t :| t in rest;
        HeldWithout(rest, t);
        StopAll(rest[t].clients, AllHeld(HeldBy(rest - {t})));
        rest := rest - {t};
      }
      NothingHeld();
    }
  }

  lemma ExchangeConserves(held: map<string, seq<Client>>, live: set<Client>, now: set<Client>, tag: string,
                          oldIds: seq<string>, oldClients: seq<Client>, ids: seq<string>, clients: seq<Client>)
    requires RingLaws.StrictlySorted(oldIds) && RingLaws.StrictlySorted(ids)
    requires Conserved(held, live) && oldClients == if tag in held then held[tag] else []
    requires Rebuilt(oldIds, oldClients, ids, clients, live) && now == live + Created(oldIds, ids, clients)
    ensures Conserved(held[tag := clients], now - Dropped(oldIds, oldClients, ids))
    ensures Dropped(oldIds, oldClients, ids) <= now && NoRepeats(oldClients)
  {
    SortedNoRepeats(oldIds);
    SortedNoRepeats(ids);
    RebuildConserves(held, live, tag, oldIds, oldClients, ids, clients);
    if tag in held { HeldNoRepeats(held, tag); }
  }

  lemma HeldNoRepeats(held: map<string, seq<Client>>, tag: string)
    requires Disjoint(held) && tag in held
    ensures NoRepeats(held[tag])
  {
  }

  lemma DroppedSnoc(oldIds: seq<string>, oldClients: seq<Client>, ids: seq<string>, i: nat)
    requires |oldIds| == |oldClients| && i < |oldIds| && NoRepeats(oldClients)
    ensures Dropped(oldIds[..i + 1], oldClients[..i + 1], ids)
         == Dropped(oldIds[..i], oldClients[..i], ids) + if oldIds[i] in ids then {} else {oldClients[i]}
    ensures oldClients[i] !in Dropped(oldIds[..i], oldClients[..i], ids)
    ensures oldIds[i] !in ids ==> oldClients[i] in Dropped(oldIds, oldClients, ids)
  {
    var ids', clients' := oldIds[..i + 1], oldClients[..i + 1];
    assert oldIds[i] !in ids ==> clients'[i] in Dropped(ids', clients', ids);
    forall c | c in Dropped(oldIds[..i], oldClients[..i], ids) ensures c in Dropped(ids', clients', ids) {
      var k :| 0 <= k < i && oldIds[..i][k] !in ids && oldClients[..i][k] == c;
      assert ids'[k] !in ids && clients'[k] == c;
    }
  }

  /** A rebuild never changes the client of an Id that stays. */
  lemma RebuiltSameClients(oldIds: seq<string>, oldClients: seq<Client>, ids: seq<string>, clients: seq<Client>, live: set<Client>)
    requires Rebuilt(oldIds, oldClients, ids, clients, live) && NoRepeats(oldIds)
    ensures SameClients(oldIds, oldClients, ids, clients)
  {
    forall i, j | 0 <= i < |oldIds| && 0 <= j < |ids| && oldIds[i] == ids[j] ensures oldClients[i] == clients[j] {
      assert FirstIndex(oldIds, ids[j]) == i;
    }
  }

  ghost predicate BuiltSoFar(oldIds: seq<string>, oldClients: seq<Client>, ids: seq<string>, clients: seq<Client>,
                             live: set<Client>, started: seq<Client>)
  {
    Rebuilt(oldIds, oldClients, ids, clients, live) && Members(started) == Created(oldIds, ids, clients)
  }

  lemma ExtendReused(oldIds: seq<string>, oldClients: seq<Client>, ids: seq<string>, clients: seq<Client>,
                     live: set<Client>, started: seq<Client>, id: string, client: Client)
    requires BuiltSoFar(oldIds, oldClients, ids, clients, live, started)
    requires id in oldIds && client == oldClients[FirstIndex(oldIds, id)]
    ensures BuiltSoFar(oldIds, oldClients, ids + [id], clients + [client], live, started)
  {
    RebuiltSnoc(oldIds, oldClients, ids, clients, live, id, client);
  }

  lemma ExtendOpened(oldIds: seq<string>, oldClients: seq<Client>, ids: seq<string>, clients: seq<Client>,
                     live: set<Client>, started: seq<Client>, id: string, client: Client)
    requires BuiltSoFar(oldIds, oldClients, ids, clients, live, started)
    requires id !in oldIds && client !in live + Members(started)
    ensures BuiltSoFar(oldIds, oldClients, ids + [id], clients + [client], live, started + [client])
  {
    RebuiltSnoc(oldIds, oldClients, ids, clients, live, id, client);
    MembersSnoc(started, client);
  }

  /** `created` is so many nils followed by the clients opened since `before` was live. */
  ghost predicate Tally(before: set<Client>, nils: nat, created: seq<Client?>, started: seq<Client>, live: set<Client>)
  {
    && |created| == nils + |started|
    && (forall k | 0 <= k < nils :: created[k] == null)
    && (forall k | 0 <= k < |started| :: created[nils + k] == started[k])
    && NoRepeats(started) && Members(started) !! before
    && live == before + Members(started)
  }

  lemma TallySnoc(before: set<Client>, nils: nat, created: seq<Client?>, started: seq<Client>, live: set<Client>, client: Client)
    requires Tally(before, nils, created, started, live) && client !in live
    ensures Tally(before, nils, created + [client], started + [client], live + {client})
  {
    MembersSnoc(started, client);
    forall i | 0 <= i < |started| ensures started[i] != client { assert started[i] in Members(started); }
  }

  lemma MembersSnoc<C>(s: seq<C>, c: C)
    ensures Members(s + [c]) == Members(s) + {c}
  {
    forall x | x in Members(s) + {c} ensures x in Members(s + [c]) {
      if x == c {
        assert (s + [c])[|s|] == c;
      } else {
        var i :| 0 <= i < |s| && s[i] == x;
        assert (s + [c])[i] == x;
      }
    }
  }

  lemma MembersTail<C>(s: seq<C>, k: nat)
    requires k < |s| && NoRepeats(s)
    ensures s[k] in Members(s[k..]) && Members(s[k..]) - {s[k]} == Members(s[k + 1..])
  {
    var t, u := s[k..], s[k + 1..];
    assert t[0] == s[k];
    forall x | x in Members(t) && x != s[k] ensures x in Members(u) {
      var i :| 0 <= i < |t| && t[i] == x;
      assert u[i - 1] == x;
    }
    forall x | x in Members(u) ensures x in Members(t) && x != s[k] {
      var i :| 0 <= i < |u| && u[i] == x;
      assert t[i + 1] == x;
    }
  }
}
