/** Inputs on which a rebuild loses or doubles clients: repeated tags, and an entry that is no longer the stored one. */
module Rebuilds {
  import opened Discovery
  import opened Holdings
  import opened Registry
  import opened Sequences

  // ----- a tag twice on a service -----

  /** How often `getServices` collects the Id. */
  function Collected(tag: string, services: seq<Service>, id: string): nat
  {
    if services == [] then 0
    else
      var last := services[|services| - 1];
      Collected(tag, services[..|services| - 1], id) + if last.id == id then multiset(last.tags)[tag] else 0
  }

  lemma {:induction false} MatchesCounted(tag: string, service: Service, tags: seq<string>, id: string)
    ensures multiset(Ids(TagMatches(tag, service, tags)))[id] == if service.id == id then multiset(tags)[tag] else 0
  {
    if tags != [] {
      var n := |tags| - 1;
      MatchesCounted(tag, service, tags[..n], id);
      assert tags == tags[..n] + [tags[n]];
      var init := TagMatches(tag, service, tags[..n]);
      assert tags[n] == tag ==> Ids(init + [service]) == Ids(init) + [service.id];
      assert init + [] == init;
    }
  }

  lemma {:induction false} FilterCounted(tag: string, services: seq<Service>, id: string)
    ensures multiset(Ids(Filter(tag, services)))[id] == Collected(tag, services, id)
  {
    if services != [] {
      var n := |services| - 1;
      var init, more := Filter(tag, services[..n]), TagMatches(tag, services[n], services[n].tags);
      FilterCounted(tag, services[..n], id);
      MatchesCounted(tag, services[n], services[n].tags, id);
      assert Ids(init + more) == Ids(init) + Ids(more);
    }
  }

  /** With distinct Ids a service is collected once for each time that it has the tag. */
  lemma {:induction false} CollectedDistinct(tag: string, services: seq<Service>, id: string)
    requires NoRepeats(Ids(services))
    ensures forall s | s in services && s.id == id :: Collected(tag, services, id) == multiset(s.tags)[tag]
    ensures id !in Ids(services) ==> Collected(tag, services, id) == 0
  {
    if services != [] {
      var n := |services| - 1;
      var init, last := services[..n], services[n];
      assert Ids(init) == Ids(services)[..n];
      CollectedDistinct(tag, init, id);
      assert services == init + [last];
      assert last.id !in Ids(init) by {
        forall i | 0 <= i < n ensures Ids(init)[i] != last.id { assert Ids(services)[i] != Ids(services)[n]; }
      }
      forall s | s in services && s.id == id ensures Collected(tag, services, id) == multiset(s.tags)[tag] {
        if s in init { IdMember(init, id); }
      }
      assert id in Ids(init) ==> id in Ids(services);
      assert Ids(services)[n] == last.id;
    }
  }

  lemma OnceCounted(ids: seq<string>, id: string)
    ensures Once(ids, id) <==> multiset(ids)[id] <= 1
  {
    if multiset(ids)[id] <= 1 {
      forall i, j | 0 <= i < |ids| && 0 <= j < |ids| && ids[i] == id && ids[j] == id ensures i == j {
        if i < j { TwicePresent(ids, i, j); }
        if j < i { TwicePresent(ids, j, i); }
      }
    }
    if Once(ids, id) { OnceAtMost(ids, id); }
  }

  lemma {:induction false} OnceAtMost(ids: seq<string>, id: string)
    requires Once(ids, id)
    ensures multiset(ids)[id] <= 1
  {
    if ids != [] {
      var n := |ids| - 1;
      assert ids == ids[..n] + [ids[n]];
      assert forall i | 0 <= i < n :: ids[..n][i] == ids[i];
      OnceAtMost(ids[..n], id);
      if ids[n] == id {
        assert id !in ids[..n];
      }
    }
  }

  /** Of services with distinct Ids, one that has the tag is collected, and collected once if it has it once. */
  lemma FilterOnce(tag: string, services: seq<Service>, s: Service)
    requires NoRepeats(Ids(services)) && s in services
    ensures s.id in Ids(Filter(tag, services)) <==> tag in s.tags
    ensures Once(Ids(Filter(tag, services)), s.id) <==> multiset(s.tags)[tag] <= 1
  {
    FilterCounted(tag, services, s.id);
    CollectedDistinct(tag, services, s.id);
    OnceCounted(Ids(Filter(tag, services)), s.id);
    assert s.id in Ids(Filter(tag, services)) <==> multiset(Ids(Filter(tag, services)))[s.id] > 0;
  }

  lemma FilteredService(tag: string, services: seq<Service>, id: string)
    requires NoRepeats(Ids(services)) && id in Ids(Filter(tag, services))
    ensures exists s :: s in services && s.id == id && tag in s.tags
  {
    FilterCounted(tag, services, id);
    CollectedDistinct(tag, services, id);
    assert multiset(Ids(Filter(tag, services)))[id] > 0;
    IdMember(services, id);
    var s :| s in services && s.id == id;
    assert tag in s.tags;
  }

  /** No service that has the tag before and after has it twice, before or after. */
  ghost predicate TaggedOnce(tag: string, known: seq<Service>, answer: seq<Service>)
  {
    forall a, b | a in known && b in answer && a.id == b.id && tag in a.tags && tag in b.tags ::
      multiset(a.tags)[tag] == 1 && multiset(b.tags)[tag] == 1
  }

  /**
   * What repeated tags do to distinct Ids: rebuilding a tag's entry from one answer to the next conserves the
   * clients if and only if no service that keeps the tag has it twice in either answer.
   */
  lemma RepeatedTags<C>(held: map<string, seq<C>>, live: set<C>, tag: string,
                        known: seq<Service>, oldClients: seq<C>, answer: seq<Service>, clients: seq<C>)
    requires Conserved(held, live) && oldClients == (if tag in held then held[tag] else [])
    requires NoRepeats(Ids(known)) && NoRepeats(Ids(answer))
    requires Rebuilt(Ids(Filter(tag, known)), oldClients, Ids(Filter(tag, answer)), clients, live)
    ensures
      var oldIds, ids := Ids(Filter(tag, known)), Ids(Filter(tag, answer));
      Conserved(held[tag := clients], live + Created(oldIds, ids, clients) - Dropped(oldIds, oldClients, ids))
      <==> TaggedOnce(tag, known, answer)
  {
    var oldIds, ids := Ids(Filter(tag, known)), Ids(Filter(tag, answer));
    RebuildConservesExactly(held, live, tag, oldIds, oldClients, ids, clients);
    if TaggedOnce(tag, known, answer) {
      forall id | id in oldIds && id in ids ensures Once(oldIds, id) && Once(ids, id) {
        FilteredService(tag, known, id);
        FilteredService(tag, answer, id);
        var a :| a in known && a.id == id && tag in a.tags;
        var b :| b in answer && b.id == id && tag in b.tags;
        FilterOnce(tag, known, a);
        FilterOnce(tag, answer, b);
      }
    }
    if CommonOnce(oldIds, ids) {
      forall a, b | a in known && b in answer && a.id == b.id && tag in a.tags && tag in b.tags
        ensures multiset(a.tags)[tag] == 1 && multiset(b.tags)[tag] == 1
      {
        FilterOnce(tag, known, a);
        FilterOnce(tag, answer, b);
      }
    }
  }

  // ----- `fill` between the snapshot of `pull` and its rebuild -----

  /** Who holds which client, which are live, and how often each was stopped. */
  datatype Books<!C> = Books(held: map<string, seq<C>>, live: set<C>, stops: multiset<C>)

  /** `replaceTagged` given an entry with these Ids and clients, and what `newTagged` made of them. */
  function Replaced<C>(b: Books<C>, tag: string, oldIds: seq<string>, oldClients: seq<C>, ids: seq<string>, clients: seq<C>): Books<C>
    requires |oldIds| == |oldClients| && |ids| == |clients|
  {
    Books(b.held[tag := clients],
          b.live + Created(oldIds, ids, clients) - Dropped(oldIds, oldClients, ids),
          b.stops + multiset(Dropped(oldIds, oldClients, ids)))
  }

  lemma FilterOne(tag: string, s: Service)
    requires s.tags == [tag]
    ensures Filter(tag, [s]) == [s] && Ids(Filter(tag, [s])) == [s.id]
  {
    assert s.tags[..0] == [];
    assert TagMatches(tag, s, s.tags) == [] + [s];
    assert [s][..0] == [];
  }

  /**
   * The input on which the code fails. The service of a tag is replaced by another one. `pull` stores the new
   * answer and takes its snapshot, with the entry `([gone], [c0])`; `fill(tag, true)` finds that entry without
   * a ring and rebuilds it; then `pull` rebuilds the entry of its snapshot. Both rebuilds are as the code makes
   * them, the first one conserves, and after the second `c1` is live with nobody to stop it, and `c0`, which was
   * no longer live, has been stopped a second time.
   */
  lemma StalePullLeaks<C>(tag: string, gone: Service, arrived: Service, c0: C, c1: C, c2: C)
    requires gone.tags == [tag] && arrived.tags == [tag] && gone.id != arrived.id
    requires c0 != c1 && c0 != c2 && c1 != c2
    ensures
      var oldIds, ids := Ids(Filter(tag, [gone])), Ids(Filter(tag, [arrived]));
      |oldIds| == 1 && |ids| == 1 &&
      var before := Books(map[tag := [c0]], {c0}, multiset{});
      var filled := Replaced(before, tag, oldIds, [c0], ids, [c1]);
      var pulled := Replaced(filled, tag, oldIds, [c0], ids, [c2]);
      && Conserved(before.held, before.live)
      && Rebuilt(oldIds, [c0], ids, [c1], before.live) && Conserved(filled.held, filled.live)
      && Rebuilt(oldIds, [c0], ids, [c2], filled.live)
      && c1 in pulled.live && c1 !in AllHeld(pulled.held)
      && c0 !in filled.live && pulled.stops[c0] == 2
  {
    FilterOne(tag, gone);
    FilterOne(tag, arrived);
    StaleIdLeaks(tag, gone.id, arrived.id, c0, c1, c2);
  }

  lemma StaleIdLeaks<C>(tag: string, id: string, id': string, c0: C, c1: C, c2: C)
    requires id != id' && c0 != c1 && c0 != c2 && c1 != c2
    ensures
      var before := Books(map[tag := [c0]], {c0}, multiset{});
      var filled := Replaced(before, tag, [id], [c0], [id'], [c1]);
      var pulled := Replaced(filled, tag, [id], [c0], [id'], [c2]);
      && Conserved(before.held, before.live)
      && Rebuilt([id], [c0], [id'], [c1], before.live) && Conserved(filled.held, filled.live)
      && Rebuilt([id], [c0], [id'], [c2], filled.live)
      && c1 in pulled.live && c1 !in AllHeld(pulled.held)
      && c0 !in filled.live && pulled.stops[c0] == 2
  {
    OneHeld(tag, c0);
    OneHeld(tag, c1);
    OneHeld(tag, c2);
    var before := Books(map[tag := [c0]], {c0}, multiset{});
    OneForOne(before, tag, id, c0, id', c1);
    var filled := Books(map[tag := [c1]], {c1}, multiset{c0});
    assert {c0} + {c1} - {c0} == {c1};
    assert Replaced(before, tag, [id], [c0], [id'], [c1]) == filled;
    OneForOne(filled, tag, id, c0, id', c2);
  }

  lemma OneHeld<C>(tag: string, c: C)
    ensures Conserved(map[tag := [c]], {c})
  {
    var held := map[tag := [c]];
    assert held[tag][0] == c;
    HeldMember(held, tag, 0);
  }

  /** A rebuild from one service to another one. */
  lemma OneForOne<C>(b: Books<C>, tag: string, id: string, c: C, id': string, c': C)
    requires id != id' && c' !in b.live && b.held.Keys == {tag}
    ensures Rebuilt([id], [c], [id'], [c'], b.live)
    ensures Replaced(b, tag, [id], [c], [id'], [c']) == Books(map[tag := [c']], b.live + {c'} - {c}, b.stops + multiset{c})
  {
    assert [id'][0] !in [id] && [id][0] !in [id'];
    assert Created([id], [id'], [c']) == {[c'][0]};
    assert Dropped([id], [c], [id']) == {[c][0]};
    assert multiset({c}) == multiset{c};
    assert b.held[tag := [c']] == map[tag := [c']];
  }
}
