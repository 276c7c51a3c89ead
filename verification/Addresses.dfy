/** Whether the clients of an entry connect to where discovery says that the services are. */
module Addresses {
  import opened ConsistentHash
  import opened Dialing
  import opened Discovery
  import opened Holdings
  import opened Registry
  import opened SelectorIndex
  import opened Sequences
  import opened TaggedPool

  // ----- one refresh -----

  /**
   * After a refresh, the client of an Id that has just arrived points at the service as it is listed; any other
   * is the client of before, wherever it pointed.
   */
  lemma RefreshedClient(before: Tagged, now: Tagged, tag: string, discovered: seq<Service>, i: nat)
    requires Refreshed(before, now, tag, discovered) && i < |now.ids|
    ensures var listed := Filter(tag, discovered)[i];
            && listed.id == now.ids[i]
            && (if listed.id in before.ids
                then now.clients[i] == before.clients[FirstIndex(before.ids, listed.id)]
                     && now.origins[i] == before.origins[FirstIndex(before.ids, listed.id)]
                else now.origins[i] == listed && PointsAt(now.clients[i], listed))
            && (PointsAt(now.clients[i], listed) <==> SameAddress(now.origins[i], listed))
  {
    var services := Filter(tag, discovered);
    assert now.ids[i] == services[i].id;
    if services[i].id in before.ids {
      var j := FirstIndex(before.ids, services[i].id);
      assert before.ids[j] == now.ids[i];
    }
  }

  // ----- the whole history of an entry -----

  /** What the clients were opened for once an entry has been rebuilt for the lists up to the `n`th. */
  ghost function OriginsAt(lists: seq<seq<Service>>, n: nat): (r: seq<Service>)
    requires n < |lists|
    ensures |r| == |lists[n]|
  {
    if n == 0 then Origins([], [], lists[0]) else Origins(Ids(lists[n - 1]), OriginsAt(lists, n - 1), lists[n])
  }

  lemma {:induction false} SameHistory(lists: seq<seq<Service>>, last: seq<Service>, n: nat)
    requires n < |lists|
    ensures OriginsAt(lists + [last], n) == OriginsAt(lists, n)
  {
    if n > 0 { SameHistory(lists, last, n - 1); }
  }

  /** The first build of an entry starts its history, and every refresh continues it. */
  lemma HistoryGoesOn(before: Tagged, now: Tagged, tag: string, discovered: seq<Service>, lists: seq<seq<Service>>)
    requires Refreshed(before, now, tag, discovered)
    requires lists != [] && before.ids == Ids(lists[|lists| - 1]) && before.origins == OriginsAt(lists, |lists| - 1)
    ensures var lists' := lists + [Filter(tag, discovered)];
            now.ids == Ids(lists'[|lists|]) && now.origins == OriginsAt(lists', |lists|)
    ensures OriginsAt(lists, 0) == Origins([], [], lists[0]) == lists[0]
  {
    SameHistory(lists, Filter(tag, discovered), |lists| - 1);
  }

  /** The Id came with list `m` and has been listed ever since. */
  ghost predicate ListedSince(lists: seq<seq<Service>>, m: nat, n: nat, id: string)
  {
    && m <= n < |lists|
    && (m > 0 ==> id !in Ids(lists[m - 1]))
    && (forall k | m <= k <= n :: id in Ids(lists[k]))
  }

  lemma {:induction false} OriginIsArrival(lists: seq<seq<Service>>, m: nat, n: nat, i: nat, j: nat)
    requires n < |lists| && i < |lists[n]| && ListedSince(lists, m, n, lists[n][i].id)
    requires NoRepeats(Ids(lists[m])) && j < |lists[m]| && lists[m][j].id == lists[n][i].id
    ensures OriginsAt(lists, n)[i] == lists[m][j]
  {
    var id := lists[n][i].id;
    if m == n {
      assert Ids(lists[n])[i] == Ids(lists[n])[j];
    } else {
      var k := FirstIndex(Ids(lists[n - 1]), id);
      assert lists[n - 1][k].id == id;
      OriginIsArrival(lists, m, n - 1, k, j);
    }
  }

  /**
   * Where the clients of an entry point, exactly: the client of an Id points at its service as any listing has
   * it, the latest answer included, if and only if that listing has the address that the service had in the
   * list with which the Id was last added to the entry. Changes since are not noticed, since clients are
   * reused by Id alone, and changes in answers that were ignored before are not either.
   */
  lemma AddressLaw(lists: seq<seq<Service>>, clients: seq<Client>, m: nat, n: nat, i: nat, j: nat, s: Service)
    requires n < |lists| && i < |lists[n]| && ListedSince(lists, m, n, lists[n][i].id)
    requires NoRepeats(Ids(lists[m])) && j < |lists[m]| && lists[m][j].id == lists[n][i].id
    requires OpenedFor(Ids(lists[n]), clients, OriginsAt(lists, n))
    ensures PointsAt(clients[i], s) <==> SameAddress(lists[m][j], s)
  {
    OriginIsArrival(lists, m, n, i, j);
  }

  /**
   * Where that address comes from: the list with which the Id was added is the filter of what was known then,
   * so the address is the one in the last answer that was not ignored by then.
   */
  lemma AddressOrigin(lists: seq<seq<Service>>, clients: seq<Client>, m: nat, n: nat, i: nat, j: nat, s: Service,
                      answers: seq<seq<Service>>, tag: string)
    requires n < |lists| && i < |lists[n]| && ListedSince(lists, m, n, lists[n][i].id)
    requires NoRepeats(Ids(lists[m])) && j < |lists[m]| && lists[m][j].id == lists[n][i].id
    requires OpenedFor(Ids(lists[n]), clients, OriginsAt(lists, n))
    requires lists[m] == Filter(tag, Known(answers)) && forall a | a in Known(answers) :: NoRepeats(a.tags)
    ensures exists t: nat :: LastTaken(answers, t) && lists[m][j] in answers[t]
    ensures tag in lists[m][j].tags && (PointsAt(clients[i], s) <==> SameAddress(lists[m][j], s))
  {
    AddressLaw(lists, clients, m, n, i, j, s);
    FilterMembers(tag, Known(answers));
    assert lists[m][j] in Filter(tag, Known(answers));
    KnownIsLastTaken(answers);
  }

  // ----- the inputs on which an address is missed -----

  lemma FilterAll(tag: string, services: seq<Service>)
    requires forall s | s in services :: s.tags == [tag]
    ensures Filter(tag, services) == services
  {
    if services != [] {
      var n := |services| - 1;
      FilterAll(tag, services[..n]);
      assert services == services[..n] + [services[n]];
      assert services[n].tags[..0] == [];
      assert TagMatches(tag, services[n], services[n].tags) == [] + [services[n]];
    }
  }

  /**
   * Service "a" moves to another host while service "b" arrives. The answer is not ignored, the entry is
   * refreshed, and the client of "a" still points at the old host.
   */
  lemma MovedServiceMissed(before: Tagged, now: Tagged, tag: string)
    requires var known := [Service("a", [tag], "old", 80)];
             before.ids == Ids(known) && before.origins == known
    requires Refreshed(before, now, tag, [Service("a", [tag], "new", 80), Service("b", [tag], "host", 80)])
    ensures var answer := [Service("a", [tag], "new", 80), Service("b", [tag], "host", 80)];
            && !SameIds(answer, [Service("a", [tag], "old", 80)])
            && |now.clients| == 2 && now.clients[0].address == "old"
            && !PointsAt(now.clients[0], answer[0]) && PointsAt(now.clients[1], answer[1])
  {
    var known, answer := [Service("a", [tag], "old", 80)], [Service("a", [tag], "new", 80), Service("b", [tag], "host", 80)];
    FilterAll(tag, answer);
    RefreshedClient(before, now, tag, answer, 0);
    RefreshedClient(before, now, tag, answer, 1);
    assert before.ids == ["a"];
    assert answer[1].id !in before.ids;
    assert Ids(answer)[1] == "b" && "b" !in Ids(known);
  }

  lemma OneService(services: seq<Service>, s: Service)
    requires multiset(services) == multiset([s])
    ensures services == [s]
  {
    assert |services| == |multiset(services)| == 1;
    assert services[0] in multiset(services);
  }

  /**
   * Service "a" moves while nobody has asked for its tag yet. The answer with the new address is ignored, for
   * its Ids are known; the client that is opened afterwards still goes to the old host, although every answer
   * since the entry was built, and the last one before, have the new one.
   */
  method IgnoredMove(hash: Hash, tag: string) returns (found: bool, address: string)
    ensures found ==> address == "old"
  {
    var dialer := new Dialer();
    var selector := new Selector(hash, dialer);
    FirstAnswer(selector, Service("a", [tag], "old", 80));
    NextAnswer(selector, Service("a", [tag], "old", 80), Service("a", [tag], "new", 80));
    found, address := AskedLate(selector, Service("a", [tag], "old", 80), tag);
  }

  method FirstAnswer(selector: Selector, s: Service)
    requires selector.Valid() && selector.tagged == map[] && selector.discovered == [] && NoRepeats(s.tags)
    modifies selector`tagged, selector`discovered, selector.dialer
    ensures selector.Valid() && selector.tagged == map[] && selector.discovered == [s]
  {
    assert Ids([s])[0] in Ids([s]) && Ids([]) == [];
    var ok, lagging := selector.Pull(Services([s]));
    OneService(selector.discovered, s);
  }

  method NextAnswer(selector: Selector, s: Service, now: Service)
    requires selector.Valid() && selector.tagged == map[] && selector.discovered == [s] && s.id == now.id && NoRepeats(now.tags)
    modifies selector`tagged, selector`discovered, selector.dialer
    ensures selector.Valid() && selector.tagged == map[] && selector.discovered == [s]
  {
    assert Ids([now]) == [s.id] == Ids([s]);
    var ok, lagging := selector.Pull(Services([now]));
  }

  method AskedLate(selector: Selector, s: Service, tag: string) returns (found: bool, address: string)
    requires selector.Valid() && selector.tagged == map[] && selector.discovered == [s] && s.tags == [tag]
    modifies selector`tagged, selector.dialer
    ensures found ==> address == s.address
  {
    FilterAll(tag, [s]);
    var entry := selector.Fill(tag, false);
    if entry == null { return false, ""; }
    found, address := true, entry.clients[0].address;
  }
}
