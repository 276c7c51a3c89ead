/** What the registry answers and how the selector filters and sorts it, on plain values. */
module Discovery {
  import opened ConsistentHash
  import opened Registry
  import opened Sequences
  import GoStrings
  import RingLaws
  import SortSearch

  // ----- the plain view: filter by tag -----

  function TagMatches(tag: string, service: Service, tags: seq<string>): seq<Service>
  {
    if tags == [] then []
    else TagMatches(tag, service, tags[..|tags| - 1]) + if tags[|tags| - 1] == tag then [service] else []
  }

  /** What `getServices` collects: a service once for each occurrence of the tag. */
  function Filter(tag: string, services: seq<Service>): seq<Service>
  {
    if services == [] then []
    else
      var last := services[|services| - 1];
      Filter(tag, services[..|services| - 1]) + TagMatches(tag, last, last.tags)
  }

  /** The registry's answers that the selector is built for: distinct Ids, no tag twice on a service. */
  ghost predicate WellFormed(services: seq<Service>)
  {
    NoRepeats(Ids(services)) && forall s | s in services :: NoRepeats(s.tags)
  }

  ghost predicate SortedById(services: seq<Service>)
  {
    RingLaws.StrictlySorted(Ids(services))
  }

  lemma {:induction false} TagMatchesOnce(tag: string, service: Service, tags: seq<string>)
    requires NoRepeats(tags)
    ensures TagMatches(tag, service, tags) == if tag in tags then [service] else []
  {
    if tags != [] {
      var n := |tags| - 1;
      TagMatchesOnce(tag, service, tags[..n]);
      assert tag in tags <==> tag in tags[..n] || tag == tags[n];
    }
  }

  lemma FilterSnoc(tag: string, init: seq<Service>, last: Service)
    requires NoRepeats(last.tags)
    ensures Filter(tag, init + [last]) == Filter(tag, init) + if tag in last.tags then [last] else []
  {
    assert (init + [last])[..|init|] == init;
    TagMatchesOnce(tag, last, last.tags);
  }

  /** The collected services are the plain filter. */
  lemma {:induction false} FilterMembers(tag: string, services: seq<Service>)
    requires forall s | s in services :: NoRepeats(s.tags)
    ensures forall s :: s in Filter(tag, services) <==> s in services && tag in s.tags
  {
    if services != [] {
      var init, last := services[..|services| - 1], services[|services| - 1];
      assert services == init + [last];
      FilterMembers(tag, init);
      FilterSnoc(tag, init, last);
    }
  }

  /** The collected services are in Id order. */
  lemma {:induction false} FilterSorted(tag: string, services: seq<Service>)
    requires SortedById(services) && forall s | s in services :: NoRepeats(s.tags)
    ensures SortedById(Filter(tag, services))
  {
    if services != [] {
      var init, last := services[..|services| - 1], services[|services| - 1];
      assert services == init + [last];
      assert Ids(init) == Ids(services)[..|init|];
      FilterSorted(tag, init);
      FilterMembers(tag, init);
      FilterSnoc(tag, init, last);
      forall s | s in Filter(tag, init) ensures GoStrings.Less(s.id, last.id) {
        var j :| 0 <= j < |init| && init[j] == s;
        assert GoStrings.Less(Ids(services)[j], Ids(services)[|init|]);
      }
      SortedSnoc(Filter(tag, init), last);
    }
  }

  lemma SortedSnoc(init: seq<Service>, last: Service)
    requires SortedById(init) && forall s | s in init :: GoStrings.Less(s.id, last.id)
    ensures SortedById(init + [last])
  {
    var all := Ids(init + [last]);
    forall i, j | 0 <= i < j < |all| ensures GoStrings.Less(all[i], all[j]) {
      assert all[i] == Ids(init)[i];
      assert init[i] in init;
      assert j < |init| ==> all[j] == Ids(init)[j];
    }
  }

  lemma SortedNoRepeats(ids: seq<string>)
    requires RingLaws.StrictlySorted(ids)
    ensures NoRepeats(ids)
  {
    forall i, j | 0 <= i < j < |ids| ensures ids[i] != ids[j] {
      if ids[i] == ids[j] { GoStrings.LessIrreflexive(ids[i]); }
    }
  }

  predicate IdBelow(a: Service, b: Service) { GoStrings.Less(a.id, b.id) }

  lemma IdBelowIsStrictWeak()
    ensures SortSearch.StrictWeak(IdBelow)
  {
    forall x: Service ensures !IdBelow(x, x) { GoStrings.LessIrreflexive(x.id); }
    forall x: Service, y: Service | IdBelow(x, y) ensures !IdBelow(y, x) { GoStrings.LessAsymmetric(x.id, y.id); }
    forall x: Service, y: Service, z: Service | !IdBelow(y, x) && !IdBelow(z, y) ensures !IdBelow(z, x) {
      if IdBelow(z, x) {
        GoStrings.LessTotal(x.id, y.id);
        GoStrings.LessTotal(y.id, z.id);
        if x.id != y.id { GoStrings.LessTransitive(z.id, x.id, y.id); }
      }
    }
  }

  lemma IdAt(services: seq<Service>, i: nat)
    requires i < |services|
    ensures Ids(services)[i] == services[i].id
  {
  }

  /** Sorting a well-formed answer orders it strictly by Id and keeps it well formed. */
  lemma SortingWellFormed(answer: seq<Service>, sorted: seq<Service>)
    requires WellFormed(answer) && SortSearch.Sorted(sorted, IdBelow) && multiset(sorted) == multiset(answer)
    ensures SortedById(sorted) && forall s | s in sorted :: NoRepeats(s.tags)
  {
    SameElements(sorted, answer);
    forall i, j | 0 <= i < j < |sorted| ensures GoStrings.Less(Ids(sorted)[i], Ids(sorted)[j]) {
      assert !IdBelow(sorted[j], sorted[i]);
      GoStrings.LessTotal(sorted[i].id, sorted[j].id);
      if sorted[i].id == sorted[j].id {
        OneServicePerId(answer, sorted[i], sorted[j]);
        TwicePresent(sorted, i, j);
        OnceIn(answer, sorted[i]);
        assert false;
      }
    }
  }

  lemma OneServicePerId(answer: seq<Service>, a: Service, b: Service)
    requires NoRepeats(Ids(answer)) && a in answer && b in answer && a.id == b.id
    ensures a == b
  {
    var i :| 0 <= i < |answer| && answer[i] == a;
    var j :| 0 <= j < |answer| && answer[j] == b;
    assert Ids(answer)[i] == Ids(answer)[j];
  }

  lemma TwicePresent<T>(s: seq<T>, i: nat, j: nat)
    requires i < j < |s| && s[i] == s[j]
    ensures multiset(s)[s[i]] >= 2
  {
    assert s == s[..j] + s[j..];
    assert s[i] in s[..j] && s[j] in s[j..];
    assert multiset(s) == multiset(s[..j]) + multiset(s[j..]);
  }

  lemma {:induction false} OnceIn(answer: seq<Service>, a: Service)
    requires NoRepeats(Ids(answer))
    ensures multiset(answer)[a] <= 1
  {
    if answer != [] {
      var n := |answer| - 1;
      assert answer == answer[..n] + [answer[n]];
      assert Ids(answer[..n]) == Ids(answer)[..n];
      OnceIn(answer[..n], a);
      if a == answer[n] {
        assert a !in answer[..n] by {
          forall i | 0 <= i < n ensures answer[..n][i] != a { assert Ids(answer)[i] != Ids(answer)[n]; }
        }
      }
    }
  }

  /** `sameServices`: only the Ids are compared. */
  predicate SameServices(a: seq<Service>, b: seq<Service>)
  {
    |a| == |b| && forall i | 0 <= i < |a| :: a[i].id == b[i].id
  }

  lemma SameServicesIds(a: seq<Service>, b: seq<Service>)
    ensures SameServices(a, b) <==> Ids(a) == Ids(b)
  {
    if Ids(a) == Ids(b) {
      forall i | 0 <= i < |a| ensures a[i].id == b[i].id { IdAt(a, i); IdAt(b, i); }
    }
  }

  /** The registry's answer has just the Ids already known. */
  ghost predicate SameIds(a: seq<Service>, b: seq<Service>)
  {
    forall id :: id in Ids(a) <==> id in Ids(b)
  }

  /** The comparison of sorted lists recognises exactly the answers with the known set of Ids. */
  lemma SameServicesMeaning(answer: seq<Service>, sorted: seq<Service>, known: seq<Service>)
    requires multiset(sorted) == multiset(answer) && SortedById(sorted) && SortedById(known)
    ensures SameServices(known, sorted) <==> SameIds(answer, known)
  {
    IdsPermuted(sorted, answer);
    if SameServices(known, sorted) {
      assert Ids(known) == Ids(sorted);
    }
    if SameIds(answer, known) {
      RingLaws.SortedIsDetermined(Ids(known), Ids(sorted));
      forall i | 0 <= i < |known| ensures known[i].id == sorted[i].id { IdAt(known, i); IdAt(sorted, i); }
    }
  }

  lemma IdsPermuted(a: seq<Service>, b: seq<Service>)
    requires multiset(a) == multiset(b)
    ensures forall id :: id in Ids(a) <==> id in Ids(b)
  {
    SameElements(a, b);
    forall id ensures id in Ids(a) <==> id in Ids(b) {
      IdMember(a, id);
      IdMember(b, id);
    }
  }

  lemma IdMember(a: seq<Service>, id: string)
    ensures id in Ids(a) <==> exists s :: s in a && s.id == id
  {
    if id in Ids(a) {
      var i :| 0 <= i < |a| && Ids(a)[i] == id;
      assert a[i] in a;
    }
    if s :| s in a && s.id == id {
      var i :| 0 <= i < |a| && a[i] == s;
      assert Ids(a)[i] == id;
    }
  }

  ghost predicate SameIndex(known: seq<Service>, answer: seq<Service>)
  {
    forall tag :: Ids(Filter(tag, known)) == Ids(Filter(tag, answer))
  }

  ghost predicate SameTags(known: seq<Service>, answer: seq<Service>)
    requires |known| == |answer|
  {
    forall i, tag | 0 <= i < |known| :: tag in known[i].tags <==> tag in answer[i].tags
  }

  /** What has the tag has the same Ids and addresses in both. */
  ghost predicate SameView(known: seq<Service>, answer: seq<Service>)
  {
    && SameIndex(known, answer)
    && forall tag, a, b | a in Filter(tag, known) && b in Filter(tag, answer) && a.id == b.id :: SameAddress(a, b)
  }

  /** No service that anybody can ask for has moved. */
  ghost predicate SameAddresses(known: seq<Service>, answer: seq<Service>)
    requires |known| == |answer|
  {
    forall i | 0 <= i < |known| && known[i].tags != [] :: SameAddress(known[i], answer[i])
  }

  /**
   * An answer with unchanged Ids is ignored. What is known then still equals the plain filter of the answer,
   * for every tag, exactly when no service changed its set of tags; and it also has the addresses of the
   * answer exactly when, besides, no service with a tag has moved.
   */
  lemma IgnoredAnswer(known: seq<Service>, answer: seq<Service>)
    requires SameServices(known, answer) && SortedById(known) && SortedById(answer)
    requires forall s | s in known :: NoRepeats(s.tags)
    requires forall s | s in answer :: NoRepeats(s.tags)
    ensures SameIndex(known, answer) <==> SameTags(known, answer)
    ensures SameView(known, answer) <==> SameTags(known, answer) && SameAddresses(known, answer)
  {
    if SameTags(known, answer) {
      forall tag ensures Ids(Filter(tag, known)) == Ids(Filter(tag, answer)) {
        SameTagsSameFilter(tag, known, answer);
      }
    }
    if SameIndex(known, answer) {
      forall i, tag | 0 <= i < |known| ensures tag in known[i].tags <==> tag in answer[i].tags {
        InFilter(tag, known, i);
        InFilter(tag, answer, i);
      }
    }
    if SameView(known, answer) { ViewHasAddresses(known, answer); }
    if SameTags(known, answer) && SameAddresses(known, answer) { AddressesMakeView(known, answer); }
  }

  /** Answers that are ignored although the service changed its tag, or its host. */
  lemma ChangesIgnored(id: string, tag: string, other: string)
    requires tag != other
    ensures var known, retagged := [Service(id, [tag], "host", 80)], [Service(id, [other], "host", 80)];
            SameServices(known, retagged) && !SameIndex(known, retagged)
    ensures var known, moved := [Service(id, [tag], "host", 80)], [Service(id, [tag], "other", 80)];
            SameServices(known, moved) && SameIndex(known, moved) && !SameView(known, moved)
  {
    var known := [Service(id, [tag], "host", 80)];
    var retagged, moved := [Service(id, [other], "host", 80)], [Service(id, [tag], "other", 80)];
    assert tag in known[0].tags && tag !in retagged[0].tags;
    IgnoredAnswer(known, retagged);
    IgnoredAnswer(known, moved);
    assert !SameAddress(known[0], moved[0]);
  }

  lemma ViewHasAddresses(known: seq<Service>, answer: seq<Service>)
    requires SameServices(known, answer) && SameView(known, answer) && SameTags(known, answer)
    requires forall s | s in known :: NoRepeats(s.tags)
    requires forall s | s in answer :: NoRepeats(s.tags)
    ensures SameAddresses(known, answer)
  {
    forall i | 0 <= i < |known| && known[i].tags != [] ensures SameAddress(known[i], answer[i]) {
      var tag := known[i].tags[0];
      FilterMembers(tag, known);
      FilterMembers(tag, answer);
      assert known[i] in known && answer[i] in answer && tag in known[i].tags;
    }
  }

  lemma AddressesMakeView(known: seq<Service>, answer: seq<Service>)
    requires SameServices(known, answer) && SortedById(known) && SortedById(answer)
    requires SameIndex(known, answer) && SameAddresses(known, answer)
    requires forall s | s in known :: NoRepeats(s.tags)
    requires forall s | s in answer :: NoRepeats(s.tags)
    ensures SameView(known, answer)
  {
    forall tag, a, b | a in Filter(tag, known) && b in Filter(tag, answer) && a.id == b.id ensures SameAddress(a, b) {
      FilterMembers(tag, known);
      FilterMembers(tag, answer);
      var i :| 0 <= i < |known| && known[i] == a;
      var j :| 0 <= j < |answer| && answer[j] == b;
      OnlyAt(answer, i);
    }
  }

  // ----- what is known after a sequence of answers -----

  /** `c.discovered` after these sorted answers: one with the known Ids is ignored (selector.go:246-252). */
  function Known(answers: seq<seq<Service>>): seq<Service>
  {
    if answers == [] then []
    else
      var known, last := Known(answers[..|answers| - 1]), answers[|answers| - 1];
      if SameServices(known, last) then known else last
  }

  /** Answer `m` was the last one that was not ignored. */
  ghost predicate LastTaken(answers: seq<seq<Service>>, m: nat)
  {
    && m < |answers|
    && Known(answers) == answers[m]
    && !SameServices(Known(answers[..m]), answers[m])
    && (forall k | m <= k < |answers| :: SameServices(answers[m], answers[k]))
  }

  /** What is known is the last answer that had other Ids than what was known before it, whatever came since. */
  lemma {:induction false} KnownIsLastTaken(answers: seq<seq<Service>>)
    ensures (exists m: nat :: LastTaken(answers, m)) || (Known(answers) == [] && forall k | 0 <= k < |answers| :: answers[k] == [])
  {
    if answers != [] {
      var n := |answers| - 1;
      var init := answers[..n];
      KnownIsLastTaken(init);
      if !SameServices(Known(init), answers[n]) {
        assert LastTaken(answers, n);
      } else if m: nat :| LastTaken(init, m) {
        assert init[..m] == answers[..m];
        assert forall k | m <= k < n :: init[k] == answers[k];
        assert LastTaken(answers, m);
      } else {
        assert forall k | 0 <= k < n :: init[k] == answers[k];
      }
    }
  }

  lemma SameTagsSameFilter(tag: string, known: seq<Service>, answer: seq<Service>)
    requires SameServices(known, answer) && SortedById(known) && SortedById(answer)
    requires forall s | s in known :: NoRepeats(s.tags)
    requires forall s | s in answer :: NoRepeats(s.tags)
    requires forall i | 0 <= i < |known| :: tag in known[i].tags <==> tag in answer[i].tags
    ensures Ids(Filter(tag, known)) == Ids(Filter(tag, answer))
  {
    FilterSorted(tag, known);
    FilterSorted(tag, answer);
    forall id ensures id in Ids(Filter(tag, known)) <==> id in Ids(Filter(tag, answer)) {
      FilteredId(tag, known, id);
      FilteredId(tag, answer, id);
    }
    RingLaws.SortedIsDetermined(Ids(Filter(tag, known)), Ids(Filter(tag, answer)));
  }

  lemma InFilter(tag: string, services: seq<Service>, i: nat)
    requires SortedById(services) && i < |services|
    requires forall s | s in services :: NoRepeats(s.tags)
    ensures services[i].id in Ids(Filter(tag, services)) <==> tag in services[i].tags
  {
    FilteredId(tag, services, services[i].id);
    OnlyAt(services, i);
  }

  lemma FilteredId(tag: string, services: seq<Service>, id: string)
    requires forall s | s in services :: NoRepeats(s.tags)
    ensures id in Ids(Filter(tag, services)) <==> exists i :: 0 <= i < |services| && services[i].id == id && tag in services[i].tags
  {
    FilterMembers(tag, services);
    IdMember(Filter(tag, services), id);
    if s :| s in Filter(tag, services) && s.id == id {
      var i :| 0 <= i < |services| && services[i] == s;
    }
  }

  lemma OnlyAt(services: seq<Service>, i: nat)
    requires SortedById(services) && i < |services|
    ensures forall j | 0 <= j < |services| && services[j].id == services[i].id :: j == i
  {
    SortedNoRepeats(Ids(services));
    forall j | 0 <= j < |services| && services[j].id == services[i].id ensures j == i {
      assert Ids(services)[j] == Ids(services)[i];
    }
  }
}
