/** Who holds which client: the bookkeeping behind the selector's rebuilds, on plain values. */
module Holdings {
  import opened Sequences

  /** Every client held for some tag. */
  function AllHeld<C>(held: map<string, seq<C>>): set<C>
  {
    set t, i | t in held && 0 <= i < |held[t]| :: held[t][i]
  }

  /** No client is held twice, neither for two tags nor at two positions. */
  ghost predicate Disjoint<C>(held: map<string, seq<C>>)
  {
    forall t, i, u, j | t in held && u in held && 0 <= i < |held[t]| && 0 <= j < |held[u]| && held[t][i] == held[u][j] ::
      t == u && i == j
  }

  /** The live clients are exactly the disjoint union of what the tags hold. */
  ghost predicate Conserved<C>(held: map<string, seq<C>>, live: set<C>)
  {
    Disjoint(held) && live == AllHeld(held)
  }

  /** The first position of an Id, as the selector's inner loop finds it. */
  function FirstIndex(ids: seq<string>, id: string): (i: nat)
    requires id in ids
    ensures i < |ids| && ids[i] == id
    ensures forall j | 0 <= j < i :: ids[j] != id
  {
    if ids[0] == id then 0 else FirstIndex(ids[1..], id) + 1
  }

  /** Surviving Ids keep the old client; the others get clients that were not live and differ. */
  ghost predicate Rebuilt<C>(oldIds: seq<string>, oldClients: seq<C>, ids: seq<string>, clients: seq<C>, live: set<C>)
  {
    && |oldIds| == |oldClients| && |ids| == |clients|
    && (forall i | 0 <= i < |ids| && ids[i] in oldIds :: clients[i] == oldClients[FirstIndex(oldIds, ids[i])])
    && (forall i | 0 <= i < |ids| && ids[i] !in oldIds :: clients[i] !in live)
    && (forall i, j | 0 <= i < j < |ids| && ids[i] !in oldIds && ids[j] !in oldIds :: clients[i] != clients[j])
  }

  function Created<C>(oldIds: seq<string>, ids: seq<string>, clients: seq<C>): set<C>
    requires |ids| == |clients|
  {
    set i | 0 <= i < |ids| && ids[i] !in oldIds :: clients[i]
  }

  function Dropped<C>(oldIds: seq<string>, oldClients: seq<C>, ids: seq<string>): set<C>
    requires |oldIds| == |oldClients|
  {
    set i | 0 <= i < |oldIds| && oldIds[i] !in ids :: oldClients[i]
  }

  /** One more position: a survivor takes over its client, any other Id gets a client not seen before. */
  lemma RebuiltSnoc<C>(oldIds: seq<string>, oldClients: seq<C>, ids: seq<string>, clients: seq<C>, live: set<C>, id: string, c: C)
    requires Rebuilt(oldIds, oldClients, ids, clients, live)
    requires if id in oldIds then c == oldClients[FirstIndex(oldIds, id)] else c !in live && c !in Created(oldIds, ids, clients)
    ensures Rebuilt(oldIds, oldClients, ids + [id], clients + [c], live)
    ensures Created(oldIds, ids + [id], clients + [c]) == Created(oldIds, ids, clients) + if id in oldIds then {} else {c}
  {
    var ids', clients' := ids + [id], clients + [c];
    forall i, j | 0 <= i < j < |ids'| && ids'[i] !in oldIds && ids'[j] !in oldIds ensures clients'[i] != clients'[j] {
      if j == |ids| { assert clients[i] in Created(oldIds, ids, clients); }
    }
    assert id !in oldIds ==> clients'[|ids|] in Created(oldIds, ids', clients');
    forall d | d in Created(oldIds, ids, clients) ensures d in Created(oldIds, ids', clients') {
      var i :| 0 <= i < |ids| && ids[i] !in oldIds && clients[i] == d;
      assert ids'[i] !in oldIds && clients'[i] == d;
    }
  }

  /** The Id is at one position at most. */
  ghost predicate Once(ids: seq<string>, id: string)
  {
    forall i, j | 0 <= i < |ids| && 0 <= j < |ids| && ids[i] == id && ids[j] == id :: i == j
  }

  /** The Ids that stay occur once before and once after. */
  ghost predicate CommonOnce(oldIds: seq<string>, ids: seq<string>)
  {
    forall id | id in oldIds && id in ids :: Once(oldIds, id) && Once(ids, id)
  }

  lemma HeldMember<C>(held: map<string, seq<C>>, t: string, i: nat)
    requires t in held && i < |held[t]|
    ensures held[t][i] in AllHeld(held)
  {
  }

  /** A rebuild leaves no two positions with the same client. */
  lemma RebuiltDisjoint<C>(held: map<string, seq<C>>, live: set<C>, tag: string,
                           oldIds: seq<string>, oldClients: seq<C>, ids: seq<string>, clients: seq<C>)
    requires Conserved(held, live) && oldClients == (if tag in held then held[tag] else [])
    requires CommonOnce(oldIds, ids) && Rebuilt(oldIds, oldClients, ids, clients, live)
    ensures Disjoint(held[tag := clients])
  {
    var held' := held[tag := clients];
    forall t, i, u, j | t in held' && u in held' && 0 <= i < |held'[t]| && 0 <= j < |held'[u]| && held'[t][i] == held'[u][j]
      ensures t == u && i == j
    {
      if t == tag && u == tag {
        SameClientSamePosition(held, live, tag, oldIds, oldClients, ids, clients, i, j);
      } else if t == tag {
        ForeignClient(held, live, tag, oldIds, oldClients, ids, clients, i, u, j);
      } else if u == tag {
        ForeignClient(held, live, tag, oldIds, oldClients, ids, clients, j, t, i);
      }
    }
  }

  lemma SameClientSamePosition<C>(held: map<string, seq<C>>, live: set<C>, tag: string,
                                  oldIds: seq<string>, oldClients: seq<C>, ids: seq<string>, clients: seq<C>, i: nat, j: nat)
    requires Conserved(held, live) && oldClients == (if tag in held then held[tag] else [])
    requires CommonOnce(oldIds, ids) && Rebuilt(oldIds, oldClients, ids, clients, live)
    requires i < |ids| && j < |ids| && clients[i] == clients[j]
    ensures i == j
  {
    if ids[i] in oldIds { HeldMember(held, tag, FirstIndex(oldIds, ids[i])); }
    if ids[j] in oldIds { HeldMember(held, tag, FirstIndex(oldIds, ids[j])); }
    if ids[i] in oldIds && ids[j] in oldIds {
      assert FirstIndex(oldIds, ids[i]) == FirstIndex(oldIds, ids[j]);
      assert ids[i] == ids[j];
    }
  }

  lemma ForeignClient<C>(held: map<string, seq<C>>, live: set<C>, tag: string,
                         oldIds: seq<string>, oldClients: seq<C>, ids: seq<string>, clients: seq<C>, i: nat, u: string, j: nat)
    requires Conserved(held, live) && oldClients == (if tag in held then held[tag] else [])
    requires Rebuilt(oldIds, oldClients, ids, clients, live)
    requires i < |ids| && u in held && u != tag && j < |held[u]|
    ensures clients[i] != held[u][j]
  {
    HeldMember(held, u, j);
    if ids[i] in oldIds {
      var k := FirstIndex(oldIds, ids[i]);
      assert clients[i] == held[tag][k];
    }
  }

  lemma StillHeld<C>(held: map<string, seq<C>>, live: set<C>, tag: string,
                     oldIds: seq<string>, oldClients: seq<C>, ids: seq<string>, clients: seq<C>, c: C)
    requires Conserved(held, live) && oldClients == (if tag in held then held[tag] else [])
    requires CommonOnce(oldIds, ids) && Rebuilt(oldIds, oldClients, ids, clients, live)
    requires c in live + Created(oldIds, ids, clients) - Dropped(oldIds, oldClients, ids)
    ensures c in AllHeld(held[tag := clients])
  {
    var held' := held[tag := clients];
    if c in live {
      var t, i :| t in held && 0 <= i < |held[t]| && held[t][i] == c;
      if t == tag {
        assert oldIds[i] in ids;
        var j :| 0 <= j < |ids| && ids[j] == oldIds[i];
        assert FirstIndex(oldIds, ids[j]) == i;
        HeldMember(held', tag, j);
      } else {
        HeldMember(held', t, i);
      }
    } else {
      var i :| 0 <= i < |ids| && ids[i] !in oldIds && clients[i] == c;
      HeldMember(held', tag, i);
    }
  }

  lemma NowLive<C>(held: map<string, seq<C>>, live: set<C>, tag: string,
                   oldIds: seq<string>, oldClients: seq<C>, ids: seq<string>, clients: seq<C>, t: string, i: nat)
    requires Conserved(held, live) && oldClients == (if tag in held then held[tag] else [])
    requires CommonOnce(oldIds, ids) && Rebuilt(oldIds, oldClients, ids, clients, live)
    requires t in held[tag := clients] && i < |held[tag := clients][t]|
    ensures held[tag := clients][t][i] in live + Created(oldIds, ids, clients) - Dropped(oldIds, oldClients, ids)
  {
    var c := held[tag := clients][t][i];
    forall d | 0 <= d < |oldIds| && oldIds[d] !in ids ensures oldClients[d] != c {
      HeldMember(held, tag, d);
      if t == tag && ids[i] in oldIds {
        var k := FirstIndex(oldIds, ids[i]);
        assert k != d && held[tag][k] == c;
      }
    }
    if t != tag {
      HeldMember(held, t, i);
    } else if ids[i] in oldIds {
      HeldMember(held, tag, FirstIndex(oldIds, ids[i]));
    }
  }

  lemma CommonOnceConserves<C>(held: map<string, seq<C>>, live: set<C>, tag: string,
                               oldIds: seq<string>, oldClients: seq<C>, ids: seq<string>, clients: seq<C>)
    requires Conserved(held, live) && oldClients == (if tag in held then held[tag] else [])
    requires CommonOnce(oldIds, ids) && Rebuilt(oldIds, oldClients, ids, clients, live)
    ensures Conserved(held[tag := clients], live + Created(oldIds, ids, clients) - Dropped(oldIds, oldClients, ids))
  {
    var held' := held[tag := clients];
    var live' := live + Created(oldIds, ids, clients) - Dropped(oldIds, oldClients, ids);
    RebuiltDisjoint(held, live, tag, oldIds, oldClients, ids, clients);
    forall c | c in live' ensures c in AllHeld(held') {
      StillHeld(held, live, tag, oldIds, oldClients, ids, clients, c);
    }
    forall c | c in AllHeld(held') ensures c in live' {
      var t, i :| t in held' && 0 <= i < |held'[t]| && held'[t][i] == c;
      NowLive(held, live, tag, oldIds, oldClients, ids, clients, t, i);
    }
  }

  /** An Id that stays and is repeated among the new ones puts one client at two positions. */
  lemma RepeatedNewId<C>(held: map<string, seq<C>>, live: set<C>, tag: string,
                         oldIds: seq<string>, oldClients: seq<C>, ids: seq<string>, clients: seq<C>, i: nat, j: nat)
    requires Rebuilt(oldIds, oldClients, ids, clients, live)
    requires i < j < |ids| && ids[i] == ids[j] && ids[i] in oldIds
    ensures !Disjoint(held[tag := clients])
  {
    var held' := held[tag := clients];
    assert held'[tag][i] == held'[tag][j];
  }

  /** An Id that stays and was repeated among the old ones leaves a client live that nobody holds. */
  lemma RepeatedOldId<C>(held: map<string, seq<C>>, live: set<C>, tag: string,
                         oldIds: seq<string>, oldClients: seq<C>, ids: seq<string>, clients: seq<C>, d: nat)
    requires Conserved(held, live) && oldClients == (if tag in held then held[tag] else [])
    requires Rebuilt(oldIds, oldClients, ids, clients, live)
    requires d < |oldIds| && oldIds[d] in ids && FirstIndex(oldIds, oldIds[d]) != d
    ensures oldClients[d] in live + Created(oldIds, ids, clients) - Dropped(oldIds, oldClients, ids)
    ensures oldClients[d] !in AllHeld(held[tag := clients])
  {
    var c, held' := oldClients[d], held[tag := clients];
    HeldMember(held, tag, d);
    forall t, i | t in held' && 0 <= i < |held'[t]| ensures held'[t][i] != c {
      if t == tag && ids[i] in oldIds {
        assert held[tag][FirstIndex(oldIds, ids[i])] == clients[i];
      }
    }
  }

  lemma ConservedCommonOnce<C>(held: map<string, seq<C>>, live: set<C>, tag: string,
                               oldIds: seq<string>, oldClients: seq<C>, ids: seq<string>, clients: seq<C>)
    requires Conserved(held, live) && oldClients == (if tag in held then held[tag] else [])
    requires Rebuilt(oldIds, oldClients, ids, clients, live)
    requires Conserved(held[tag := clients], live + Created(oldIds, ids, clients) - Dropped(oldIds, oldClients, ids))
    ensures CommonOnce(oldIds, ids)
  {
    forall id | id in oldIds && id in ids ensures Once(oldIds, id) && Once(ids, id) {
      forall i, j | 0 <= i < |ids| && 0 <= j < |ids| && ids[i] == id && ids[j] == id ensures i == j {
        if i < j { RepeatedNewId(held, live, tag, oldIds, oldClients, ids, clients, i, j); }
        if j < i { RepeatedNewId(held, live, tag, oldIds, oldClients, ids, clients, j, i); }
      }
      forall d | 0 <= d < |oldIds| && oldIds[d] == id ensures d == FirstIndex(oldIds, id) {
        if d != FirstIndex(oldIds, id) { RepeatedOldId(held, live, tag, oldIds, oldClients, ids, clients, d); }
      }
    }
  }

  /**
   * Conservation, exactly: opening what is created and stopping what is dropped keeps the live clients equal
   * to the disjoint union of the holdings if and only if every Id that stays occurred once before and occurs
   * once now. Only live clients are stopped in any case.
   */
  lemma RebuildConservesExactly<C>(held: map<string, seq<C>>, live: set<C>, tag: string,
                                   oldIds: seq<string>, oldClients: seq<C>, ids: seq<string>, clients: seq<C>)
    requires Conserved(held, live) && oldClients == (if tag in held then held[tag] else [])
    requires Rebuilt(oldIds, oldClients, ids, clients, live)
    ensures Conserved(held[tag := clients], live + Created(oldIds, ids, clients) - Dropped(oldIds, oldClients, ids))
            <==> CommonOnce(oldIds, ids)
    ensures Dropped(oldIds, oldClients, ids) <= live
  {
    if CommonOnce(oldIds, ids) { CommonOnceConserves(held, live, tag, oldIds, oldClients, ids, clients); }
    if Conserved(held[tag := clients], live + Created(oldIds, ids, clients) - Dropped(oldIds, oldClients, ids)) {
      ConservedCommonOnce(held, live, tag, oldIds, oldClients, ids, clients);
    }
    forall c | c in Dropped(oldIds, oldClients, ids) ensures c in live {
      var i :| 0 <= i < |oldIds| && oldIds[i] !in ids && oldClients[i] == c;
      HeldMember(held, tag, i);
    }
  }

  /** With distinct Ids every rebuild conserves. */
  lemma RebuildConserves<C>(held: map<string, seq<C>>, live: set<C>, tag: string,
                            oldIds: seq<string>, oldClients: seq<C>, ids: seq<string>, clients: seq<C>)
    requires Conserved(held, live) && oldClients == (if tag in held then held[tag] else [])
    requires NoRepeats(oldIds) && NoRepeats(ids) && Rebuilt(oldIds, oldClients, ids, clients, live)
    ensures Conserved(held[tag := clients], live + Created(oldIds, ids, clients) - Dropped(oldIds, oldClients, ids))
    ensures Dropped(oldIds, oldClients, ids) <= live
  {
    RebuildConservesExactly(held, live, tag, oldIds, oldClients, ids, clients);
  }

  /**
   * An instance of an Id repeated among the old ones: the first build opens a client per position, and the next
   * rebuild puts the first of them at both positions, so that the other is live and held by no tag.
   */
  lemma RepeatedIdLeaks<C>(id: string, other: string, tag: string, c0: C, c1: C, c2: C)
    requires id != other && c0 != c1 && c0 != c2 && c1 != c2
    ensures Rebuilt([], [], [id, id], [c0, c1], {}) && Created([], [id, id], [c0, c1]) == {c0, c1}
    ensures Rebuilt([id, id], [c0, c1], [id, id, other], [c0, c0, c2], {c0, c1})
    ensures var live := {c0, c1} + Created([id, id], [id, id, other], [c0, c0, c2]) - Dropped([id, id], [c0, c1], [id, id, other]);
            c1 in live && c1 !in AllHeld(map[tag := [c0, c0, c2]]) && !Disjoint(map[tag := [c0, c0, c2]])
  {
    var created := Created([], [id, id], [c0, c1]);
    assert [id, id][0] !in [] && [c0, c1][0] in created && [c0, c1][1] in created;
    var held := map[tag := [c0, c0, c2]];
    assert held[tag][0] == held[tag][1];
    assert FirstIndex([id, id], id) == 0;
    forall c | c in AllHeld(held) ensures c != c1 {
      var t, i :| t in held && 0 <= i < |held[t]| && held[t][i] == c;
    }
  }

  // ----- rebuilding from an entry that is no longer the stored one -----

  function Members<C>(s: seq<C>): set<C>
  {
    set i | 0 <= i < |s| :: s[i]
  }

  /** A rebuild may only have started from clients of this tag, and what it opens is new. */
  ghost predicate OwnEntry<C>(held: map<string, seq<C>>, tag: string, oldIds: seq<string>, oldClients: seq<C>,
                              ids: seq<string>, clients: seq<C>)
    requires |ids| == |clients|
  {
    && NoRepeats(oldClients)
    && (forall t, i, j | t in held && t != tag && 0 <= i < |held[t]| && 0 <= j < |oldClients| :: held[t][i] != oldClients[j])
    && Created(oldIds, ids, clients) !! Members(oldClients)
  }

  /**
   * Rebuilding a tag from an earlier entry of that tag keeps the clients conserved, and stops only live
   * ones, exactly when that entry holds the same clients as the stored one. This is why a rebuild must be
   * given the entry that is stored.
   */
  lemma StaleRebuild<C>(held: map<string, seq<C>>, live: set<C>, tag: string,
                        oldIds: seq<string>, oldClients: seq<C>, ids: seq<string>, clients: seq<C>)
    requires Conserved(held, live) && tag in held
    requires NoRepeats(oldIds) && NoRepeats(ids) && Rebuilt(oldIds, oldClients, ids, clients, live)
    requires OwnEntry(held, tag, oldIds, oldClients, ids, clients)
    ensures
      var live' := live + Created(oldIds, ids, clients) - Dropped(oldIds, oldClients, ids);
      Conserved(held[tag := clients], live') && Dropped(oldIds, oldClients, ids) <= live
      <==> Members(oldClients) == Members(held[tag])
  {
    var live' := live + Created(oldIds, ids, clients) - Dropped(oldIds, oldClients, ids);
    if Members(oldClients) == Members(held[tag]) {
      var same := held[tag := oldClients];
      SwappedConserved(held, live, tag, oldClients);
      RebuildConserves(same, live, tag, oldIds, oldClients, ids, clients);
      assert same[tag := clients] == held[tag := clients];
    }
    if Conserved(held[tag := clients], live') && Dropped(oldIds, oldClients, ids) <= live {
      forall c | c in Members(oldClients) ensures c in Members(held[tag]) {
        StaleMemberHeld(held, live, tag, oldIds, oldClients, ids, clients, c);
      }
      forall c | c in Members(held[tag]) ensures c in Members(oldClients) {
        HeldMemberStale(held, live, tag, oldIds, oldClients, ids, clients, c);
      }
    }
  }

  lemma SwappedConserved<C>(held: map<string, seq<C>>, live: set<C>, tag: string, clients: seq<C>)
    requires Conserved(held, live) && tag in held && NoRepeats(clients)
    requires forall t, i, j | t in held && t != tag && 0 <= i < |held[t]| && 0 <= j < |clients| :: held[t][i] != clients[j]
    requires Members(clients) == Members(held[tag])
    ensures Conserved(held[tag := clients], live)
  {
    var held' := held[tag := clients];
    forall c ensures c in AllHeld(held') <==> c in AllHeld(held) {
      if c in AllHeld(held') {
        var t, i :| t in held' && 0 <= i < |held'[t]| && held'[t][i] == c;
        if t == tag {
          assert c in Members(held[tag]);
        } else {
          HeldMember(held, t, i);
        }
      }
      if c in AllHeld(held) {
        var t, i :| t in held && 0 <= i < |held[t]| && held[t][i] == c;
        if t == tag {
          assert c in Members(clients);
          var j :| 0 <= j < |clients| && clients[j] == c;
          HeldMember(held', tag, j);
        } else {
          HeldMember(held', t, i);
        }
      }
    }
  }

  lemma StaleMemberHeld<C>(held: map<string, seq<C>>, live: set<C>, tag: string,
                           oldIds: seq<string>, oldClients: seq<C>, ids: seq<string>, clients: seq<C>, c: C)
    requires Conserved(held, live) && tag in held
    requires NoRepeats(oldIds) && Rebuilt(oldIds, oldClients, ids, clients, live)
    requires OwnEntry(held, tag, oldIds, oldClients, ids, clients)
    requires Conserved(held[tag := clients], live + Created(oldIds, ids, clients) - Dropped(oldIds, oldClients, ids))
    requires Dropped(oldIds, oldClients, ids) <= live
    requires c in Members(oldClients)
    ensures c in Members(held[tag])
  {
    var k :| 0 <= k < |oldClients| && oldClients[k] == c;
    assert c in live by {
      if oldIds[k] in ids {
        var j :| 0 <= j < |ids| && ids[j] == oldIds[k];
        assert FirstIndex(oldIds, ids[j]) == k;
        HeldMember(held[tag := clients], tag, j);
      }
    }
    var t, i :| t in held && 0 <= i < |held[t]| && held[t][i] == c;
    assert t == tag;
  }

  lemma HeldMemberStale<C>(held: map<string, seq<C>>, live: set<C>, tag: string,
                           oldIds: seq<string>, oldClients: seq<C>, ids: seq<string>, clients: seq<C>, c: C)
    requires Conserved(held, live) && tag in held
    requires Rebuilt(oldIds, oldClients, ids, clients, live)
    requires Conserved(held[tag := clients], live + Created(oldIds, ids, clients) - Dropped(oldIds, oldClients, ids))
    requires c in Members(held[tag])
    ensures c in Members(oldClients)
  {
    var k :| 0 <= k < |held[tag]| && held[tag][k] == c;
    HeldMember(held, tag, k);
    if c !in Dropped(oldIds, oldClients, ids) {
      var held' := held[tag := clients];
      assert c in AllHeld(held');
      var t, i :| t in held' && 0 <= i < |held'[t]| && held'[t][i] == c;
      assert t == tag;
      assert ids[i] in oldIds;
    }
  }
}
