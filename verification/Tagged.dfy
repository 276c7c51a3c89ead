/** Registry entries and the pool of clients kept for one tag (tagged.go). */
module Registry {
  datatype Service = Service(id: string, tags: seq<string>, address: string, port: int)

  function Ids(services: seq<Service>): (ids: seq<string>)
    ensures |ids| == |services|
    ensures forall i | 0 <= i < |ids| :: ids[i] == services[i].id
  {
    seq(|services|, i requires 0 <= i < |services| => services[i].id)
  }

  predicate SameAddress(a: Service, b: Service) { a.address == b.address && a.port == b.port }

  /** A Go slice: a prefix of a backing array that others may share. */
  datatype Slice = Slice(base: array<Service>, len: nat) {
    ghost predicate Valid() { len <= base.Length }

    function Elements(): seq<Service>
      requires Valid()
      reads base
    {
      base[..len]
    }
  }
}

/** Opening and closing of clients: the selector's `startClient` and `stopClient`. */
module Dialing {
  class Client {
    const address: string
    const port: int

    constructor (address: string, port: int)
      ensures this.address == address && this.port == port
    {
      this.address := address;
      this.port := port;
    }
  }

  class Dialer {
    /** Clients opened and not stopped. */
    ghost var live: set<Client>
    /** How many starts have failed. */
    ghost var refused: nat

    constructor ()
      ensures live == {} && refused == 0
    {
      live := {};
      refused := 0;
    }

    /** A failed start opens nothing; whether it fails is not determined. */
    method Start(address: string, port: int) returns (client: Client?)
      modifies this
      ensures client == null ==> live == old(live) && refused == old(refused) + 1
      ensures client != null ==> refused == old(refused)
      ensures client != null ==> fresh(client) && live == old(live) + {client}
      ensures client != null ==> client.address == address && client.port == port
    {
      client := null;
      if * {
        client := new Client(address, port);
        live := live + {client};
      } else {
        refused := refused + 1;
      }
    }

    /** Only a client that was opened and not stopped yet may be stopped. */
    method Stop(client: Client)
      requires client in live
      modifies this
      ensures live == old(live) - {client} && refused == old(refused)
    {
      live := live - {client};
    }
  }
}

module TaggedPool {
  import opened ConsistentHash
  import opened GoInts
  import opened Registry
  import opened Dialing
  import opened Sequences
  import GoStrings
  import RingLaws

  const REPLICAS: nat := 200

  /** Go's conversion of an `int` to `uint64`. */
  function ToUint64(key: int): u64 { key % TWO64 }

  /** Which is the same bits: a negative key goes to the upper half. */
  lemma UnsignedKey(key: int)
    requires -TWO63 <= key < TWO63
    ensures ToUint64(key) == if key < 0 then key + TWO64 else key
  {
  }

  /** Two's complement 64-bit addition of one, as `atomic.AddInt64` does it. */
  function Next(index: int): int
  {
    if index + 1 == TWO63 then -TWO63 else index + 1
  }

  /** Go's remainder: it takes the sign of the dividend. */
  function GoMod(a: int, n: int): int
    requires n > 0
  {
    if a >= 0 then a % n else -((-a) % n)
  }

  datatype Pick = Found(client: Client) | NotFound | IndexPanic

  /** Later services overwrite earlier ones with the same Id. */
  function IdIndex(ids: seq<string>, clients: seq<Client>): (m: map<string, Client>)
    requires |ids| == |clients|
    ensures forall k :: k in m <==> k in ids
  {
    if ids == [] then map[]
    else
      var n := |ids| - 1;
      assert ids == ids[..n] + [ids[n]];
      IdIndex(ids[..n], clients[..n])[ids[n] := clients[n]]
  }

  /** `r` is the client of the service that the ring of `ids` names for `key`. */
  ghost predicate HashedPick(h: Hash, ids: seq<string>, clients: seq<Client>, key: int, r: Pick)
    requires |ids| == |clients|
  {
    if ids == [] then r == NotFound
    else exists owner ::
      && Answers(h, REPLICAS, ids, h.ofUint64(ToUint64(key)), owner)
      && owner in ids && r == Found(IdIndex(ids, clients)[owner])
  }

  /** The client connects to where the registry says that the service is. */
  predicate PointsAt(client: Client, service: Service)
  {
    client.address == service.address && client.port == service.port
  }

  /** Each client belongs to the Id at its position and was opened for the service recorded there. */
  ghost predicate OpenedFor(ids: seq<string>, clients: seq<Client>, origins: seq<Service>)
  {
    && |ids| == |clients| == |origins|
    && forall i | 0 <= i < |ids| :: origins[i].id == ids[i] && PointsAt(clients[i], origins[i])
  }

  /** The loop of `newTagged`. */
  method ListIds(services: Slice, clients: seq<Client>) returns (listed: seq<string>, byId: map<string, Client>)
    requires services.Valid() && |clients| == services.len
    ensures listed == Ids(services.Elements()) && byId == IdIndex(listed, clients)
  {
    listed, byId := [], map[];
    ghost var all := Ids(services.base[..services.len]);
    for i := 0 to services.len
      invariant listed == all[..i]
      invariant byId == IdIndex(all[..i], clients[..i])
    {
      var id := services.base[i].id;
      assert all[..i + 1][..i] == all[..i] && clients[..i + 1][..i] == clients[..i];
      listed := listed + [id];
      byId := byId[id := clients[i]];
    }
    assert all[..services.len] == all && clients[..services.len] == clients;
  }

  class Tagged {
    const tag: string
    const services: Slice
    const clients: seq<Client>
    const hash: Map?
    const idc: map<string, Client>
    var index: int
    /** The Ids of the services, fixed at construction. */
    ghost const ids: seq<string>
    /** History: the service, as it was listed then, that the client at each position was opened for. */
    ghost const origins: seq<Service>

    ghost predicate Valid()
      reads services.base, hash
    {
      && services.Valid() && Ids(services.Elements()) == ids
      && OpenedFor(ids, clients, origins)
      && (hash != null ==>
        && hash.Represents(ids)
        && hash.replicas == REPLICAS
        && idc == IdIndex(ids, clients))
    }

    constructor (h: Hash, tag: string, services: Slice, clients: seq<Client>, chash: bool, ghost origins: seq<Service>)
      requires services.Valid() && OpenedFor(Ids(services.Elements()), clients, origins)
      ensures Valid() && this.origins == origins
      ensures this.tag == tag && this.services == services && this.clients == clients && index == 0
      ensures ids == Ids(services.Elements())
      ensures chash <==> hash != null
      ensures hash != null ==> fresh(hash) && hash.hash == h
    {
      var ring: Map? := null;
      var byId: map<string, Client> := map[];
      if chash {
        var listed;
        listed, byId := ListIds(services, clients);
        ring := new Map.New(h, 200, listed);
      }
      this.tag := tag;
      this.services := services;
      this.clients := clients;
      this.hash := ring;
      this.idc := byId;
      this.index := 0;
      this.ids := Ids(services.base[..services.len]);
      this.origins := origins;
    }

    method Hashed(key: int) returns (r: Pick)
      requires Valid()
      ensures hash == null ==> r == NotFound
      ensures hash != null ==> HashedPick(hash.hash, ids, clients, key, r)
    {
      if hash == null {
        return NotFound;
      }
      if hash.IsEmpty() {
        EmptyTogether(hash.keys, Points(hash.hash, REPLICAS, ids));
        if ids != [] { RingLaws.HasPoints(hash.hash, REPLICAS, ids); }
        return NotFound;
      }
      var owner := hash.GetUint64(ids, ToUint64(key));
      assert Points(hash.hash, REPLICAS, ids) != [] by {
        if Points(hash.hash, REPLICAS, ids) == [] { EmptyTogether(Points(hash.hash, REPLICAS, ids), hash.keys); }
      }
      RingLaws.AnswerUnique(hash.hash, REPLICAS, ids, hash.hash.ofUint64(ToUint64(key)), owner, owner);
      r := Found(idc[owner]);
    }

    /** `client`: an empty pool has none; a negative index panics unless it divides evenly. */
    function At(i: int): Pick
    {
      if clients == [] then NotFound
      else
        var k := GoMod(i, |clients|);
        if k < 0 then IndexPanic else Found(clients[k])
    }

    method RoundRobin() returns (r: Pick)
      modifies this`index
      ensures index == Next(old(index)) && r == At(index)
    {
      index := Next(index);
      r := At(index);
    }
  }

  // ----- fairness of round robin -----

  /** How often, in the `m` calls after counter value `start`, the client at position `r` of `n` is picked. */
  function Picks(start: nat, m: nat, n: nat, r: nat): nat
    requires 0 < n
  {
    if m == 0 then 0
    else Picks(start, m - 1, n, r) + if GoMod(start + m, n) == r then 1 else 0
  }

  lemma {:induction false} PicksSplit(start: nat, a: nat, b: nat, n: nat, r: nat)
    requires 0 < n
    ensures Picks(start, a + b, n, r) == Picks(start, a, n, r) + Picks(start + a, b, n, r)
  {
    if b != 0 { PicksSplit(start, a, b - 1, n, r); }
  }

  lemma MulStep(a: int, b: int, n: nat)
    requires a < b
    ensures a * n + n <= b * n
  {
    assert b * n - a * n - n == (b - a - 1) * n;
  }

  lemma ModIs(x: nat, q: nat, n: nat, r: nat)
    requires r < n && x == q * n + r
    ensures x % n == r
  {
    var p := x / n;
    if q < p { MulStep(q, p, n); }
    if p < q { MulStep(p, q, n); }
  }

  lemma NextRemainder(x: nat, n: nat)
    requires 0 < n
    ensures (x + 1) % n == if x % n + 1 == n then 0 else x % n + 1
  {
    var q, r := x / n, x % n;
    if r + 1 == n {
      assert x + 1 == (q + 1) * n;
      ModIs(x + 1, q + 1, n, 0);
    } else {
      ModIs(x + 1, q, n, r + 1);
    }
  }

  /** Up to `n` calls visit the positions in cyclic order, so position `r` is picked once or not at all. */
  lemma {:induction false} PicksShort(start: nat, m: nat, n: nat, r: nat)
    requires r < n && m <= n
    ensures Picks(start, m, n, r) ==
      if (if r > start % n then r - start % n else r + n - start % n) <= m then 1 else 0
    ensures m > 0 ==> GoMod(start + m, n) == if start % n + m < n then start % n + m else start % n + m - n
  {
    if m != 0 {
      PicksShort(start, m - 1, n, r);
      NextRemainder(start + m - 1, n);
    }
  }

  lemma {:induction false} PicksRounds(start: nat, q: nat, m: nat, n: nat, r: nat)
    requires r < n && m < n
    ensures q <= Picks(start, q * n + m, n, r) <= if m == 0 then q else q + 1
    decreases q
  {
    if q == 0 {
      PicksShort(start, m, n, r);
    } else {
      var rest := (q - 1) * n + m;
      assert q * n + m == n + rest;
      PicksSplit(start, n, rest, n, r);
      PicksShort(start, n, n, r);
      PicksRounds(start + n, q - 1, m, n, r);
    }
  }

  /**
   * Fairness: while the counter does not overflow, any `m` consecutive calls on `n` clients pick each
   * client floor(m/n) or ceil(m/n) times, from every starting value of the counter.
   */
  lemma RoundRobinIsFair(start: nat, m: nat, n: nat, r: nat)
    requires r < n
    ensures m / n <= Picks(start, m, n, r) <= if m % n == 0 then m / n else m / n + 1
  {
    var q, rest := m / n, m % n;
    assert m == q * n + rest;
    PicksRounds(start, q, rest, n, r);
  }

  /** What successive calls of `RoundRobin` return, from a counter value on. */
  ghost predicate SuccessivePicks(t: Tagged, index: int, picks: seq<Pick>)
    decreases |picks|
  {
    picks != [] ==> picks[0] == t.At(Next(index)) && SuccessivePicks(t, Next(index), picks[1..])
  }

  lemma {:induction false} PicksCounted(t: Tagged, index: nat, picks: seq<Pick>, r: nat)
    requires SuccessivePicks(t, index, picks) && index + |picks| < TWO63
    requires NoRepeats(t.clients) && r < |t.clients|
    ensures multiset(picks)[Found(t.clients[r])] == Picks(index, |picks|, |t.clients|, r)
    decreases |picks|
  {
    if picks != [] {
      PicksCounted(t, index + 1, picks[1..], r);
      PicksSplit(index, 1, |picks| - 1, |t.clients|, r);
      assert picks == [picks[0]] + picks[1..];
      assert Picks(index, 1, |t.clients|, r) == Picks(index, 0, |t.clients|, r) + if GoMod(index + 1, |t.clients|) == r then 1 else 0;
    }
  }

  /**
   * Fairness of the calls: while the counter stays below 2^63, any `m` successive calls of `RoundRobin` return
   * each client of the entry floor(m/n) or ceil(m/n) times.
   */
  lemma CallsAreFair(t: Tagged, index: nat, picks: seq<Pick>, c: Client)
    requires SuccessivePicks(t, index, picks) && index + |picks| < TWO63
    requires NoRepeats(t.clients) && c in t.clients
    ensures var m, n := |picks|, |t.clients|;
            m / n <= multiset(picks)[Found(c)] <= if m % n == 0 then m / n else m / n + 1
  {
    var r :| 0 <= r < |t.clients| && t.clients[r] == c;
    PicksCounted(t, index, picks, r);
    RoundRobinIsFair(index, |picks|, |t.clients|, r);
  }

  /** The counter after `m` calls. */
  function Advance(index: int, m: nat): int
  {
    if m == 0 then index else Next(Advance(index, m - 1))
  }

  /** One more call after such calls. */
  lemma {:induction false} OneMorePick(t: Tagged, index: int, picks: seq<Pick>, pick: Pick)
    requires SuccessivePicks(t, index, picks) && pick == t.At(Advance(index, |picks| + 1))
    ensures SuccessivePicks(t, index, picks + [pick])
    decreases |picks|
  {
    if picks != [] {
      assert (picks + [pick])[1..] == picks[1..] + [pick];
      AdvanceFirst(index, |picks|);
      OneMorePick(t, Next(index), picks[1..], pick);
    } else {
      assert Advance(index, 1) == Next(Advance(index, 0));
      assert ([] + [pick])[1..] == [];
    }
  }

  lemma {:induction false} AdvanceFirst(index: int, m: nat)
    ensures Advance(index, m + 1) == Advance(Next(index), m)
  {
    if m != 0 { AdvanceFirst(index, m - 1); }
  }

  /** The counter keeps its promise below 2^63 and panics only after it has wrapped. */
  lemma RoundRobinRange(t: Tagged, index: int)
    requires -TWO63 <= index < TWO63 && t.clients != []
    ensures t.At(Next(index)) == IndexPanic <==> Next(index) < 0 && (-Next(index)) % |t.clients| != 0
    ensures 0 <= index < TWO63 - 1 ==> t.At(Next(index)) == Found(t.clients[(index + 1) % |t.clients|])
    ensures index == TWO63 - 1 ==> Next(index) == -TWO63
  {
  }

  // ----- stickiness -----

  lemma {:induction false} IdIndexAt(ids: seq<string>, clients: seq<Client>, i: nat)
    requires |ids| == |clients| && i < |ids| && RingLaws.StrictlySorted(ids)
    ensures IdIndex(ids, clients)[ids[i]] == clients[i]
  {
    var n := |ids| - 1;
    if i < n {
      IdIndexAt(ids[..n], clients[..n], i);
      if ids[i] == ids[n] { GoStrings.LessIrreflexive(ids[n]); }
    }
  }

  /** Old and new entry agree on the clients of the Ids that they share. */
  ghost predicate SameClients(ids: seq<string>, clients: seq<Client>, ids': seq<string>, clients': seq<Client>)
    requires |ids| == |clients| && |ids'| == |clients'|
  {
    forall i, j | 0 <= i < |ids| && 0 <= j < |ids'| && ids[i] == ids'[j] :: clients[i] == clients'[j]
  }

  /**
   * Stickiness: a key keeps its very client across a rebuild unless the service that answered it left
   * or the service that answers it now has just arrived.
   */
  lemma HashedIsSticky(h: Hash, ids: seq<string>, clients: seq<Client>, ids': seq<string>, clients': seq<Client>,
                       key: int, before: Pick, after: Pick, owner: string, owner': string)
    requires |ids| == |clients| && |ids'| == |clients'|
    requires RingLaws.StrictlySorted(ids) && RingLaws.StrictlySorted(ids') && ids != [] && ids' != []
    requires SameClients(ids, clients, ids', clients')
    requires HashedPick(h, ids, clients, key, before) && HashedPick(h, ids', clients', key, after)
    requires Answers(h, REPLICAS, ids, h.ofUint64(ToUint64(key)), owner)
    requires Answers(h, REPLICAS, ids', h.ofUint64(ToUint64(key)), owner')
    ensures owner in ids && owner' in ids'
    ensures owner in ids' && owner' in ids ==> owner == owner' && before == after
  {
    var x := h.ofUint64(ToUint64(key));
    var o :| Answers(h, REPLICAS, ids, x, o) && o in ids && before == Found(IdIndex(ids, clients)[o]);
    var o' :| Answers(h, REPLICAS, ids', x, o') && o' in ids' && after == Found(IdIndex(ids', clients')[o']);
    RingLaws.AnswerUnique(h, REPLICAS, ids, x, o, owner);
    RingLaws.AnswerUnique(h, REPLICAS, ids', x, o', owner');
    if owner in ids' && owner' in ids {
      RingLaws.StickyAnswer(h, REPLICAS, ids, ids', x, owner, owner');
      var i :| 0 <= i < |ids| && ids[i] == owner;
      var j :| 0 <= j < |ids'| && ids'[j] == owner;
      IdIndexAt(ids, clients, i);
      IdIndexAt(ids', clients', j);
    }
  }
}
