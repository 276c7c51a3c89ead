/** The ring of consistenthash/consistenthash.go, for an arbitrary hash function. */
module ConsistentHash {
  import opened GoInts
  import opened GoStrings
  import opened SortSearch

  /** The two entry points of package fnv1a; nothing is assumed about them. */
  datatype Hash = Hash(ofString: string -> u64, ofUint64: u64 -> u64)

  function Point(h: Hash, replica: nat, key: string): u64
  {
    h.ofString(Itoa(replica) + key)
  }

  function KeyPoints(h: Hash, replicas: nat, key: string): seq<u64>
  {
    seq(replicas, i requires 0 <= i < replicas => Point(h, i, key))
  }

  /** The points of a list of keys in the order in which they are appended. */
  function Points(h: Hash, replicas: nat, keys: seq<string>): seq<u64>
  {
    if keys == [] then []
    else Points(h, replicas, keys[..|keys| - 1]) + KeyPoints(h, replicas, keys[|keys| - 1])
  }

  ghost predicate Produces(h: Hash, replicas: nat, key: string, p: u64)
  {
    p in KeyPoints(h, replicas, key)
  }

  /** Who owns a point: the last listed key that produces it. */
  ghost function Owner(h: Hash, replicas: nat, keys: seq<string>, p: u64): string
  {
    if keys == [] then ""
    else if Produces(h, replicas, keys[|keys| - 1], p) then keys[|keys| - 1]
    else Owner(h, replicas, keys[..|keys| - 1], p)
  }

  /** The least point not below `x`, else the least point of all. */
  ghost predicate Successor(points: seq<u64>, x: u64, p: u64)
  {
    && p in points
    && (forall q | q in points && x <= q :: x <= p <= q)
    && ((forall q | q in points :: q < x) ==> forall q | q in points :: p <= q)
  }

  /** The linear specification of a lookup. */
  ghost predicate Answers(h: Hash, replicas: nat, keys: seq<string>, x: u64, answer: string)
  {
    if Points(h, replicas, keys) == [] then answer == ""
    else exists p :: Successor(Points(h, replicas, keys), x, p) && answer == Owner(h, replicas, keys, p)
  }

  /** `keys` are the points of `listed` in some order and `hashMap` gives each its owner. */
  ghost predicate Contains(h: Hash, replicas: nat, keys: seq<u64>, hashMap: map<u64, string>, listed: seq<string>)
  {
    && multiset(keys) == multiset(Points(h, replicas, listed))
    && (forall p :: p in hashMap <==> p in Points(h, replicas, listed))
    && (forall p | p in hashMap :: hashMap[p] == Owner(h, replicas, listed, p))
  }

  function Overwritten(m: map<u64, string>, points: seq<u64>, key: string): (r: map<u64, string>)
    ensures forall p :: p in r <==> p in m || p in points
    ensures forall p | p in r :: r[p] == if p in points then key else m[p]
  {
    if points == [] then m
    else
      var last := |points| - 1;
      assert points == points[..last] + [points[last]];
      Overwritten(m, points[..last], key)[points[last] := key]
  }

  lemma PointAdded(keys: seq<u64>, m: map<u64, string>, points: seq<u64>, i: nat, key: string)
    requires i < |points|
    ensures keys + points[..i + 1] == keys + points[..i] + [points[i]]
    ensures Overwritten(m, points[..i + 1], key) == Overwritten(m, points[..i], key)[points[i] := key]
  {
    assert points[..i + 1][..i] == points[..i];
  }

  lemma KeyAdded(h: Hash, replicas: nat, keys: seq<u64>, hashMap: map<u64, string>, done: seq<string>, key: string)
    requires Contains(h, replicas, keys, hashMap, done)
    ensures Contains(h, replicas, keys + KeyPoints(h, replicas, key),
                     Overwritten(hashMap, KeyPoints(h, replicas, key), key), done + [key])
  {
    PointsSnoc(h, replicas, done, key);
    var points := KeyPoints(h, replicas, key);
    var hashMap' := Overwritten(hashMap, points, key);
    assert multiset(keys + points) == multiset(keys) + multiset(points);
    forall p | p in hashMap' ensures hashMap'[p] == Owner(h, replicas, done + [key], p) {
      OwnerSnoc(h, replicas, done, key, p);
    }
  }

  lemma PointsSnoc(h: Hash, replicas: nat, done: seq<string>, key: string)
    ensures Points(h, replicas, done + [key]) == Points(h, replicas, done) + KeyPoints(h, replicas, key)
  {
    assert (done + [key])[..|done|] == done;
  }

  lemma OwnerSnoc(h: Hash, replicas: nat, done: seq<string>, key: string, p: u64)
    ensures Owner(h, replicas, done + [key], p) == if Produces(h, replicas, key, p) then key else Owner(h, replicas, done, p)
  {
    assert (done + [key])[..|done|] == done;
  }

  // ----- the imperative ring -----

  class Map {
    const hash: Hash
    const replicas: nat
    var keys: seq<u64>
    var hashMap: map<u64, string>

    /** The ring holds exactly the points of `listed`, sorted, each mapped to its owner. */
    ghost predicate Represents(listed: seq<string>)
      reads this
    {
      Sorted(keys, Below) && Holds(listed)
    }

    ghost predicate Holds(listed: seq<string>)
      reads this
    {
      Contains(hash, replicas, keys, hashMap, listed)
    }

    constructor New(hash: Hash, replicas: int, listed: seq<string>)
      ensures Represents(listed)
      ensures this.hash == hash && this.replicas == if replicas < 0 then 0 else replicas
    {
      this.hash := hash;
      this.replicas := if replicas < 0 then 0 else replicas;
      this.keys := [];
      this.hashMap := map[];
      new;
      Add([], listed);
      assert [] + listed == listed;
    }

    method Add(ghost before: seq<string>, listed: seq<string>)
      requires Represents(before)
      modifies this
      ensures Represents(before + listed)
    {
      AddKeys(before, listed);
      BelowIsStrictWeak();
      keys := SortSlice(keys, Below);
    }

    /** The outer loop of `add`. */
    method AddKeys(ghost before: seq<string>, listed: seq<string>)
      requires Holds(before)
      modifies this
      ensures Holds(before + listed)
    {
      ghost var done := before;
      for k := 0 to |listed|
        invariant done == before + listed[..k]
        invariant Holds(done)
      {
        AddKey(done, listed[k]);
        NextPrefix(before, listed, k);
        done := done + [listed[k]];
      }
      assert listed[..|listed|] == listed;
    }

    /** The inner loop of `add`: one key's replicas, each overwriting the point's previous owner. */
    method AddKey(ghost done: seq<string>, key: string)
      requires Holds(done)
      modifies this
      ensures Holds(done + [key])
    {
      ghost var added := KeyPoints(hash, replicas, key);
      for i := 0 to replicas
        invariant keys == old(keys) + added[..i]
        invariant hashMap == Overwritten(old(hashMap), added[..i], key)
      {
        var point := hash.ofString(Itoa(i) + key);
        assert added[i] == point;
        PointAdded(old(keys), old(hashMap), added, i, key);
        keys := keys + [point];
        hashMap := hashMap[point := key];
      }
      assert added[..replicas] == added;
      KeyAdded(hash, replicas, old(keys), old(hashMap), done, key);
    }

    predicate IsEmpty()
      reads this
    {
      keys == []
    }

    /** `Get`. */
    method Get(ghost listed: seq<string>, key: string) returns (answer: string)
      requires Represents(listed)
      ensures Answers(hash, replicas, listed, hash.ofString(key), answer)
    {
      if IsEmpty() {
        EmptyTogether(keys, Points(hash, replicas, listed));
        return "";
      }
      answer := Search(listed, hash.ofString(key));
    }

    /** `GetUint64`. */
    method GetUint64(ghost listed: seq<string>, key: u64) returns (answer: string)
      requires Represents(listed)
      ensures Answers(hash, replicas, listed, hash.ofUint64(key), answer)
    {
      if IsEmpty() {
        EmptyTogether(keys, Points(hash, replicas, listed));
        return "";
      }
      answer := Search(listed, hash.ofUint64(key));
    }

    /** `search`: binary search with wrap-around. */
    method Search(ghost listed: seq<string>, x: u64) returns (answer: string)
      requires Represents(listed) && !IsEmpty()
      ensures Answers(hash, replicas, listed, x, answer)
    {
      var sorted: seq<u64> := keys;
      ghost var points := Points(hash, replicas, listed);
      assert forall p :: p in sorted <==> p in points by { SameElements(sorted, points); }
      var reached := (i: nat) requires i < |sorted| => sorted[i] >= x;
      assert forall j: nat, k: nat | j <= k < |sorted| && reached(j) :: reached(k) by {
        assert forall j: nat, k: nat | j < k < |sorted| :: !Below(sorted[k], sorted[j]);
      }
      var idx := SortSearch.Search(|sorted|, reached);
      forall k: nat | k < idx ensures sorted[k] < x { assert !reached(k); }
      assert idx < |sorted| ==> reached(idx);
      if idx == |sorted| {
        idx := 0;
      }
      SortedSuccessor(sorted, idx, x);
      assert sorted[idx] in points;
      answer := hashMap[keys[idx]];
    }
  }

  lemma NextPrefix<T>(a: seq<T>, b: seq<T>, k: nat)
    requires k < |b|
    ensures a + b[..k + 1] == a + b[..k] + [b[k]]
  {
  }

  predicate Below(a: u64, b: u64) { a < b }

  /** In a sorted list the successor stands at the first index not below `x`, wrapping to 0. */
  lemma SortedSuccessor(sorted: seq<u64>, idx: nat, x: u64)
    requires Sorted(sorted, Below) && idx < |sorted|
    requires forall k | 0 <= k < idx :: sorted[k] < x
    requires if x <= sorted[idx] then true else idx == 0 && forall k | 0 <= k < |sorted| :: sorted[k] < x
    ensures Successor(sorted, x, sorted[idx])
  {
    forall q | q in sorted
      ensures x <= q ==> x <= sorted[idx] <= q
      ensures (forall r | r in sorted :: r < x) ==> sorted[idx] <= q
    {
      var j :| 0 <= j < |sorted| && sorted[j] == q;
      assert idx < j ==> !Below(sorted[j], sorted[idx]);
      assert sorted[idx] in sorted;
    }
  }

  lemma BelowIsStrictWeak()
    ensures StrictWeak(Below)
  {
  }

  lemma SameElements<T>(a: seq<T>, b: seq<T>)
    requires multiset(a) == multiset(b)
    ensures forall x :: x in a <==> x in b
  {
    forall x ensures x in a <==> x in b {
      assert x in a <==> x in multiset(a);
      assert x in b <==> x in multiset(b);
    }
  }

  lemma EmptyTogether<T>(a: seq<T>, b: seq<T>)
    requires a == [] && multiset(a) == multiset(b)
    ensures b == []
  {
    assert |b| == |multiset(b)| == |multiset(a)| == 0;
  }
}
