/** What a change of the key list can do to lookups, for every hash function, collisions included. */
module RingLaws {
  import opened GoInts
  import opened GoStrings
  import opened ConsistentHash

  lemma {:induction false} PointsMeaning(h: Hash, replicas: nat, keys: seq<string>, p: u64)
    ensures p in Points(h, replicas, keys) <==> exists k :: k in keys && Produces(h, replicas, k, p)
  {
    if keys != [] {
      var n := |keys| - 1;
      PointsMeaning(h, replicas, keys[..n], p);
      if p in Points(h, replicas, keys) {
        if p in Points(h, replicas, keys[..n]) {
          var k :| k in keys[..n] && Produces(h, replicas, k, p);
          assert k in keys;
        } else {
          assert keys[n] in keys && Produces(h, replicas, keys[n], p);
        }
      }
      forall k | k in keys && Produces(h, replicas, k, p) ensures p in Points(h, replicas, keys) {
        assert k in keys[..n] || k == keys[n];
      }
    }
  }

  /** The text that replica `i` of a key hashes: the decimal digits of `i`, and the key. */
  ghost predicate ReplicaText(i: nat, key: string, text: string)
  {
    exists digits ::
      && text == digits + key && digits != [] && (forall c | c in digits :: IsDigit(c))
      && (digits[0] == '0' ==> i == 0 && |digits| == 1) && Decimal(digits) == i
  }

  /** A key produces the hashes of its replicas' texts, from 0 on, and nothing else. */
  lemma ProducedPoints(h: Hash, replicas: nat, key: string, p: u64)
    ensures Produces(h, replicas, key, p) <==> exists i: nat, text :: i < replicas && ReplicaText(i, key, text) && p == h.ofString(text)
  {
    if Produces(h, replicas, key, p) {
      var i :| 0 <= i < replicas && KeyPoints(h, replicas, key)[i] == p;
      ItoaIsReplicaText(i, key);
    }
    forall i: nat, text | i < replicas && ReplicaText(i, key, text) && p == h.ofString(text) ensures Produces(h, replicas, key, p) {
      OneReplicaText(i, key, text);
      assert KeyPoints(h, replicas, key)[i] == p;
    }
  }

  lemma ItoaIsReplicaText(i: nat, key: string)
    ensures ReplicaText(i, key, Itoa(i) + key)
  {
    ItoaMeaning(i);
    assert Itoa(i) + key == Itoa(i) + key && Decimal(Itoa(i)) == i;
  }

  lemma OneReplicaText(i: nat, key: string, text: string)
    requires ReplicaText(i, key, text)
    ensures text == Itoa(i) + key
  {
    var digits :| text == digits + key && digits != [] && (forall c | c in digits :: IsDigit(c))
      && (digits[0] == '0' ==> i == 0 && |digits| == 1) && Decimal(digits) == i;
    DecimalIsItoa(digits);
  }

  /** A number has one decimal text. */
  lemma {:induction false} DecimalIsItoa(digits: string)
    requires digits != [] && (forall c | c in digits :: IsDigit(c)) && (digits[0] == '0' ==> |digits| == 1)
    ensures Decimal(digits) >= 0 && digits == Itoa(Decimal(digits))
    ensures digits[0] != '0' ==> Decimal(digits) > 0
  {
    var n := |digits| - 1;
    var init := digits[..n];
    assert digits == init + [digits[n]] && IsDigit(digits[n]);
    if n == 0 {
      assert Decimal(init) == 0;
    } else {
      assert init[0] == digits[0] && forall c | c in init :: c in digits;
      DecimalIsItoa(init);
    }
  }

  ghost predicate LastProducer(h: Hash, replicas: nat, keys: seq<string>, p: u64, i: nat)
  {
    && i < |keys|
    && Produces(h, replicas, keys[i], p)
    && forall j | i < j < |keys| :: !Produces(h, replicas, keys[j], p)
  }

  /** A point belongs to the last listed key that produces it. */
  lemma {:induction false} OwnerIsLastProducer(h: Hash, replicas: nat, keys: seq<string>, p: u64)
    ensures p in Points(h, replicas, keys) <==> exists i: nat :: LastProducer(h, replicas, keys, p, i)
    ensures forall i: nat | LastProducer(h, replicas, keys, p, i) :: Owner(h, replicas, keys, p) == keys[i]
  {
    if keys != [] {
      var n := |keys| - 1;
      var init := keys[..n];
      OwnerIsLastProducer(h, replicas, init, p);
      if Produces(h, replicas, keys[n], p) {
        assert LastProducer(h, replicas, keys, p, n);
      } else {
        forall i: nat ensures LastProducer(h, replicas, keys, p, i) <==> LastProducer(h, replicas, init, p, i) {
          assert i < n ==> init[i] == keys[i];
          assert forall j | 0 <= j < n :: init[j] == keys[j];
        }
      }
    }
  }

  /** Every lookup has exactly one answer, and on a ring with points it is one of the keys. */
  lemma AnswerUnique(h: Hash, replicas: nat, keys: seq<string>, x: u64, a: string, b: string)
    requires Answers(h, replicas, keys, x, a) && Answers(h, replicas, keys, x, b)
    ensures a == b
    ensures Points(h, replicas, keys) != [] ==> a in keys
  {
    var points := Points(h, replicas, keys);
    if points != [] {
      var p :| Successor(points, x, p) && a == Owner(h, replicas, keys, p);
      var q :| Successor(points, x, q) && b == Owner(h, replicas, keys, q);
      assert p == q;
      OwnerIsLastProducer(h, replicas, keys, p);
    }
  }

  lemma {:induction false} LeastExists(points: seq<u64>, x: u64)
    requires points != []
    ensures exists p :: Successor(points, x, p)
  {
    var n := |points| - 1;
    var q := points[n];
    assert points == points[..n] + [q];
    if n == 0 {
      assert Successor(points, x, q);
    } else {
      LeastExists(points[..n], x);
      var p :| Successor(points[..n], x, p);
      assert p in points && q in points;
      if (if x <= p then x <= q < p else x <= q || q < p) {
        assert forall r | r in points[..n] && x <= r :: x <= p <= r;
        assert Successor(points, x, q);
      } else {
        assert Successor(points, x, p);
      }
    }
  }

  lemma AnswerExists(h: Hash, replicas: nat, keys: seq<string>, x: u64)
    ensures exists a :: Answers(h, replicas, keys, x, a)
  {
    var points := Points(h, replicas, keys);
    if points == [] {
      assert Answers(h, replicas, keys, x, "");
    } else {
      LeastExists(points, x);
      var p :| Successor(points, x, p);
      assert Answers(h, replicas, keys, x, Owner(h, replicas, keys, p));
    }
  }

  // ----- keeping some keys, in order -----

  function Kept(keys: seq<string>, keep: string -> bool): (r: seq<string>)
    ensures forall k :: k in r <==> k in keys && keep(k)
  {
    if keys == [] then []
    else
      var n := |keys| - 1;
      assert keys == keys[..n] + [keys[n]];
      if keep(keys[n]) then Kept(keys[..n], keep) + [keys[n]] else Kept(keys[..n], keep)
  }

  lemma {:induction false} OwnerKept(h: Hash, replicas: nat, keys: seq<string>, keep: string -> bool, p: u64)
    requires p in Points(h, replicas, keys) && keep(Owner(h, replicas, keys, p))
    ensures p in Points(h, replicas, Kept(keys, keep))
    ensures Owner(h, replicas, Kept(keys, keep), p) == Owner(h, replicas, keys, p)
  {
    var n := |keys| - 1;
    var init := Kept(keys[..n], keep);
    if Produces(h, replicas, keys[n], p) {
      assert (init + [keys[n]])[..|init|] == init;
    } else {
      OwnerKept(h, replicas, keys[..n], keep, p);
      assert (init + [keys[n]])[..|init|] == init;
    }
  }

  /** Dropping keys changes only the lookups that the dropped keys answered. */
  lemma KeepingLaw(h: Hash, replicas: nat, keys: seq<string>, keep: string -> bool, x: u64, a: string)
    requires Points(h, replicas, keys) != [] && Answers(h, replicas, keys, x, a) && keep(a)
    ensures Answers(h, replicas, Kept(keys, keep), x, a)
    ensures Points(h, replicas, Kept(keys, keep)) != []
  {
    var points, fewer := Points(h, replicas, keys), Points(h, replicas, Kept(keys, keep));
    var p :| Successor(points, x, p) && a == Owner(h, replicas, keys, p);
    OwnerKept(h, replicas, keys, keep, p);
    forall q | q in fewer ensures q in points {
      PointsMeaning(h, replicas, Kept(keys, keep), q);
      PointsMeaning(h, replicas, keys, q);
    }
    assert Successor(fewer, x, p);
  }

  // ----- one key inserted or removed at any position -----

  lemma {:induction false} OwnerInserted(h: Hash, replicas: nat, a: seq<string>, k: string, b: seq<string>, p: u64)
    requires p in Points(h, replicas, a + [k] + b) && Owner(h, replicas, a + [k] + b, p) != k
    ensures p in Points(h, replicas, a + b) && Owner(h, replicas, a + b, p) == Owner(h, replicas, a + [k] + b, p)
  {
    var with, without := a + [k] + b, a + b;
    if b == [] {
      assert with[..|with| - 1] == a == without;
    } else {
      var n := |b| - 1;
      assert with[..|with| - 1] == a + [k] + b[..n];
      assert without[..|without| - 1] == a + b[..n];
      if !Produces(h, replicas, b[n], p) { OwnerInserted(h, replicas, a, k, b[..n], p); }
    }
  }

  /**
   * Minimal disruption. Inserting `k` anywhere moves lookups only to `k`; read the other way,
   * removing it moves only the lookups it answered.
   */
  lemma InsertionLaw(h: Hash, replicas: nat, a: seq<string>, k: string, b: seq<string>, x: u64,
                     with: string, without: string)
    requires Answers(h, replicas, a + [k] + b, x, with)
    requires Answers(h, replicas, a + b, x, without)
    ensures with == k || with == without
  {
    var points, fewer := Points(h, replicas, a + [k] + b), Points(h, replicas, a + b);
    forall q | q in fewer ensures q in points {
      PointsMeaning(h, replicas, a + b, q);
      PointsMeaning(h, replicas, a + [k] + b, q);
      var j :| j in a + b && Produces(h, replicas, j, q);
      assert j in a + [k] + b;
    }
    if replicas == 0 {
      NoReplicas(h, a + [k] + b);
      NoReplicas(h, a + b);
    } else if with != k {
      HasPoints(h, replicas, a + [k] + b);
      var p :| Successor(points, x, p) && with == Owner(h, replicas, a + [k] + b, p);
      OwnerInserted(h, replicas, a, k, b, p);
      assert Successor(fewer, x, p);
      assert fewer != [];
      AnswerUnique(h, replicas, a + b, x, with, without);
    }
  }

  // ----- lists sorted by Id -----

  ghost predicate StrictlySorted(keys: seq<string>)
  {
    forall i, j | 0 <= i < j < |keys| :: Less(keys[i], keys[j])
  }

  lemma HeadIsMember<T>(s: seq<T>)
    ensures s != [] ==> s[0] in s
  {
  }

  lemma SortedLast(a: seq<string>, b: seq<string>)
    requires StrictlySorted(a) && StrictlySorted(b) && a != [] && b != []
    requires forall k :: k in a <==> k in b
    ensures a[|a| - 1] == b[|b| - 1]
  {
    var m, n := |a| - 1, |b| - 1;
    assert a[m] in b && b[n] in a;
    var j :| 0 <= j < |b| && b[j] == a[m];
    var i :| 0 <= i < |a| && a[i] == b[n];
    if a[m] != b[n] {
      assert Less(a[m], b[n]);
      assert Less(b[n], a[m]);
      LessAsymmetric(a[m], b[n]);
    }
  }

  lemma DropLast(a: seq<string>)
    requires StrictlySorted(a) && a != []
    ensures a == a[..|a| - 1] + [a[|a| - 1]] && StrictlySorted(a[..|a| - 1])
    ensures forall k :: k in a[..|a| - 1] <==> k in a && k != a[|a| - 1]
  {
    LessIrreflexive(a[|a| - 1]);
  }

  /** A sorted list without repetition is determined by its set of elements. */
  lemma {:induction false} SortedIsDetermined(a: seq<string>, b: seq<string>)
    requires StrictlySorted(a) && StrictlySorted(b)
    requires forall k :: k in a <==> k in b
    ensures a == b
  {
    if a == [] {
      HeadIsMember(b);
    } else {
      assert a[0] in b;
      SortedLast(a, b);
      var m, n := |a| - 1, |b| - 1;
      DropLast(a);
      DropLast(b);
      forall k ensures k in a[..m] <==> k in b[..n] { assert k in a <==> k in b; }
      SortedIsDetermined(a[..m], b[..n]);
    }
  }

  /** For lists sorted by Id the answer depends only on the set of Ids. */
  lemma AnswerDependsOnSet(h: Hash, replicas: nat, keys: seq<string>, keys': seq<string>, x: u64, a: string, a': string)
    requires StrictlySorted(keys) && StrictlySorted(keys')
    requires forall k :: k in keys <==> k in keys'
    requires Answers(h, replicas, keys, x, a) && Answers(h, replicas, keys', x, a')
    ensures a == a'
  {
    SortedIsDetermined(keys, keys');
    AnswerUnique(h, replicas, keys, x, a, a');
  }

  lemma {:induction false} KeptSorted(keys: seq<string>, keep: string -> bool)
    requires StrictlySorted(keys)
    ensures StrictlySorted(Kept(keys, keep))
  {
    if keys != [] {
      var n := |keys| - 1;
      KeptSorted(keys[..n], keep);
      var init := Kept(keys[..n], keep);
      forall i | 0 <= i < |init| ensures Less(init[i], keys[n]) {
        assert init[i] in init;
        assert init[i] in keys[..n];
      }
    }
  }

  /**
   * Stickiness of the ring: when the answer of the old list is still listed and the answer of the new
   * list was listed before, the two answers are the same key.
   */
  lemma StickyAnswer(h: Hash, replicas: nat, old': seq<string>, new': seq<string>, x: u64, a: string, b: string)
    requires StrictlySorted(old') && StrictlySorted(new')
    requires Answers(h, replicas, old', x, a) && Answers(h, replicas, new', x, b)
    requires a in new' && b in old'
    ensures a == b
  {
    if replicas == 0 {
      NoReplicas(h, old');
      NoReplicas(h, new');
    } else {
      HasPoints(h, replicas, old');
      HasPoints(h, replicas, new');
      var inOld, inNew := (k: string) => k in old', (k: string) => k in new';
      KeepingLaw(h, replicas, old', inNew, x, a);
      KeepingLaw(h, replicas, new', inOld, x, b);
      KeptSorted(old', inNew);
      KeptSorted(new', inOld);
      SortedIsDetermined(Kept(old', inNew), Kept(new', inOld));
      AnswerUnique(h, replicas, Kept(old', inNew), x, a, b);
    }
  }

  lemma {:induction false} NoReplicas(h: Hash, keys: seq<string>)
    ensures Points(h, 0, keys) == []
  {
    if keys != [] { NoReplicas(h, keys[..|keys| - 1]); }
  }

  lemma HasPoints(h: Hash, replicas: nat, keys: seq<string>)
    requires replicas > 0 && keys != []
    ensures Points(h, replicas, keys) != []
  {
    assert |KeyPoints(h, replicas, keys[|keys| - 1])| == replicas;
  }

  // ----- collisions that no hash function avoids -----

  /**
   * Replica 1 of "1a" and replica 11 of "a" hash the same text, so with the selector's 200 replicas
   * the owner of that point depends on the order of the list, whatever the hash function.
   */
  lemma OrderMatters(h: Hash, replicas: nat)
    requires replicas > 11
    ensures Point(h, 1, "1a") == Point(h, 11, "a")
    ensures Answers(h, replicas, ["a", "1a"], Point(h, 11, "a"), "1a")
    ensures Answers(h, replicas, ["1a", "a"], Point(h, 11, "a"), "a")
  {
    assert Itoa(1) == "1";
    assert Itoa(11) == "11" by { assert Itoa(11) == Itoa(1) + "1"; }
    assert Itoa(1) + "1a" == "11a" == Itoa(11) + "a";
    var p := Point(h, 11, "a");
    assert KeyPoints(h, replicas, "a")[11] == p && KeyPoints(h, replicas, "1a")[1] == p;
    LastOfTwo(h, replicas, "a", "1a", p);
    LastOfTwo(h, replicas, "1a", "a", p);
  }

  lemma LastOfTwo(h: Hash, replicas: nat, k: string, l: string, p: u64)
    requires Produces(h, replicas, l, p)
    ensures Answers(h, replicas, [k, l], p, l)
  {
    var keys := [k, l];
    assert LastProducer(h, replicas, keys, p, 1);
    OwnerIsLastProducer(h, replicas, keys, p);
    assert Successor(Points(h, replicas, keys), p, p);
  }
}
