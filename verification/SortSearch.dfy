/** The two routines of Go's package `sort` that the ring and the selector rely on. */
module SortSearch {

  /** What `sort.Slice` asks of its `less`: a strict weak order. */
  ghost predicate StrictWeak<T(!new)>(less: (T, T) -> bool)
  {
    && (forall x :: !less(x, x))
    && (forall x, y :: less(x, y) ==> !less(y, x))
    && (forall x, y, z :: !less(y, x) && !less(z, y) ==> !less(z, x))
  }

  ghost predicate Sorted<T(!new)>(s: seq<T>, less: (T, T) -> bool)
  {
    forall i, j | 0 <= i < j < |s| :: !less(s[j], s[i])
  }

  /** `sort.Slice`: Go does not fix the algorithm, so only "a sorted permutation" is promised. */
  method SortSlice<T(!new)>(s: seq<T>, less: (T, T) -> bool) returns (r: seq<T>)
    requires StrictWeak(less)
    ensures Sorted(r, less)
    ensures multiset(r) == multiset(s)
  {
    r := [];
    for i := 0 to |s|
      invariant Sorted(r, less)
      invariant multiset(r) == multiset(s[..i])
    {
      r := InsertSorted(r, s[i], less);
      assert s[..i + 1] == s[..i] + [s[i]];
    }
    assert s[..|s|] == s;
  }

  method InsertSorted<T(!new)>(s: seq<T>, x: T, less: (T, T) -> bool) returns (r: seq<T>)
    requires StrictWeak(less) && Sorted(s, less)
    ensures Sorted(r, less)
    ensures multiset(r) == multiset(s) + multiset{x}
  {
    var p := |s|;
    while p > 0 && less(x, s[p - 1])
      invariant 0 <= p <= |s|
      invariant forall k | p <= k < |s| :: less(x, s[k])
    {
      p := p - 1;
    }
    if p > 0 {
      forall k | 0 <= k < p ensures !less(x, s[k]) { assert k < p - 1 ==> !less(s[p - 1], s[k]); }
    }
    InsertedSorted(s, p, x, less);
    InsertedElements(s, p, x);
    r := s[..p] + [x] + s[p..];
  }

  lemma InsertedSorted<T(!new)>(s: seq<T>, p: nat, x: T, less: (T, T) -> bool)
    requires StrictWeak(less) && Sorted(s, less) && p <= |s|
    requires forall k | 0 <= k < p :: !less(x, s[k])
    requires forall k | p <= k < |s| :: less(x, s[k])
    ensures Sorted(s[..p] + [x] + s[p..], less)
  {
    var r := s[..p] + [x] + s[p..];
    forall i, j | 0 <= i < j < |r| ensures !less(r[j], r[i]) {
      var a, b := if i > p then i - 1 else i, if j > p then j - 1 else j;
      assert i != p ==> r[i] == s[a];
      assert j != p ==> r[j] == s[b];
    }
  }

  lemma InsertedElements<T>(s: seq<T>, p: nat, x: T)
    requires p <= |s|
    ensures multiset(s[..p] + [x] + s[p..]) == multiset(s) + multiset{x}
  {
    assert s == s[..p] + s[p..];
  }

  /** `sort.Search`: the smallest index at which a monotone test holds, or `n`. */
  method Search(n: nat, f: nat --> bool) returns (i: nat)
    requires forall k: nat | k < n :: f.requires(k)
    requires forall j: nat, k: nat | j <= k < n && f(j) :: f(k)
    ensures i <= n
    ensures forall k: nat | k < i :: !f(k)
    ensures forall k: nat | i <= k < n :: f(k)
  {
    i := 0;
    var j := n;
    while i < j
      invariant 0 <= i <= j <= n
      invariant forall k: nat | k < i :: !f(k)
      invariant forall k: nat | j <= k < n :: f(k)
    {
      var h := (i + j) / 2;
      if !f(h) {
        i := h + 1;
      } else {
        j := h;
      }
    }
  }
}
