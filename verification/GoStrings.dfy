/** Go strings as far as the ring and the selector look into them: order and decimal text. */
module GoStrings {

  /** The order of Go's `<` on strings. */
  predicate Less(a: string, b: string)
  {
    if b == [] then false
    else if a == [] then true
    else a[0] < b[0] || (a[0] == b[0] && Less(a[1..], b[1..]))
  }

  /** The strings are alike in front of position `k`, where `a` ends before `b` or has the smaller character. */
  ghost predicate SmallerAt(a: string, b: string, k: nat)
  {
    k <= |a| && k < |b| && a[..k] == b[..k] && (k == |a| || a[k] < b[k])
  }

  /** The order is the lexicographic one: what comes first is a proper prefix or has the first smaller character. */
  lemma {:induction false} LessMeaning(a: string, b: string)
    ensures Less(a, b) <==> exists k: nat :: SmallerAt(a, b, k)
  {
    if b != [] {
      if a == [] {
        assert SmallerAt(a, b, 0);
      } else if a[0] < b[0] {
        assert SmallerAt(a, b, 0);
      } else {
        if a[0] == b[0] {
          LessMeaning(a[1..], b[1..]);
          if Less(a, b) {
            var k: nat :| SmallerAt(a[1..], b[1..], k);
            assert a[..k + 1] == [a[0]] + a[1..][..k] && b[..k + 1] == [b[0]] + b[1..][..k];
            assert SmallerAt(a, b, k + 1);
          }
        }
        forall k: nat | SmallerAt(a, b, k) ensures Less(a, b) { SmallerLater(a, b, k); }
      }
    }
  }

  lemma SmallerLater(a: string, b: string, k: nat)
    requires SmallerAt(a, b, k) && a != [] && b != [] && a[0] >= b[0]
    ensures a[0] == b[0] && k > 0 && SmallerAt(a[1..], b[1..], k - 1)
  {
    if k > 0 {
      assert a[..k][0] == b[..k][0];
      assert a[1..][..k - 1] == a[..k][1..] && b[1..][..k - 1] == b[..k][1..];
    }
  }

  lemma {:induction false} LessIrreflexive(a: string)
    ensures !Less(a, a)
  {
    if a != [] { LessIrreflexive(a[1..]); }
  }

  lemma {:induction false} LessTotal(a: string, b: string)
    ensures a == b || Less(a, b) || Less(b, a)
  {
    if a != [] && b != [] && a[0] == b[0] {
      LessTotal(a[1..], b[1..]);
      assert a[1..] == b[1..] ==> a == [a[0]] + a[1..] == [b[0]] + b[1..] == b;
    }
  }

  lemma {:induction false} LessTransitive(a: string, b: string, c: string)
    requires Less(a, b) && Less(b, c)
    ensures Less(a, c)
  {
    if a != [] && a[0] == b[0] && b[0] == c[0] {
      LessTransitive(a[1..], b[1..], c[1..]);
    }
  }

  lemma LessAsymmetric(a: string, b: string)
    requires Less(a, b)
    ensures !Less(b, a)
  {
    if Less(b, a) {
      LessTransitive(a, b, a);
      LessIrreflexive(a);
    }
  }

  predicate IsDigit(c: char) { '0' <= c <= '9' }

  /** The number that a text of decimal digits stands for. */
  function Decimal(s: string): int
  {
    if s == [] then 0 else 10 * Decimal(s[..|s| - 1]) + (s[|s| - 1] as int - '0' as int)
  }

  /** The decimal text of a number: digits without a leading zero, that stand for the number. */
  lemma {:induction false} ItoaMeaning(n: nat)
    ensures Itoa(n) != [] && (forall c | c in Itoa(n) :: IsDigit(c))
    ensures Itoa(n)[0] == '0' <==> n == 0
    ensures |Itoa(n)| > 1 ==> n >= 10
    ensures Decimal(Itoa(n)) == n
  {
    var s := Itoa(n);
    if n < 10 {
      assert s[..0] == [];
      assert Decimal(s) == 10 * Decimal(s[..0]) + n;
    } else {
      ItoaMeaning(n / 10);
      assert s[..|s| - 1] == Itoa(n / 10);
    }
  }

  /** Different replicas of a key hash different texts. */
  lemma ReplicasDiffer(i: nat, j: nat, key: string)
    requires i != j
    ensures Itoa(i) + key != Itoa(j) + key
  {
    ItoaMeaning(i);
    ItoaMeaning(j);
    var a, b := Itoa(i), Itoa(j);
    assert a == (a + key)[..|a|] && b == (b + key)[..|b|];
  }

  /** `strconv.Itoa` on a replica number. */
  function Itoa(n: nat): string
  {
    if n < 10 then [('0' as int + n) as char] else Itoa(n / 10) + [('0' as int + n % 10) as char]
  }
}
