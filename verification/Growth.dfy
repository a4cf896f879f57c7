/** Families of finite sets that grow until they stand still. */
module Growth {
  /** A growing family of sets that stands still as soon as it does not grow. */
  ghost predicate Growing(e: nat -> set<nat>) {
    (forall n: nat :: e(n) <= e(n + 1)) && (forall n: nat :: e(n) == e(n + 1) ==> e(n + 1) == e(n + 2))
  }

  lemma {:induction false} GrowsOrStands(e: nat -> set<nat>, n: nat)
    requires Growing(e)
    ensures e(n) == e(n + 1) || |e(n + 1)| > n
    decreases n
  {
    assert e(n) <= e(n + 1);
    if e(n) != e(n + 1) {
      Strict(e(n), e(n + 1));
      if n > 0 { GrowsOrStands(e, n - 1); }
    }
  }

  lemma Strict(a: set<nat>, b: set<nat>)
    requires a <= b && a != b
    ensures |a| < |b|
  {
    assert b == a + (b - a);
    assert b - a != {};
  }

  lemma {:induction false} Smaller(a: set<nat>, n: nat)
    requires forall x :: x in a ==> x < n
    ensures |a| <= n
    decreases n
  {
    if n == 0 { assert a == {}; } else {
      Smaller(a - {n - 1}, n - 1);
      assert n - 1 !in a ==> a - {n - 1} == a;
    }
  }

  /** Below `n` it has stopped growing after `n` steps. */
  lemma {:induction false} Stands(e: nat -> set<nat>, n: nat, m: nat)
    requires Growing(e) && (forall k: nat :: forall x :: x in e(k) ==> x < n) && n <= m
    ensures e(m) == e(n)
    decreases m
  {
    GrowsOrStands(e, n);
    Smaller(e(n + 1), n);
    if m > n {
      StandsNext(e, n, m - 1);
      Stands(e, n, m - 1);
    }
  }

  lemma {:induction false} StandsNext(e: nat -> set<nat>, n: nat, m: nat)
    requires Growing(e) && e(n) == e(n + 1) && n <= m
    ensures e(m) == e(m + 1)
    decreases m
  {
    if m > n { StandsNext(e, n, m - 1); }
  }
}
