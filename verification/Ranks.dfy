/** Ranks in a finite set under a strict total order: no ties, no gaps. */
module Ranks {

  ghost predicate StrictTotal<T(!new)>(less: (T, T) -> bool) {
    && (forall a :: !less(a, a))
    && (forall a, b :: less(a, b) || less(b, a) || a == b)
    && (forall a, b, c :: less(a, b) && less(b, c) ==> less(a, c))
  }

  /** The members that come before `p`. */
  function Ahead<T>(s: set<T>, p: T, less: (T, T) -> bool): set<T> {
    set q | q in s && less(q, p)
  }

  /** The members with fewer than `n` others before them. */
  function First<T>(s: set<T>, n: int, less: (T, T) -> bool): set<T> {
    set p | p in s && |Ahead(s, p, less)| < n
  }

  lemma {:induction false} LastExists<T(!new)>(s: set<T>, x: T, less: (T, T) -> bool) returns (m: T)
    requires StrictTotal(less) && x in s
    ensures m in s && forall q :: q in s && q != m ==> less(q, m)
    decreases |s|
  {
    m := x;
    if y :| y in s && y != x {
      m := LastExists(s - {x}, y, less);
      if !less(x, m) { m := x; }
    }
  }

  /** Exactly `n` members have fewer than `n` before them, or all if there are not that many. */
  lemma {:induction false} FirstSize<T(!new)>(s: set<T>, n: nat, less: (T, T) -> bool)
    requires StrictTotal(less)
    ensures |First(s, n, less)| == if |s| < n then |s| else n
    decreases |s|
  {
    if x :| x in s {
      var m := LastExists(s, x, less);
      var rest := s - {m};
      FirstSize(rest, n, less);
      assert Ahead(s, m, less) == rest;
      forall p | p in rest ensures Ahead(s, p, less) == Ahead(rest, p, less) {}
      assert First(s, n, less) == First(rest, n, less) + (if |rest| < n then {m} else {});
    } else {
      assert s == {} && First(s, n, less) == {};
    }
  }

  /** The first come before the rest. */
  lemma FirstAreFirst<T(!new)>(s: set<T>, n: int, less: (T, T) -> bool, p: T, q: T)
    requires StrictTotal(less)
    requires p in First(s, n, less) && q in s && q !in First(s, n, less)
    ensures less(p, q)
  {
    if !less(p, q) {
      assert Ahead(s, q, less) <= Ahead(s, p, less);
      SubsetSize(Ahead(s, q, less), Ahead(s, p, less));
    }
  }

  lemma SubsetSize<T>(a: set<T>, b: set<T>)
    requires a <= b
    ensures |a| <= |b|
  {
    assert b == a + (b - a);
  }
}
