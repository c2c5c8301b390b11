/**
 * The learner of internal/fulltext/boilerplate/boilerplate.go: how often each subtree signature
 * was seen, over a window that halves, with a cap on how many are remembered.
 */
module Boilerplate {
  import opened DistinctLists
  import Ranks

  const MAX_SIGNATURES := 2000
  const DECAY_PAGES := 64
  const MIN_PAGES := 2

  datatype SigCount = SigCount(count: nat, lastSeen: nat)

  type Counts = map<string, SigCount>

  datatype Learner = Learner(pages: nat, counts: Counts)

  const EMPTY := Learner(0, map[])

  function Get(counts: Counts, sig: string): SigCount {
    if sig in counts then counts[sig] else SigCount(0, 0)
  }

  predicate IsBoilerplate(l: Learner, sig: string) {
    sig in l.counts && l.counts[sig].count >= MIN_PAGES && l.counts[sig].count * 2 >= l.pages
  }

  // ---------------------------------------------------------------- eviction order

  predicate Less(a: string, b: string) {
    if b == [] then false
    else if a == [] then true
    else if a[0] != b[0] then a[0] < b[0]
    else Less(a[1..], b[1..])
  }

  lemma {:induction false} LessTotal(a: string, b: string)
    ensures !Less(a, a) && !(Less(a, b) && Less(b, a))
    ensures Less(a, b) || Less(b, a) || a == b
  {
    if a != [] { LessTotal(a[1..], a[1..]); }
    if a != [] && b != [] && a[0] == b[0] {
      LessTotal(a[1..], b[1..]);
      assert a == [a[0]] + a[1..] && b == [b[0]] + b[1..];
    }
  }

  lemma {:induction false} LessTransitive(a: string, b: string, c: string)
    requires Less(a, b) && Less(b, c)
    ensures Less(a, c)
  {
    if a != [] && a[0] == b[0] && b[0] == c[0] { LessTransitive(a[1..], b[1..], c[1..]); }
  }

  /** Evicted before: lower count, then seen longer ago, then by signature. */
  predicate Weaker(counts: Counts, a: string, b: string) {
    var x, y := Get(counts, a), Get(counts, b);
    if x.count != y.count then x.count < y.count
    else if x.lastSeen != y.lastSeen then x.lastSeen < y.lastSeen
    else Less(a, b)
  }

  function ByStrength(counts: Counts): (string, string) -> bool {
    (a, b) => Weaker(counts, a, b)
  }

  lemma StrengthIsStrictTotal(counts: Counts)
    ensures Ranks.StrictTotal(ByStrength(counts))
  {
    forall a, b ensures !Less(a, a) && (Less(a, b) || Less(b, a) || a == b) { LessTotal(a, b); }
    forall a, b, c | Less(a, b) && Less(b, c) ensures Less(a, c) { LessTransitive(a, b, c); }
  }

  /** The `n` weakest signatures. */
  function Weakest(counts: Counts, n: int): set<string> {
    Ranks.First(counts.Keys, n, ByStrength(counts))
  }

  // ---------------------------------------------------------------- transitions

  function Evicted(counts: Counts, limit: nat): Counts {
    if |counts| <= limit then counts else counts - Weakest(counts, |counts| - limit)
  }

  function Halved(counts: Counts): Counts {
    map sig | sig in counts && counts[sig].count / 2 > 0 :: SigCount(counts[sig].count / 2, counts[sig].lastSeen)
  }

  function Decayed(l: Learner): Learner {
    Learner(l.pages / 2, Halved(l.counts))
  }

  function Bump(counts: Counts, sigs: seq<string>, pages: nat): Counts {
    if sigs == [] then counts
    else
      var c := Bump(counts, sigs[..|sigs| - 1], pages);
      var sig := sigs[|sigs| - 1];
      c[sig := SigCount(Get(c, sig).count + 1, pages)]
  }

  /** The counters after a page is folded in, before eviction. */
  function Counted(l: Learner, sigs: seq<string>): Learner {
    var seen := Learner(l.pages + 1, Bump(l.counts, sigs, l.pages + 1));
    if seen.pages >= DECAY_PAGES then Decayed(seen) else seen
  }

  function Observed(l: Learner, sigs: seq<string>): Learner {
    var c := Counted(l, sigs);
    c.(counts := Evicted(c.counts, MAX_SIGNATURES))
  }

  // ---------------------------------------------------------------- the state object

  class State {
    var pages: nat
    var counts: Counts

    function View(): Learner
      reads this
    {
      Learner(pages, counts)
    }

    constructor ()
      ensures View() == EMPTY
    {
      pages, counts := 0, map[];
    }

    method Observe(sigs: seq<string>)
      modifies this
      ensures View() == Observed(old(View()), sigs)
    {
      ghost var was := View();
      pages := pages + 1;
      CountAll(sigs);
      assert View() == Learner(was.pages + 1, Bump(was.counts, sigs, was.pages + 1));
      if pages >= DECAY_PAGES {
        Decay();
      }
      assert View() == Counted(was, sigs);
      EvictTo(MAX_SIGNATURES);
    }

    /** The loop over the page's signatures. */
    method CountAll(sigs: seq<string>)
      modifies `counts
      ensures counts == Bump(old(counts), sigs, pages)
    {
      var i := 0;
      while i < |sigs|
        invariant 0 <= i <= |sigs|
        invariant counts == Bump(old(counts), sigs[..i], pages)
      {
        assert sigs[..i + 1][..i] == sigs[..i];
        var c := Get(counts, sigs[i]);
        counts := counts[sigs[i] := SigCount(c.count + 1, pages)];
        i := i + 1;
      }
      assert sigs[..i] == sigs;
    }

    method Decay()
      modifies this
      ensures View() == Decayed(old(View()))
    {
      var todo := counts.Keys;
      while todo != {}
        invariant todo <= old(counts).Keys && pages == old(pages)
        invariant forall sig :: sig in todo ==> sig in counts && counts[sig] == old(counts)[sig]
        invariant forall sig :: sig !in todo ==> (sig in counts <==> sig in Halved(old(counts)))
        invariant forall sig :: sig in counts && sig !in todo ==> counts[sig] == Halved(old(counts))[sig]
        decreases |todo|
      {
        var sig :| sig in todo;
        var c := SigCount(counts[sig].count / 2, counts[sig].lastSeen);
        if c.count == 0 {
          counts := counts - {sig};
        } else {
          counts := counts[sig := c];
        }
        todo := todo - {sig};
      }
      assert counts == Halved(old(counts));
      pages := pages / 2;
    }

    method EvictTo(limit: nat)
      modifies this
      ensures View() == old(View()).(counts := Evicted(old(counts), limit))
    {
      if |counts| <= limit {
        return;
      }
      var sigs := SortByStrength(counts);
      var n := |counts| - limit;
      PrefixIsWeakest(counts, sigs, n);
      ghost var was := counts;
      var i := 0;
      while i < n
        invariant 0 <= i <= n && pages == old(pages)
        invariant counts == was - Elements(sigs[..i])
      {
        RemoveNext(was, sigs, i);
        counts := counts - {sigs[i]};
        i := i + 1;
      }
    }
  }

  lemma RemoveNext(counts: Counts, sigs: seq<string>, i: nat)
    requires i < |sigs|
    ensures counts - Elements(sigs[..i]) - {sigs[i]} == counts - Elements(sigs[..i + 1])
  {
    assert sigs[..i + 1] == sigs[..i] + [sigs[i]];
    assert Elements(sigs[..i + 1]) == Elements(sigs[..i]) + {sigs[i]};
  }

  ghost predicate IsWeakest(counts: Counts, s: set<string>, m: string) {
    m in s && forall q :: q in s && q != m ==> Weaker(counts, m, q)
  }

  lemma WeakestIsDefined(counts: Counts, s: set<string>)
    requires s != {}
    ensures exists m :: IsWeakest(counts, s, m)
  {
    StrengthIsStrictTotal(counts);
    var x :| x in s;
    var m := Ranks.LastExists(s, x, (a, b) => ByStrength(counts)(b, a));
    forall q | q in s && q != m ensures Weaker(counts, m, q) {
      assert ByStrength(counts)(m, q);
    }
    assert IsWeakest(counts, s, m);
  }

  ghost predicate Ascending(counts: Counts, l: seq<string>) {
    forall i, j :: 0 <= i < j < |l| ==> Weaker(counts, l[i], l[j])
  }

  lemma AppendWeakest(counts: Counts, l: seq<string>, todo: set<string>, m: string)
    requires Ascending(counts, l) && IsWeakest(counts, todo, m)
    requires forall x, q :: x in l && q in todo ==> Weaker(counts, x, q)
    ensures Ascending(counts, l + [m]) && Elements(l + [m]) == Elements(l) + {m}
    ensures forall x, q :: x in l + [m] && q in todo - {m} ==> Weaker(counts, x, q)
  {
  }

  /** `sort.Slice` with the eviction order. */
  method SortByStrength(counts: Counts) returns (l: seq<string>)
    ensures Ascending(counts, l) && Elements(l) == counts.Keys && |l| == |counts|
  {
    l := [];
    var todo := counts.Keys;
    while todo != {}
      invariant todo <= counts.Keys && Elements(l) == counts.Keys - todo
      invariant |l| == |counts| - |todo|
      invariant Ascending(counts, l)
      invariant forall x, q :: x in l && q in todo ==> Weaker(counts, x, q)
      decreases |todo|
    {
      WeakestIsDefined(counts, todo);
      var m :| m in todo && forall q | q in todo :: q != m ==> Weaker(counts, m, q);
      AppendWeakest(counts, l, todo, m);
      l := l + [m];
      todo := todo - {m};
    }
  }

  lemma AscendingIsDistinct(counts: Counts, l: seq<string>)
    requires Ascending(counts, l)
    ensures Distinct(l)
  {
    forall i, j | 0 <= i < j < |l| ensures l[i] != l[j] { LessTotal(l[i], l[j]); }
  }

  lemma AheadIsPrefix(counts: Counts, l: seq<string>, k: nat)
    requires Ascending(counts, l) && Elements(l) == counts.Keys && k < |l|
    ensures Ranks.Ahead(counts.Keys, l[k], ByStrength(counts)) == Elements(l[..k])
    ensures |Ranks.Ahead(counts.Keys, l[k], ByStrength(counts))| == k
  {
    forall x ensures x in counts.Keys && Weaker(counts, x, l[k]) <==> x in Elements(l[..k]) {
      if x in counts.Keys && Weaker(counts, x, l[k]) {
        assert x in Elements(l);
        var j :| 0 <= j < |l| && l[j] == x;
        LessTotal(l[j], l[k]);
        assert l[..k][j] == x;
      }
      if x in l[..k] {
        var j :| 0 <= j < k && l[..k][j] == x;
        assert l[j] in Elements(l) && Weaker(counts, l[j], l[k]);
      }
    }
    AscendingIsDistinct(counts, l);
    DistinctSize(l[..k]);
  }

  /** The first `n` of the sorted list are the `n` weakest. */
  lemma PrefixIsWeakest(counts: Counts, l: seq<string>, n: nat)
    requires Ascending(counts, l) && Elements(l) == counts.Keys && n <= |l|
    ensures Elements(l[..n]) == Weakest(counts, n)
  {
    AscendingIsDistinct(counts, l);
    assert Elements(l[..n]) <= Elements(l) by {
      forall x | x in l[..n] ensures x in l {}
    }
    forall x | x in Elements(l) ensures x in Elements(l[..n]) <==> x in Weakest(counts, n) {
      var k :| 0 <= k < |l| && l[k] == x;
      AheadIsPrefix(counts, l, k);
      if k < n { assert l[..n][k] == x; }
      if x in l[..n] {
        var j :| 0 <= j < n && l[..n][j] == x;
        assert l[j] == l[k];
      }
    }
  }
}
