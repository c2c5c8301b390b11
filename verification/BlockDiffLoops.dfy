/**
 * The loops of internal/extract/pagewatch/diff.go, each proved against its specification in
 * `BlockDiff` or `Lcs`.
 */
module BlockDiffLoops {
  import opened Positions
  import opened Lcs
  import opened BlockDiff

  function Lookup(m: map<Key, seq<nat>>, k: Key): seq<nat> { if k in m then m[k] else [] }

  function Count(m: map<Key, nat>, k: Key): nat { if k in m then m[k] else 0 }

  method PositionsByKey(keys: seq<Key>) returns (pos: map<Key, seq<nat>>)
    ensures forall k :: Lookup(pos, k) == Occurrences(keys, k)
  {
    pos := map[];
    var i := 0;
    while i < |keys|
      invariant 0 <= i <= |keys|
      invariant forall k :: Lookup(pos, k) == Occurrences(keys[..i], k)
    {
      assert keys[..i + 1][..i] == keys[..i];
      pos := pos[keys[i] := Lookup(pos, keys[i]) + [i]];
      i := i + 1;
    }
    assert keys[..i] == keys;
  }

  ghost predicate Ascending(s: seq<nat>) {
    forall p, q :: 0 <= p < q < |s| ==> s[p] <= s[q]
  }

  function Insert(x: nat, s: seq<nat>): seq<nat> {
    if s == [] || x <= s[0] then [x] + s else [s[0]] + Insert(x, s[1..])
  }

  /** `sort.Ints`. */
  function SortInts(a: seq<nat>): seq<nat> {
    if a == [] then [] else Insert(a[0], SortInts(a[1..]))
  }

  lemma {:induction false} InsertKeepsBag(x: nat, s: seq<nat>)
    ensures multiset(Insert(x, s)) == multiset(s) + multiset{x}
  {
    if s != [] && x > s[0] {
      InsertKeepsBag(x, s[1..]);
      assert s == [s[0]] + s[1..];
    }
  }

  lemma {:induction false} InsertKeepsOrder(x: nat, s: seq<nat>)
    requires Ascending(s)
    ensures Ascending(Insert(x, s))
  {
    if s != [] && x > s[0] {
      var r := Insert(x, s[1..]);
      InsertKeepsOrder(x, s[1..]);
      forall p | 0 <= p < |r| ensures s[0] <= r[p] {
        InsertKeepsBag(x, s[1..]);
        assert r[p] in multiset(r);
      }
    }
  }

  lemma {:induction false} SortIntsSorts(a: seq<nat>)
    ensures Ascending(SortInts(a)) && multiset(SortInts(a)) == multiset(a)
  {
    if a != [] {
      assert a == [a[0]] + a[1..];
      SortIntsSorts(a[1..]);
      InsertKeepsOrder(a[0], SortInts(a[1..]));
      InsertKeepsBag(a[0], SortInts(a[1..]));
    }
  }

  ghost predicate NoRepeats(s: seq<nat>) {
    forall p, q :: 0 <= p < q < |s| ==> s[p] != s[q]
  }

  /** Sorting a list without repeats that has the members of an increasing list gives that list. */
  lemma SortGives(a: seq<nat>, b: seq<nat>)
    requires NoRepeats(a) && Increasing(b) && forall x :: x in a <==> x in b
    ensures SortInts(a) == b
  {
    var s := SortInts(a);
    SortIntsSorts(a);
    forall x ensures x in s <==> x in b {
      assert x in s <==> x in multiset(s);
      assert x in a <==> x in multiset(a);
    }
    forall x ensures multiset(a)[x] <= 1 { NoRepeatsCount(a, x); }
    forall p, q | 0 <= p < q < |s| ensures s[p] < s[q] {
      if s[p] == s[q] { RepeatCount(s, p, q); }
    }
    IncreasingUnique(s, b);
  }

  lemma RepeatCount(s: seq<nat>, p: nat, q: nat)
    requires p < q < |s| && s[p] == s[q]
    ensures multiset(s)[s[p]] >= 2
  {
    assert s == s[..p] + [s[p]] + s[p + 1..q] + [s[q]] + s[q + 1..];
  }

  lemma {:induction false} NoRepeatsCount(a: seq<nat>, x: nat)
    requires NoRepeats(a)
    ensures multiset(a)[x] <= 1
  {
    if a != [] {
      assert a == [a[0]] + a[1..];
      NoRepeatsCount(a[1..], x);
      if a[0] == x {
        assert x !in a[1..];
        assert multiset(a[1..])[x] == 0;
      }
    }
  }

  /** The positions appended so far are those the specification picks among the keys visited. */
  ghost predicate Collected(idx: seq<nat>, all: seq<nat>, keys: seq<Key>, todo: set<Key>) {
    && NoRepeats(idx)
    && forall x :: x in idx <==> x in all && x < |keys| && keys[x] !in todo
  }

  /** Both lists of the loop over keys. */
  ghost predicate Progress(prev: seq<Key>, curr: seq<Key>, added: seq<nat>, removed: seq<nat>, todo: set<Key>) {
    && Collected(added, AllAdded(prev, curr), curr, todo)
    && Collected(removed, AllRemoved(prev, curr), prev, todo)
  }

  function Over(a: nat, b: nat): nat { if a > b then a - b else 0 }

  lemma SurplusIsOver(prev: seq<Key>, curr: seq<Key>, k: Key)
    ensures
      var p, c := |Occurrences(prev, k)|, |Occurrences(curr, k)|;
      Surplus(curr, prev, k) == Over(c, p) && Surplus(prev, curr, k) == Over(p, c)
  {
    OccurrencesAre(prev, k);
    OccurrencesAre(curr, k);
  }

  /** The last occurrences of `k` in `curr`, as many as it has more of than `prev`. */
  function AddedWith(prev: seq<Key>, curr: seq<Key>, k: Key): seq<nat> {
    var pi, ci := Occurrences(prev, k), Occurrences(curr, k);
    ci[|ci| - Over(|ci|, |pi|)..]
  }

  /** The first occurrences of `k` in `prev`, as many as it has more of than `curr`. */
  function RemovedWith(prev: seq<Key>, curr: seq<Key>, k: Key): seq<nat> {
    var pi, ci := Occurrences(prev, k), Occurrences(curr, k);
    pi[..Over(|pi|, |ci|)]
  }

  lemma CountAfter(keys: seq<Key>, x: nat)
    requires x < |keys|
    ensures multiset(keys)[keys[x]] == multiset(keys[..x])[keys[x]] + 1 + multiset(keys[x + 1..])[keys[x]]
  {
    CountSplit(keys, x + 1, keys[x]);
    CountSnoc(keys, x, keys[x]);
  }

  /** They are the added positions that carry `k`. */
  lemma CollectAdded(prev: seq<Key>, curr: seq<Key>, k: Key, x: nat)
    ensures x in AddedWith(prev, curr, k) <==> x < |curr| && BagAdded(prev, curr, x) && curr[x] == k
  {
    var ci, slice := Occurrences(curr, k), AddedWith(prev, curr, k);
    var lo := |ci| - |slice|;
    SurplusIsOver(prev, curr, k);
    OccurrencesAre(curr, k);
    if x in slice {
      var p :| 0 <= p < |slice| && slice[p] == x;
      assert NthOccurrence(curr, k, ci[lo + p], lo + p);
      CountAfter(curr, x);
    }
    if x < |curr| && BagAdded(prev, curr, x) && curr[x] == k {
      OccurrencesComplete(curr, x);
      CountAfter(curr, x);
      assert slice[multiset(curr[..x])[k] - lo] == x;
    }
  }

  /** They are the removed positions that carry `k`. */
  lemma CollectRemoved(prev: seq<Key>, curr: seq<Key>, k: Key, x: nat)
    ensures x in RemovedWith(prev, curr, k) <==> x < |prev| && BagRemoved(prev, curr, x) && prev[x] == k
  {
    var pi, slice := Occurrences(prev, k), RemovedWith(prev, curr, k);
    SurplusIsOver(prev, curr, k);
    OccurrencesAre(prev, k);
    if x in slice {
      var p :| 0 <= p < |slice| && slice[p] == x;
      assert NthOccurrence(prev, k, pi[p], p);
    }
    if x < |prev| && BagRemoved(prev, curr, x) && prev[x] == k {
      OccurrencesComplete(prev, x);
      assert slice[multiset(prev[..x])[k]] == x;
    }
  }

  lemma OccurrencesNoRepeats(keys: seq<Key>, k: Key)
    ensures NoRepeats(Occurrences(keys, k))
  {
    OccurrencesAre(keys, k);
    var idx := Occurrences(keys, k);
    forall p, q | 0 <= p < q < |idx| ensures idx[p] != idx[q] {
      assert NthOccurrence(keys, k, idx[p], p) && NthOccurrence(keys, k, idx[q], q);
    }
  }

  lemma CollectAddedKey(prev: seq<Key>, curr: seq<Key>, k: Key)
    ensures NoRepeats(AddedWith(prev, curr, k))
    ensures forall x :: x in AddedWith(prev, curr, k) <==> x in AllAdded(prev, curr) && x < |curr| && curr[x] == k
  {
    OccurrencesNoRepeats(curr, k);
    forall x: nat
      ensures x in AddedWith(prev, curr, k) <==> x in AllAdded(prev, curr) && x < |curr| && curr[x] == k
    {
      PickedMembers(IsAdded(prev, curr), |curr|, x);
      CollectAdded(prev, curr, k, x);
    }
  }

  lemma CollectRemovedKey(prev: seq<Key>, curr: seq<Key>, k: Key)
    ensures NoRepeats(RemovedWith(prev, curr, k))
    ensures forall x :: x in RemovedWith(prev, curr, k) <==> x in AllRemoved(prev, curr) && x < |prev| && prev[x] == k
  {
    OccurrencesNoRepeats(prev, k);
    forall x: nat
      ensures x in RemovedWith(prev, curr, k) <==> x in AllRemoved(prev, curr) && x < |prev| && prev[x] == k
    {
      PickedMembers(IsRemoved(prev, curr), |prev|, x);
      CollectRemoved(prev, curr, k, x);
    }
  }

  /** Collecting one more key keeps the picture right. */
  lemma CollectStep(idx: seq<nat>, extra: seq<nat>, all: seq<nat>, keys: seq<Key>, todo: set<Key>, k: Key)
    requires Collected(idx, all, keys, todo) && k in todo
    requires NoRepeats(extra) && forall x :: x in extra <==> x in all && x < |keys| && keys[x] == k
    ensures Collected(idx + extra, all, keys, todo - {k})
  {
    forall p, q | 0 <= p < q < |idx + extra| ensures (idx + extra)[p] != (idx + extra)[q] {
      if p < |idx| <= q {
        assert idx[p] in idx && extra[q - |idx|] in extra;
      }
    }
  }

  /** Visiting `k`: what the loop body appends, and what that makes of the two lists. */
  lemma VisitKey(prev: seq<Key>, curr: seq<Key>, added: seq<nat>, removed: seq<nat>, todo: set<Key>, k: Key)
    requires Progress(prev, curr, added, removed, todo) && k in todo
    ensures Progress(prev, curr, added + AddedWith(prev, curr, k), removed + RemovedWith(prev, curr, k), todo - {k})
  {
    CollectAddedKey(prev, curr, k);
    CollectRemovedKey(prev, curr, k);
    CollectStep(added, AddedWith(prev, curr, k), AllAdded(prev, curr), curr, todo, k);
    CollectStep(removed, RemovedWith(prev, curr, k), AllRemoved(prev, curr), prev, todo, k);
  }

  /** The body of the loop over keys: the surplus occurrences of one key. */
  method AppendSurplus(pi: seq<nat>, ci: seq<nat>, added: seq<nat>, removed: seq<nat>)
    returns (added': seq<nat>, removed': seq<nat>)
    ensures added' == added + ci[|ci| - Over(|ci|, |pi|)..]
    ensures removed' == removed + pi[..Over(|pi|, |ci|)]
  {
    added', removed' := added, removed;
    var net := |ci| - |pi|;
    if net > 0 {
      added' := added + ci[|ci| - net..];
    } else if net < 0 {
      removed' := removed + pi[..-net];
    }
  }

  /** The loop over every key seen on either side, in any order. */
  method CollectSurplus(prev: seq<Key>, curr: seq<Key>,
                        prevPos: map<Key, seq<nat>>, currPos: map<Key, seq<nat>>, seen: set<Key>)
    returns (added: seq<nat>, removed: seq<nat>)
    requires forall k :: Lookup(prevPos, k) == Occurrences(prev, k)
    requires forall k :: Lookup(currPos, k) == Occurrences(curr, k)
    requires Progress(prev, curr, [], [], seen)
    ensures Progress(prev, curr, added, removed, {})
  {
    added, removed := [], [];
    var todo := seen;
    while todo != {}
      invariant Progress(prev, curr, added, removed, todo)
      decreases |todo|
    {
      var k :| k in todo;
      var pi, ci := Lookup(prevPos, k), Lookup(currPos, k);
      VisitKey(prev, curr, added, removed, todo, k);
      added, removed := AppendSurplus(pi, ci, added, removed);
      todo := todo - {k};
    }
  }

  method SetDiffIdx(prev: seq<Key>, curr: seq<Key>) returns (d: IndexDiff)
    ensures d == SetDiff(prev, curr)
  {
    SetDiffSorted(prev, curr);
    var prevPos := PositionsByKey(prev);
    var currPos := PositionsByKey(curr);
    var seen := (set k | k in prev) + (set k | k in curr);
    var added, removed := CollectSurplus(prev, curr, prevPos, currPos, seen);
    SortGives(added, AllAdded(prev, curr));
    SortGives(removed, AllRemoved(prev, curr));
    d := IndexDiff(SortInts(added), SortInts(removed));
  }

  method CountKeys(idx: seq<nat>, keys: seq<Key>) returns (m: map<Key, nat>)
    requires Within(idx, 0, |keys|)
    ensures forall k :: Count(m, k) == multiset(KeysAt(keys, idx))[k]
  {
    m := map[];
    var n := 0;
    while n < |idx|
      invariant 0 <= n <= |idx|
      invariant forall k :: Count(m, k) == multiset(KeysAt(keys, idx[..n]))[k]
    {
      KeysAtSnoc(keys, idx[..n], idx[n]);
      assert idx[..n + 1] == idx[..n] + [idx[n]];
      var k := keys[idx[n]];
      m := m[k := Count(m, k) + 1];
      n := n + 1;
    }
    assert idx[..n] == idx;
  }

  method Filter(idx: seq<nat>, keys: seq<Key>, cancel: map<Key, nat>, ghost budget: multiset<Key>)
    returns (out: seq<nat>)
    requires Within(idx, 0, |keys|)
    requires forall k :: budget[k] == Count(cancel, k)
    ensures out == Survivors(idx, keys, budget)
  {
    out := [];
    var used: map<Key, nat> := map[];
    ghost var left := budget;
    var n := 0;
    while n < |idx|
      invariant 0 <= n <= |idx|
      invariant forall k :: left[k] == Count(cancel, k) - Count(used, k)
      invariant out + Survivors(idx[n..], keys, left) == Survivors(idx, keys, budget)
    {
      var k := keys[idx[n]];
      assert idx[n..][1..] == idx[n + 1..];
      if Count(used, k) < Count(cancel, k) {
        used := used[k := Count(used, k) + 1];
        left := left[k := left[k] - 1];
      } else {
        Snoc(out, idx[n], Survivors(idx[n + 1..], keys, left));
        out := out + [idx[n]];
      }
      n := n + 1;
    }
  }

  method CancelCommonKeys(d: IndexDiff, prev: seq<Key>, curr: seq<Key>) returns (r: IndexDiff)
    requires Within(d.added, 0, |curr|) && Within(d.removed, 0, |prev|)
    ensures r == Cancel(d, prev, curr)
  {
    var addCount := CountKeys(d.added, curr);
    var remCount := CountKeys(d.removed, prev);
    ghost var shared := SharedKeys(d, prev, curr);
    var cancel: map<Key, nat> := map[];
    var todo := addCount.Keys;
    while todo != {}
      invariant todo <= addCount.Keys
      invariant forall k :: Count(cancel, k) == if k in todo then 0 else shared[k]
      decreases |todo|
    {
      var k :| k in todo;
      var ac, rc := addCount[k], Count(remCount, k);
      assert Count(addCount, k) == ac;
      if rc > 0 {
        cancel := cancel[k := if rc < ac then rc else ac];
      }
      todo := todo - {k};
    }
    var added := Filter(d.added, curr, cancel, shared);
    var removed := Filter(d.removed, prev, cancel, shared);
    r := IndexDiff(added, removed);
  }

  /** `computeDiff` down to positions. */
  method ComputeDiffIdx(prev: seq<Key>, curr: seq<Key>) returns (d: IndexDiff)
    ensures d == DiffIndices(prev, curr)
    ensures IsBagDiff(prev, curr, d)
  {
    RawDiffInRange(prev, curr);
    BranchesAgree(prev, curr);
    if |prev| > LCS_BLOCK_LIMIT || |curr| > LCS_BLOCK_LIMIT {
      d := SetDiffIdx(prev, curr);
    } else {
      d := LcsDiffIdx(prev, curr);
    }
    d := CancelCommonKeys(d, prev, curr);
  }
}
