/**
 * The block diff of internal/extract/pagewatch/diff.go: LCS alignment with a cancellation
 * pass for ordinary pages, a bag difference for very large ones.
 *
 * Main result: both branches report exactly the bag difference of the two key sequences.
 */
module BlockDiff {
  import opened Positions
  import opened Lcs

  const LCS_BLOCK_LIMIT := 2000

  // ---------------------------------------------------------------- bag difference

  /** The positions of `k`, in order. */
  function Occurrences(keys: seq<Key>, k: Key): seq<nat> {
    if keys == [] then []
    else
      var n := |keys| - 1;
      Occurrences(keys[..n], k) + (if keys[n] == k then [n] else [])
  }

  /** The `p`-th occurrence listed really is the `p`-th. */
  predicate NthOccurrence(keys: seq<Key>, k: Key, x: nat, p: nat) {
    x < |keys| && keys[x] == k && multiset(keys[..x])[k] == p
  }

  lemma NthInPrefix(keys: seq<Key>, n: nat, k: Key, x: nat, p: nat)
    requires n <= |keys|
    ensures x < n ==> NthOccurrence(keys[..n], k, x, p) == NthOccurrence(keys, k, x, p)
  {
    if x < n { assert keys[..n][..x] == keys[..x]; }
  }

  lemma {:induction false} OccurrencesAre(keys: seq<Key>, k: Key)
    ensures |Occurrences(keys, k)| == multiset(keys)[k]
    ensures forall p :: 0 <= p < |Occurrences(keys, k)| ==> NthOccurrence(keys, k, Occurrences(keys, k)[p], p)
  {
    if keys != [] {
      var n := |keys| - 1;
      var before := Occurrences(keys[..n], k);
      OccurrencesAre(keys[..n], k);
      CountSnoc(keys, n, k);
      assert keys[..n + 1] == keys;
      forall p | 0 <= p < |Occurrences(keys, k)| ensures NthOccurrence(keys, k, Occurrences(keys, k)[p], p) {
        if p < |before| { NthInPrefix(keys, n, k, before[p], p); }
      }
    }
  }

  /** Every occurrence is listed, at the index given by the occurrences before it. */
  lemma {:induction false} OccurrencesComplete(keys: seq<Key>, x: nat)
    requires x < |keys|
    ensures multiset(keys[..x])[keys[x]] < |Occurrences(keys, keys[x])|
    ensures Occurrences(keys, keys[x])[multiset(keys[..x])[keys[x]]] == x
  {
    var n := |keys| - 1;
    if x < n {
      OccurrencesComplete(keys[..n], x);
      assert keys[..n][..x] == keys[..x];
    } else {
      OccurrencesAre(keys[..n], keys[x]);
    }
  }

  /** A removed position: one of the first surplus occurrences in `prev`. */
  predicate BagRemoved(prev: seq<Key>, curr: seq<Key>, x: nat)
    requires x < |prev|
  {
    multiset(prev[..x])[prev[x]] < Surplus(prev, curr, prev[x])
  }

  /** An added position: one of the last surplus occurrences in `curr`. */
  predicate BagAdded(prev: seq<Key>, curr: seq<Key>, x: nat)
    requires x < |curr|
  {
    multiset(curr[x + 1..])[curr[x]] < Surplus(curr, prev, curr[x])
  }

  /** The positions below `n` that satisfy `p`, in order. */
  function Picked(p: nat -> bool, n: nat): seq<nat> {
    if n == 0 then [] else Picked(p, n - 1) + (if p(n - 1) then [n - 1] else [])
  }

  lemma {:induction false} PickedMembers(p: nat -> bool, n: nat, y: nat)
    ensures y in Picked(p, n) <==> y < n && p(y)
  {
    if n > 0 { PickedMembers(p, n - 1, y); }
  }

  lemma {:induction false} PickedSorted(p: nat -> bool, n: nat)
    ensures Increasing(Picked(p, n)) && Within(Picked(p, n), 0, n)
  {
    if n > 0 { PickedSorted(p, n - 1); }
  }

  /** How many of the positions picked carry `k`. */
  function Hits(keys: seq<Key>, p: nat -> bool, n: nat, k: Key): nat
    requires n <= |keys|
  {
    if n == 0 then 0 else Hits(keys, p, n - 1, k) + (if p(n - 1) && keys[n - 1] == k then 1 else 0)
  }

  lemma {:induction false} PickedHits(keys: seq<Key>, p: nat -> bool, n: nat, k: Key)
    requires n <= |keys|
    ensures Within(Picked(p, n), 0, |keys|) && multiset(KeysAt(keys, Picked(p, n)))[k] == Hits(keys, p, n, k)
  {
    PickedSorted(p, n);
    if n > 0 {
      PickedSorted(p, n - 1);
      PickedHits(keys, p, n - 1, k);
      if p(n - 1) {
        KeysAtSnoc(keys, Picked(p, n - 1), n - 1);
      } else {
        assert Picked(p, n - 1) + [] == Picked(p, n - 1);
      }
    }
  }

  function IsAdded(prev: seq<Key>, curr: seq<Key>): nat -> bool {
    (x: nat) => x < |curr| && BagAdded(prev, curr, x)
  }

  function IsRemoved(prev: seq<Key>, curr: seq<Key>): nat -> bool {
    (x: nat) => x < |prev| && BagRemoved(prev, curr, x)
  }

  function AllAdded(prev: seq<Key>, curr: seq<Key>): seq<nat> { Picked(IsAdded(prev, curr), |curr|) }

  function AllRemoved(prev: seq<Key>, curr: seq<Key>): seq<nat> { Picked(IsRemoved(prev, curr), |prev|) }

  function SetDiff(prev: seq<Key>, curr: seq<Key>): IndexDiff {
    IndexDiff(AllAdded(prev, curr), AllRemoved(prev, curr))
  }

  lemma SetDiffSorted(prev: seq<Key>, curr: seq<Key>)
    ensures Increasing(AllAdded(prev, curr)) && Within(AllAdded(prev, curr), 0, |curr|)
    ensures Increasing(AllRemoved(prev, curr)) && Within(AllRemoved(prev, curr), 0, |prev|)
  {
    PickedSorted(IsAdded(prev, curr), |curr|);
    PickedSorted(IsRemoved(prev, curr), |prev|);
  }

  function Min(a: nat, b: nat): nat { if a <= b then a else b }

  /** The removed ones are the first occurrences, up to the surplus. */
  lemma {:induction false} RemovedHits(prev: seq<Key>, curr: seq<Key>, n: nat, k: Key)
    requires n <= |prev|
    ensures Hits(prev, IsRemoved(prev, curr), n, k) == Min(multiset(prev[..n])[k], Surplus(prev, curr, k))
  {
    if n > 0 {
      RemovedHits(prev, curr, n - 1, k);
      CountSnoc(prev, n - 1, k);
    }
  }

  /** The added ones are the last occurrences: none until only the surplus is left. */
  lemma {:induction false} AddedHits(prev: seq<Key>, curr: seq<Key>, n: nat, k: Key)
    requires n <= |curr|
    ensures
      var seen, spared := multiset(curr[..n])[k], multiset(curr)[k] - Surplus(curr, prev, k);
      Hits(curr, IsAdded(prev, curr), n, k) == if seen > spared then seen - spared else 0
  {
    if n > 0 {
      AddedHits(prev, curr, n - 1, k);
      CountSnoc(curr, n - 1, k);
      CountSplit(curr, n, k);
    }
  }

  // ---------------------------------------------------------------- cancellation

  /** Drops the first positions of each key, as many as the budget allows for that key. */
  function Survivors(idx: seq<nat>, keys: seq<Key>, budget: multiset<Key>): seq<nat>
    requires Within(idx, 0, |keys|)
  {
    if idx == [] then []
    else
      var k := keys[idx[0]];
      if budget[k] > 0 then Survivors(idx[1..], keys, budget[k := budget[k] - 1])
      else [idx[0]] + Survivors(idx[1..], keys, budget)
  }

  lemma {:induction false} SurvivorsSorted(idx: seq<nat>, keys: seq<Key>, budget: multiset<Key>)
    requires Within(idx, 0, |keys|) && Increasing(idx)
    ensures Increasing(Survivors(idx, keys, budget)) && Within(Survivors(idx, keys, budget), 0, |keys|)
    ensures forall x :: x in Survivors(idx, keys, budget) ==> x in idx
  {
    if idx != [] {
      var k := keys[idx[0]];
      var left := if budget[k] > 0 then budget[k := budget[k] - 1] else budget;
      SurvivorsSorted(idx[1..], keys, left);
      var tail := Survivors(idx[1..], keys, left);
      forall p | 0 <= p < |tail| ensures idx[0] < tail[p] {
        assert tail[p] in idx[1..];
      }
    }
  }

  lemma {:induction false} SurvivorsCount(idx: seq<nat>, keys: seq<Key>, budget: multiset<Key>, q: Key)
    requires Within(idx, 0, |keys|) && Within(Survivors(idx, keys, budget), 0, |keys|)
    ensures
      var before, after := multiset(KeysAt(keys, idx))[q], multiset(KeysAt(keys, Survivors(idx, keys, budget)))[q];
      after == if before > budget[q] then before - budget[q] else 0
  {
    if idx != [] {
      var k := keys[idx[0]];
      assert idx == [idx[0]] + idx[1..];
      KeysAtCons(keys, idx[0], idx[1..]);
      if budget[k] > 0 {
        SurvivorsCount(idx[1..], keys, budget[k := budget[k] - 1], q);
      } else {
        var tail := Survivors(idx[1..], keys, budget);
        assert tail == Survivors(idx, keys, budget)[1..];
        SurvivorsCount(idx[1..], keys, budget, q);
        KeysAtCons(keys, idx[0], tail);
      }
    }
  }

  /** What both sides lose: for each key, the smaller of its two counts. */
  function SharedKeys(d: IndexDiff, prev: seq<Key>, curr: seq<Key>): multiset<Key>
    requires Within(d.added, 0, |curr|) && Within(d.removed, 0, |prev|)
  {
    multiset(KeysAt(curr, d.added)) * multiset(KeysAt(prev, d.removed))
  }

  function Cancel(d: IndexDiff, prev: seq<Key>, curr: seq<Key>): IndexDiff
    requires Within(d.added, 0, |curr|) && Within(d.removed, 0, |prev|)
  {
    var shared := SharedKeys(d, prev, curr);
    IndexDiff(Survivors(d.added, curr, shared), Survivors(d.removed, prev, shared))
  }

  // ---------------------------------------------------------------- the two branches together

  lemma RawDiffInRange(prev: seq<Key>, curr: seq<Key>)
    ensures Within(Align(prev, curr, 0, 0).added, 0, |curr|) && Within(Align(prev, curr, 0, 0).removed, 0, |prev|)
    ensures Within(SetDiff(prev, curr).added, 0, |curr|) && Within(SetDiff(prev, curr).removed, 0, |prev|)
  {
    AlignIsAlignment(prev, curr, 0, 0);
    SetDiffSorted(prev, curr);
  }

  predicate TooLargeForLcs(prev: seq<Key>, curr: seq<Key>) {
    |prev| > LCS_BLOCK_LIMIT || |curr| > LCS_BLOCK_LIMIT
  }

  function ViaLcs(prev: seq<Key>, curr: seq<Key>): IndexDiff {
    RawDiffInRange(prev, curr);
    Cancel(Align(prev, curr, 0, 0), prev, curr)
  }

  function ViaBags(prev: seq<Key>, curr: seq<Key>): IndexDiff {
    RawDiffInRange(prev, curr);
    Cancel(SetDiff(prev, curr), prev, curr)
  }

  /** `computeDiff` on keys: either algorithm, then the cancellation pass. */
  function DiffIndices(prev: seq<Key>, curr: seq<Key>): IndexDiff {
    if TooLargeForLcs(prev, curr) then ViaBags(prev, curr) else ViaLcs(prev, curr)
  }

  /** An exact diff: positions in document order whose keys are the two bag differences. */
  ghost predicate IsBagDiff(prev: seq<Key>, curr: seq<Key>, d: IndexDiff) {
    && Increasing(d.added) && Within(d.added, 0, |curr|)
    && Increasing(d.removed) && Within(d.removed, 0, |prev|)
    && multiset(KeysAt(curr, d.added)) == multiset(curr) - multiset(prev)
    && multiset(KeysAt(prev, d.removed)) == multiset(prev) - multiset(curr)
  }

  /** The bag difference is one, before and after the (then idle) cancellation pass. */
  lemma SetDiffIsBagDiff(prev: seq<Key>, curr: seq<Key>)
    ensures IsBagDiff(prev, curr, SetDiff(prev, curr))
  {
    SetDiffSorted(prev, curr);
    assert curr[..|curr|] == curr && prev[..|prev|] == prev;
    var d := SetDiff(prev, curr);
    forall k
      ensures multiset(KeysAt(curr, d.added))[k] == Surplus(curr, prev, k)
      ensures multiset(KeysAt(prev, d.removed))[k] == Surplus(prev, curr, k)
    {
      PickedHits(curr, IsAdded(prev, curr), |curr|, k);
      PickedHits(prev, IsRemoved(prev, curr), |prev|, k);
      AddedHits(prev, curr, |curr|, k);
      RemovedHits(prev, curr, |prev|, k);
    }
  }

  /** Cancellation turns any diff that keeps one common sequence into the bag difference. */
  lemma CancelMakesBagDiff(prev: seq<Key>, curr: seq<Key>, d: IndexDiff, kept: multiset<Key>)
    requires Increasing(d.added) && Within(d.added, 0, |curr|)
    requires Increasing(d.removed) && Within(d.removed, 0, |prev|)
    requires multiset(KeysAt(curr, d.added)) + kept == multiset(curr)
    requires multiset(KeysAt(prev, d.removed)) + kept == multiset(prev)
    ensures IsBagDiff(prev, curr, Cancel(d, prev, curr))
  {
    var shared := SharedKeys(d, prev, curr);
    SurvivorsSorted(d.added, curr, shared);
    SurvivorsSorted(d.removed, prev, shared);
    var c := Cancel(d, prev, curr);
    forall k
      ensures multiset(KeysAt(curr, c.added))[k] == Surplus(curr, prev, k)
      ensures multiset(KeysAt(prev, c.removed))[k] == Surplus(prev, curr, k)
    {
      SurvivorsCount(d.added, curr, shared, k);
      SurvivorsCount(d.removed, prev, shared, k);
      assert multiset(curr)[k] == multiset(KeysAt(curr, d.added))[k] + kept[k];
      assert multiset(prev)[k] == multiset(KeysAt(prev, d.removed))[k] + kept[k];
    }
  }

  lemma LcsIsBagDiff(prev: seq<Key>, curr: seq<Key>)
    ensures IsBagDiff(prev, curr, ViaLcs(prev, curr))
  {
    RawDiffInRange(prev, curr);
    var d := Align(prev, curr, 0, 0);
    AlignIsAlignment(prev, curr, 0, 0);
    KeptBag(prev, d.removed, 0);
    KeptBag(curr, d.added, 0);
    assert prev[0..] == prev && curr[0..] == curr;
    CancelMakesBagDiff(prev, curr, d, multiset(Kept(prev, d.removed, 0)));
  }

  lemma BagsAreBagDiff(prev: seq<Key>, curr: seq<Key>)
    ensures IsBagDiff(prev, curr, ViaBags(prev, curr))
  {
    RawDiffInRange(prev, curr);
    SetDiffIsBagDiff(prev, curr);
    CancelMakesBagDiff(prev, curr, SetDiff(prev, curr), multiset(prev) * multiset(curr));
  }

  /** On every page either algorithm reports exactly the bag difference, in document order. */
  lemma BranchesAgree(prev: seq<Key>, curr: seq<Key>)
    ensures IsBagDiff(prev, curr, ViaLcs(prev, curr))
    ensures IsBagDiff(prev, curr, ViaBags(prev, curr))
  {
    LcsIsBagDiff(prev, curr);
    BagsAreBagDiff(prev, curr);
  }

  /** A diff is empty exactly when the page only reordered its blocks. */
  lemma EmptyDiffIffReordering(prev: seq<Key>, curr: seq<Key>)
    ensures DiffIndices(prev, curr) == IndexDiff([], []) <==> multiset(prev) == multiset(curr)
  {
    BranchesAgree(prev, curr);
    var d := DiffIndices(prev, curr);
    if multiset(prev) == multiset(curr) {
      assert |multiset(KeysAt(curr, d.added))| == 0 && |multiset(KeysAt(prev, d.removed))| == 0;
    }
    if d == IndexDiff([], []) {
      assert multiset(curr) - multiset(prev) == multiset{} && multiset(prev) - multiset(curr) == multiset{};
      forall k ensures multiset(prev)[k] == multiset(curr)[k] {
        assert (multiset(curr) - multiset(prev))[k] == 0 && (multiset(prev) - multiset(curr))[k] == 0;
      }
    }
  }

  /** No key is reported both as added and as removed. */
  lemma NothingBothAddedAndRemoved(prev: seq<Key>, curr: seq<Key>, x: nat, y: nat)
    requires x in DiffIndices(prev, curr).added && y in DiffIndices(prev, curr).removed
    ensures x < |curr| && y < |prev| && curr[x] != prev[y]
  {
    BranchesAgree(prev, curr);
    var d := DiffIndices(prev, curr);
    var p :| 0 <= p < |d.added| && d.added[p] == x;
    var q :| 0 <= q < |d.removed| && d.removed[q] == y;
    assert KeysAt(curr, d.added)[p] == curr[x] && KeysAt(prev, d.removed)[q] == prev[y];
    assert curr[x] in multiset(KeysAt(curr, d.added)) && prev[y] in multiset(KeysAt(prev, d.removed));
  }
}
