/**
 * Which occurrences of repeated keys the diff of internal/extract/pagewatch/diff.go shows: when the
 * bag difference leaves no choice, and a family of pages on which the two algorithms choose
 * differently.
 */
module DiffChoices {
  import opened Positions
  import opened Lcs
  import opened BlockDiff

  // ---------------------------------------------------------------- when there is no choice

  /** The key is as frequent on both sides, or found on one side only. */
  predicate Determined(prev: seq<Key>, curr: seq<Key>, k: Key) {
    var p, c := multiset(prev)[k], multiset(curr)[k];
    p == c || p == 0 || c == 0
  }

  lemma {:induction false} KeptHas(keys: seq<Key>, idx: seq<nat>, i: nat, x: nat)
    requires i <= x < |keys| && x !in idx
    ensures keys[x] in Kept(keys, idx, i)
    decreases x - i
  {
    if i < x { KeptHas(keys, idx, i + 1, x); }
  }

  /** If all occurrences of a key are picked, or none, each position that carries it tells. */
  lemma AllOrNone(keys: seq<Key>, idx: seq<nat>, x: nat)
    requires Increasing(idx) && Within(idx, 0, |keys|) && x < |keys|
    requires var n := multiset(KeysAt(keys, idx))[keys[x]]; n == 0 || n == multiset(keys)[keys[x]]
    ensures x in idx <==> multiset(KeysAt(keys, idx))[keys[x]] > 0
  {
    if x in idx {
      var p :| 0 <= p < |idx| && idx[p] == x;
      assert KeysAt(keys, idx)[p] in multiset(KeysAt(keys, idx));
    } else {
      KeptBag(keys, idx, 0);
      KeptHas(keys, idx, 0, x);
      assert keys[0..] == keys;
      assert keys[x] in multiset(Kept(keys, idx, 0)) && keys[x] in multiset(keys);
    }
  }

  lemma OneChoice(prev: seq<Key>, curr: seq<Key>, d: IndexDiff, e: IndexDiff)
    requires IsBagDiff(prev, curr, d) && IsBagDiff(prev, curr, e)
    requires forall k :: Determined(prev, curr, k)
    ensures d == e
  {
    forall x: nat ensures x in d.added <==> x in e.added {
      if x < |curr| {
        assert Determined(prev, curr, curr[x]);
        AllOrNone(curr, d.added, x);
        AllOrNone(curr, e.added, x);
      }
    }
    IncreasingUnique(d.added, e.added);
    forall x: nat ensures x in d.removed <==> x in e.removed {
      if x < |prev| {
        assert Determined(prev, curr, prev[x]);
        AllOrNone(prev, d.removed, x);
        AllOrNone(prev, e.removed, x);
      }
    }
    IncreasingUnique(d.removed, e.removed);
  }

  /** The other extreme: first occurrences added, last occurrences removed. */
  function Mirrored(prev: seq<Key>, curr: seq<Key>): IndexDiff {
    var d := SetDiff(curr, prev);
    IndexDiff(d.removed, d.added)
  }

  lemma {:induction false} FirstOccurrence(keys: seq<Key>, k: Key) returns (x: nat)
    requires k in keys
    ensures x < |keys| && keys[x] == k && multiset(keys[..x])[k] == 0
  {
    var n := |keys| - 1;
    if k in keys[..n] {
      x := FirstOccurrence(keys[..n], k);
      assert keys[..n][..x] == keys[..x];
    } else {
      x := n;
    }
  }

  /** The first of several occurrences is shown by one extreme and not by the other. */
  lemma FirstTellsApart(prev: seq<Key>, curr: seq<Key>, k: Key)
    requires 0 < multiset(prev)[k] < multiset(curr)[k]
    ensures exists x :: x in AllRemoved(curr, prev) && x !in AllAdded(prev, curr)
  {
    var x := FirstOccurrence(curr, k);
    CountSplit(curr, x + 1, k);
    CountSnoc(curr, x, k);
    PickedMembers(IsRemoved(curr, prev), |curr|, x);
    PickedMembers(IsAdded(prev, curr), |curr|, x);
    assert BagRemoved(curr, prev, x) && !BagAdded(prev, curr, x);
    assert x in AllRemoved(curr, prev) && x !in AllAdded(prev, curr);
  }

  lemma TwoChoices(prev: seq<Key>, curr: seq<Key>, k: Key)
    requires !Determined(prev, curr, k)
    ensures IsBagDiff(prev, curr, SetDiff(prev, curr)) && IsBagDiff(prev, curr, Mirrored(prev, curr))
    ensures SetDiff(prev, curr) != Mirrored(prev, curr)
  {
    SetDiffIsBagDiff(prev, curr);
    SetDiffIsBagDiff(curr, prev);
    if multiset(prev)[k] < multiset(curr)[k] {
      FirstTellsApart(prev, curr, k);
    } else {
      FirstTellsApart(curr, prev, k);
    }
  }

  /** The bag difference fixes the blocks shown exactly when every key is determined. */
  lemma ChoiceIsForcedIff(prev: seq<Key>, curr: seq<Key>)
    ensures (forall d, e :: IsBagDiff(prev, curr, d) && IsBagDiff(prev, curr, e) ==> d == e)
      <==> (forall k :: Determined(prev, curr, k))
  {
    if forall k :: Determined(prev, curr, k) {
      forall d, e | IsBagDiff(prev, curr, d) && IsBagDiff(prev, curr, e) ensures d == e {
        OneChoice(prev, curr, d, e);
      }
    } else {
      var k :| !Determined(prev, curr, k);
      TwoChoices(prev, curr, k);
    }
  }

  /** Then both algorithms show the same blocks. */
  lemma BranchesCoincide(prev: seq<Key>, curr: seq<Key>)
    requires forall k :: Determined(prev, curr, k)
    ensures ViaLcs(prev, curr) == ViaBags(prev, curr)
  {
    BranchesAgree(prev, curr);
    OneChoice(prev, curr, ViaLcs(prev, curr), ViaBags(prev, curr));
  }

  // ---------------------------------------------------------------- a page whose diff depends on its size

  /** Of the blocks `k`, `l`, `k` in front of `tail`, the last two or the first two go. */
  function Longer(k: Key, l: Key, tail: seq<Key>): seq<Key> { [k, l, k] + tail }

  function Shorter(k: Key, tail: seq<Key>): seq<Key> { [k] + tail }

  predicate Fresh(k: Key, l: Key, tail: seq<Key>) { k != l && k !in tail && l !in tail }

  lemma {:induction false} EqualTailsAlign(prev: seq<Key>, curr: seq<Key>, i: nat, j: nat)
    requires i <= |prev| && j <= |curr| && prev[i..] == curr[j..]
    ensures Align(prev, curr, i, j) == IndexDiff([], []) && LcsLen(prev, curr, i, j) == |prev| - i
    decreases |prev| - i
  {
    assert |prev[i..]| == |curr[j..]|;
    if i < |prev| {
      assert prev[i] == prev[i..][0] == curr[j..][0] == curr[j];
      assert prev[i + 1..] == prev[i..][1..] && curr[j + 1..] == curr[j..][1..];
      EqualTailsAlign(prev, curr, i + 1, j + 1);
    }
  }

  /** The alignment keeps the first `k` and drops what follows it. */
  lemma AlignDropsTheLast(k: Key, l: Key, tail: seq<Key>)
    requires Fresh(k, l, tail)
    ensures Align(Longer(k, l, tail), Shorter(k, tail), 0, 0) == IndexDiff([], [1, 2])
  {
    var prev, curr := Longer(k, l, tail), Shorter(k, tail);
    assert prev[3..] == tail && curr[1..] == tail;
    EqualTailsAlign(prev, curr, 3, 1);
    if tail != [] {
      assert curr[1] == tail[0] && tail[0] in tail;
      assert LcsLen(prev, curr, 2, 1) >= |tail|;
    }
    assert Align(prev, curr, 2, 1) == IndexDiff([], [2]);
    assert Align(prev, curr, 1, 1) == IndexDiff([], [1, 2]);
  }

  /** The bag difference drops the first occurrences. */
  lemma BagsDropTheFirst(k: Key, l: Key, tail: seq<Key>)
    requires Fresh(k, l, tail)
    ensures SetDiff(Longer(k, l, tail), Shorter(k, tail)) == IndexDiff([], [0, 1])
  {
    var prev, curr := Longer(k, l, tail), Shorter(k, tail);
    BagsOfBoth(k, l, tail);
    forall y: nat ensures y in AllAdded(prev, curr) <==> y in [] {
      PickedMembers(IsAdded(prev, curr), |curr|, y);
      if y < |curr| { assert Surplus(curr, prev, curr[y]) == 0; }
    }
    forall y: nat ensures y in AllRemoved(prev, curr) <==> y in [0, 1] {
      PickedMembers(IsRemoved(prev, curr), |prev|, y);
      if y < |prev| { RemovedOfLonger(k, l, tail, y); }
    }
    SetDiffSorted(prev, curr);
    IncreasingUnique(AllAdded(prev, curr), []);
    IncreasingUnique(AllRemoved(prev, curr), [0, 1]);
  }

  lemma BagsOfBoth(k: Key, l: Key, tail: seq<Key>)
    ensures multiset(Longer(k, l, tail)) == multiset(Shorter(k, tail)) + multiset{k, l}
    ensures Fresh(k, l, tail) ==> multiset(Shorter(k, tail))[k] == 1 && multiset(Shorter(k, tail))[l] == 0
  {
    assert multiset(tail)[k] > 0 <==> k in tail;
    assert multiset(tail)[l] > 0 <==> l in tail;
  }

  lemma RemovedOfLonger(k: Key, l: Key, tail: seq<Key>, y: nat)
    requires Fresh(k, l, tail) && y < |Longer(k, l, tail)|
    ensures BagRemoved(Longer(k, l, tail), Shorter(k, tail), y) <==> y < 2
  {
    var prev, curr := Longer(k, l, tail), Shorter(k, tail);
    BagsOfBoth(k, l, tail);
    if y < 3 {
      assert prev[..0] == [] && prev[..1] == [k] && prev[..2] == [k, l];
    } else {
      assert prev[y] == tail[y - 3] && prev[y] in tail;
    }
  }

  lemma {:induction false} NoBudgetNoCancelling(idx: seq<nat>, keys: seq<Key>)
    requires Within(idx, 0, |keys|)
    ensures Survivors(idx, keys, multiset{}) == idx
  {
    if idx != [] { NoBudgetNoCancelling(idx[1..], keys); }
  }

  lemma NothingToCancel(prev: seq<Key>, curr: seq<Key>, removed: seq<nat>)
    requires Within(removed, 0, |prev|)
    ensures Cancel(IndexDiff([], removed), prev, curr) == IndexDiff([], removed)
  {
    assert KeysAt(curr, []) == [];
    assert SharedKeys(IndexDiff([], removed), prev, curr) == multiset{};
    NoBudgetNoCancelling(removed, prev);
  }

  /** Up to 2000 blocks the later occurrence is reported as removed, beyond that the earlier one. */
  lemma OccurrenceShownDependsOnSize(k: Key, l: Key, tail: seq<Key>)
    requires Fresh(k, l, tail)
    ensures DiffIndices(Longer(k, l, tail), Shorter(k, tail)) ==
            IndexDiff([], if |tail| + 3 <= LCS_BLOCK_LIMIT then [1, 2] else [0, 1])
  {
    var prev, curr := Longer(k, l, tail), Shorter(k, tail);
    AlignDropsTheLast(k, l, tail);
    BagsDropTheFirst(k, l, tail);
    NothingToCancel(prev, curr, [0, 1]);
    NothingToCancel(prev, curr, [1, 2]);
  }
}
