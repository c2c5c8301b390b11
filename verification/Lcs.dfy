/**
 * The longest-common-subsequence alignment of internal/extract/pagewatch/diff.go.
 *
 * `LcsLen` and `Align` are the plain recursive form; `LcsDiffIdx` is the table-driven form
 * the program runs and refines them. Optimality is stated against `Subsequence`, which
 * knows nothing of either.
 */
module Lcs {
  import opened Positions

  newtype int32 = x: int | -0x8000_0000 <= x < 0x8000_0000

  /** `s` can be obtained from `t` by deleting elements. */
  ghost predicate Subsequence(s: seq<Key>, t: seq<Key>)
    decreases |t|
  {
    s == [] ||
    (t != [] && ((s != [] && s[0] == t[0] && Subsequence(s[1..], t[1..])) || Subsequence(s, t[1..])))
  }

  /** The table's recurrence: the length kept when aligning `prev[i..]` with `curr[j..]`. */
  function LcsLen(prev: seq<Key>, curr: seq<Key>, i: nat, j: nat): (len: nat)
    requires i <= |prev| && j <= |curr|
    ensures len <= |prev| - i && len <= |curr| - j
    decreases |prev| - i + |curr| - j
  {
    if i == |prev| || j == |curr| then 0
    else if prev[i] == curr[j] then 1 + LcsLen(prev, curr, i + 1, j + 1)
    else if LcsLen(prev, curr, i + 1, j) >= LcsLen(prev, curr, i, j + 1) then LcsLen(prev, curr, i + 1, j)
    else LcsLen(prev, curr, i, j + 1)
  }

  datatype IndexDiff = IndexDiff(added: seq<nat>, removed: seq<nat>)

  /** The alignment of `prev[i..]` with `curr[j..]`, as absolute positions that fell out. */
  function Align(prev: seq<Key>, curr: seq<Key>, i: nat, j: nat): (d: IndexDiff)
    requires i <= |prev| && j <= |curr|
    decreases |prev| - i + |curr| - j
  {
    if i == |prev| && j == |curr| then IndexDiff([], [])
    else if j == |curr| then
      var d := Align(prev, curr, i + 1, j);
      IndexDiff(d.added, [i] + d.removed)
    else if i == |prev| then
      var d := Align(prev, curr, i, j + 1);
      IndexDiff([j] + d.added, d.removed)
    else if prev[i] == curr[j] then
      Align(prev, curr, i + 1, j + 1)
    else if LcsLen(prev, curr, i + 1, j) >= LcsLen(prev, curr, i, j + 1) then
      var d := Align(prev, curr, i + 1, j);
      IndexDiff(d.added, [i] + d.removed)
    else
      var d := Align(prev, curr, i, j + 1);
      IndexDiff([j] + d.added, d.removed)
  }

  /** No common subsequence is longer than `LcsLen`. */
  lemma {:induction false} LcsLenIsUpperBound(s: seq<Key>, prev: seq<Key>, curr: seq<Key>, i: nat, j: nat)
    requires i <= |prev| && j <= |curr|
    requires Subsequence(s, prev[i..]) && Subsequence(s, curr[j..])
    ensures |s| <= LcsLen(prev, curr, i, j)
    decreases |prev| - i + |curr| - j
  {
    if s == [] || i == |prev| || j == |curr| {
    } else {
      assert prev[i..][1..] == prev[i + 1..] && curr[j..][1..] == curr[j + 1..];
      if prev[i] == curr[j] {
        SubsequenceTails(s, prev[i..]);
        SubsequenceTails(s, curr[j..]);
        LcsLenIsUpperBound(s[1..], prev, curr, i + 1, j + 1);
      } else if s[0] != prev[i] {
        LcsLenIsUpperBound(s, prev, curr, i + 1, j);
      } else {
        LcsLenIsUpperBound(s, prev, curr, i, j + 1);
      }
    }
  }

  lemma {:induction false} SubsequenceTails(s: seq<Key>, t: seq<Key>)
    requires s != [] && t != [] && Subsequence(s, t)
    ensures Subsequence(s[1..], t[1..])
    decreases |t|
  {
    if Subsequence(s, t[1..]) && t[1..] != [] {
      SubsequenceTails(s, t[1..]);
      assert Subsequence(s[1..], t[1..]);
    }
  }

  /** Deleting positions leaves a subsequence. */
  lemma {:induction false} KeptIsSubsequence(keys: seq<Key>, idx: seq<nat>, i: nat)
    requires i <= |keys|
    ensures Subsequence(Kept(keys, idx, i), keys[i..])
    decreases |keys| - i
  {
    if i < |keys| {
      KeptIsSubsequence(keys, idx, i + 1);
      assert keys[i..][1..] == keys[i + 1..];
      var rest := Kept(keys, idx, i + 1);
      if i !in idx {
        assert ([keys[i]] + rest)[1..] == rest;
      } else {
        assert [] + rest == rest;
      }
    }
  }

  /** What an alignment is: sorted positions whose deletion leaves the same longest sequence. */
  ghost predicate IsAlignment(prev: seq<Key>, curr: seq<Key>, d: IndexDiff, i: nat, j: nat)
    requires i <= |prev| && j <= |curr|
  {
    && Increasing(d.added) && Within(d.added, j, |curr|)
    && Increasing(d.removed) && Within(d.removed, i, |prev|)
    && Kept(prev, d.removed, i) == Kept(curr, d.added, j)
  }

  lemma ExtendRemoved(prev: seq<Key>, curr: seq<Key>, d: IndexDiff, i: nat, j: nat)
    requires i < |prev| && j <= |curr| && IsAlignment(prev, curr, d, i + 1, j)
    ensures IsAlignment(prev, curr, IndexDiff(d.added, [i] + d.removed), i, j)
    ensures Kept(prev, [i] + d.removed, i) == Kept(prev, d.removed, i + 1)
  {
    KeptIgnoresEarlier(prev, i, d.removed, i + 1);
    assert i in [i] + d.removed;
  }

  lemma ExtendAdded(prev: seq<Key>, curr: seq<Key>, d: IndexDiff, i: nat, j: nat)
    requires i <= |prev| && j < |curr| && IsAlignment(prev, curr, d, i, j + 1)
    ensures IsAlignment(prev, curr, IndexDiff([j] + d.added, d.removed), i, j)
  {
    KeptIgnoresEarlier(curr, j, d.added, j + 1);
    assert j in [j] + d.added;
  }

  lemma ExtendMatch(prev: seq<Key>, curr: seq<Key>, d: IndexDiff, i: nat, j: nat)
    requires i < |prev| && j < |curr| && prev[i] == curr[j] && IsAlignment(prev, curr, d, i + 1, j + 1)
    ensures IsAlignment(prev, curr, d, i, j)
    ensures |Kept(prev, d.removed, i)| == 1 + |Kept(prev, d.removed, i + 1)|
  {
    assert i !in d.removed && j !in d.added;
  }

  lemma {:induction false} AlignIsAlignment(prev: seq<Key>, curr: seq<Key>, i: nat, j: nat)
    requires i <= |prev| && j <= |curr|
    ensures IsAlignment(prev, curr, Align(prev, curr, i, j), i, j)
    ensures |Kept(prev, Align(prev, curr, i, j).removed, i)| == LcsLen(prev, curr, i, j)
    decreases |prev| - i + |curr| - j
  {
    if i == |prev| && j == |curr| {
    } else if i < |prev| && j < |curr| && prev[i] == curr[j] {
      AlignIsAlignment(prev, curr, i + 1, j + 1);
      ExtendMatch(prev, curr, Align(prev, curr, i + 1, j + 1), i, j);
    } else if j == |curr| ||
              (i < |prev| && LcsLen(prev, curr, i + 1, j) >= LcsLen(prev, curr, i, j + 1)) {
      AlignIsAlignment(prev, curr, i + 1, j);
      ExtendRemoved(prev, curr, Align(prev, curr, i + 1, j), i, j);
    } else {
      AlignIsAlignment(prev, curr, i, j + 1);
      ExtendAdded(prev, curr, Align(prev, curr, i, j + 1), i, j);
    }
  }

  /** The alignment keeps a common subsequence that no other common subsequence exceeds. */
  lemma {:induction false} AlignIsOptimal(prev: seq<Key>, curr: seq<Key>, s: seq<Key>)
    requires Subsequence(s, prev) && Subsequence(s, curr)
    ensures
      var d := Align(prev, curr, 0, 0);
      var kept := Kept(prev, d.removed, 0);
      && kept == Kept(curr, d.added, 0)
      && Subsequence(kept, prev) && Subsequence(kept, curr)
      && |s| <= |kept|
  {
    var d := Align(prev, curr, 0, 0);
    AlignIsAlignment(prev, curr, 0, 0);
    assert prev[0..] == prev && curr[0..] == curr;
    LcsLenIsUpperBound(s, prev, curr, 0, 0);
    KeptIsSubsequence(prev, d.removed, 0);
    KeptIsSubsequence(curr, d.added, 0);
  }

  /** The table is right from row `i` on. */
  ghost predicate RowsDone(dp: array2<int32>, prev: seq<Key>, curr: seq<Key>, i: nat)
    requires dp.Length0 == |prev| + 1 && dp.Length1 == |curr| + 1
    reads dp
  {
    forall a, b :: i <= a <= |prev| && 0 <= b <= |curr| ==> dp[a, b] as int == LcsLen(prev, curr, a, b)
  }

  method FillRow(dp: array2<int32>, prev: seq<Key>, curr: seq<Key>, i: nat)
    requires |prev| < 0x8000_0000 || |curr| < 0x8000_0000
    requires dp.Length0 == |prev| + 1 && dp.Length1 == |curr| + 1
    requires i < |prev| && RowsDone(dp, prev, curr, i + 1) && dp[i, |curr|] == 0
    modifies dp
    ensures RowsDone(dp, prev, curr, i)
    ensures forall a, b :: 0 <= a < i && 0 <= b <= |curr| ==> dp[a, b] == old(dp[a, b])
  {
    var j := |curr|;
    while j > 0
      invariant 0 <= j <= |curr|
      invariant RowsDone(dp, prev, curr, i + 1)
      invariant forall b :: j <= b <= |curr| ==> dp[i, b] as int == LcsLen(prev, curr, i, b)
      invariant forall a, b :: 0 <= a < i && 0 <= b <= |curr| ==> dp[a, b] == old(dp[a, b])
    {
      j := j - 1;
      var cell: int32;
      if prev[i] == curr[j] {
        assert LcsLen(prev, curr, i, j) == LcsLen(prev, curr, i + 1, j + 1) + 1;
        cell := dp[i + 1, j + 1] + 1;
      } else if dp[i + 1, j] >= dp[i, j + 1] {
        cell := dp[i + 1, j];
      } else {
        cell := dp[i, j + 1];
      }
      assert cell as int == LcsLen(prev, curr, i, j);
      dp[i, j] := cell;
    }
  }

  method FillTable(prev: seq<Key>, curr: seq<Key>) returns (dp: array2<int32>)
    requires |prev| < 0x8000_0000 || |curr| < 0x8000_0000
    ensures fresh(dp)
    ensures dp.Length0 == |prev| + 1 && dp.Length1 == |curr| + 1
    ensures RowsDone(dp, prev, curr, 0)
  {
    var n, m := |prev|, |curr|;
    dp := new int32[n + 1, m + 1]((_, _) => 0);
    var i := n;
    while i > 0
      invariant 0 <= i <= n
      invariant forall a, b :: 0 <= a < i && 0 <= b <= m ==> dp[a, b] == 0
      invariant RowsDone(dp, prev, curr, i)
    {
      i := i - 1;
      FillRow(dp, prev, curr, i);
    }
  }

  lemma Snoc(acc: seq<nat>, x: nat, rest: seq<nat>)
    ensures (acc + [x]) + rest == acc + ([x] + rest)
  {
  }

  /** The program's alignment: fill the table backwards, then walk it forwards. */
  method LcsDiffIdx(prev: seq<Key>, curr: seq<Key>) returns (d: IndexDiff)
    requires |prev| < 0x8000_0000 || |curr| < 0x8000_0000
    ensures d == Align(prev, curr, 0, 0)
  {
    var n, m := |prev|, |curr|;
    var dp := FillTable(prev, curr);
    var added: seq<nat>, removed: seq<nat> := [], [];
    var i, j := 0, 0;
    ghost var whole := Align(prev, curr, 0, 0);
    while i < n && j < m
      invariant 0 <= i <= n && 0 <= j <= m
      invariant RowsDone(dp, prev, curr, 0)
      invariant added + Align(prev, curr, i, j).added == whole.added
      invariant removed + Align(prev, curr, i, j).removed == whole.removed
    {
      if prev[i] == curr[j] {
        i, j := i + 1, j + 1;
      } else if dp[i + 1, j] >= dp[i, j + 1] {
        Snoc(removed, i, Align(prev, curr, i + 1, j).removed);
        removed := removed + [i];
        i := i + 1;
      } else {
        Snoc(added, j, Align(prev, curr, i, j + 1).added);
        added := added + [j];
        j := j + 1;
      }
    }
    while i < n
      invariant 0 <= i <= n && 0 <= j <= m && (i < n ==> j == m)
      invariant added + Align(prev, curr, i, j).added == whole.added
      invariant removed + Align(prev, curr, i, j).removed == whole.removed
    {
      Snoc(removed, i, Align(prev, curr, i + 1, j).removed);
      removed := removed + [i];
      i := i + 1;
    }
    while j < m
      invariant 0 <= j <= m && i == n
      invariant added + Align(prev, curr, i, j).added == whole.added
      invariant removed + Align(prev, curr, i, j).removed == whole.removed
    {
      Snoc(added, j, Align(prev, curr, i, j + 1).added);
      added := added + [j];
      j := j + 1;
    }
    d := IndexDiff(added, removed);
  }
}
