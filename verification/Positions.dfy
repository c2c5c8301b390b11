/** Index lists over key sequences: what both page-watch diff algorithms pass around. */
module Positions {

  type Key = string

  ghost predicate Increasing(idx: seq<nat>) {
    forall p, q :: 0 <= p < q < |idx| ==> idx[p] < idx[q]
  }

  ghost predicate Within(idx: seq<nat>, lo: nat, hi: nat) {
    forall p :: 0 <= p < |idx| ==> lo <= idx[p] < hi
  }

  /** The keys found at the listed positions, in list order. */
  function KeysAt(keys: seq<Key>, idx: seq<nat>): (r: seq<Key>)
    requires Within(idx, 0, |keys|)
    ensures |r| == |idx|
  {
    seq(|idx|, p requires 0 <= p < |idx| => keys[idx[p]])
  }

  lemma KeysAtSnoc(keys: seq<Key>, idx: seq<nat>, x: nat)
    requires Within(idx, 0, |keys|) && x < |keys|
    ensures Within(idx + [x], 0, |keys|)
    ensures multiset(KeysAt(keys, idx + [x])) == multiset(KeysAt(keys, idx)) + multiset{keys[x]}
  {
    assert KeysAt(keys, idx + [x]) == KeysAt(keys, idx) + [keys[x]];
  }

  lemma KeysAtCons(keys: seq<Key>, x: nat, idx: seq<nat>)
    requires Within(idx, 0, |keys|) && x < |keys|
    ensures Within([x] + idx, 0, |keys|)
    ensures multiset(KeysAt(keys, [x] + idx)) == multiset{keys[x]} + multiset(KeysAt(keys, idx))
  {
    assert KeysAt(keys, [x] + idx) == [keys[x]] + KeysAt(keys, idx);
  }

  /** Counting one key, one position further. */
  lemma CountSnoc(keys: seq<Key>, x: nat, k: Key)
    requires x < |keys|
    ensures multiset(keys[..x + 1])[k] == multiset(keys[..x])[k] + if keys[x] == k then 1 else 0
  {
    assert keys[..x + 1] == keys[..x] + [keys[x]];
  }

  lemma CountSplit(keys: seq<Key>, x: nat, k: Key)
    requires x <= |keys|
    ensures multiset(keys)[k] == multiset(keys[..x])[k] + multiset(keys[x..])[k]
  {
    assert keys == keys[..x] + keys[x..];
  }

  /** What remains of `keys[i..]` once the listed positions are deleted. */
  function Kept(keys: seq<Key>, idx: seq<nat>, i: nat): seq<Key>
    requires i <= |keys|
    decreases |keys| - i
  {
    if i == |keys| then []
    else (if i in idx then [] else [keys[i]]) + Kept(keys, idx, i + 1)
  }

  /** A position already passed has no influence on what is kept. */
  lemma {:induction false} KeptIgnoresEarlier(keys: seq<Key>, x: nat, idx: seq<nat>, i: nat)
    requires x < i <= |keys|
    ensures Kept(keys, [x] + idx, i) == Kept(keys, idx, i)
    decreases |keys| - i
  {
    if i < |keys| {
      KeptIgnoresEarlier(keys, x, idx, i + 1);
      assert i in [x] + idx <==> i in idx;
    }
  }

  lemma LaterPositions(idx: seq<nat>, i: nat, hi: nat)
    requires Increasing(idx) && Within(idx, i, hi)
    ensures idx != [] && idx[0] == i ==> Increasing(idx[1..]) && Within(idx[1..], i + 1, hi)
    ensures idx == [] || idx[0] != i ==> i !in idx && Within(idx, i + 1, hi)
  {
  }

  /** Deleting positions splits the bag of keys into what is deleted and what is kept. */
  lemma {:induction false} KeptBag(keys: seq<Key>, idx: seq<nat>, i: nat)
    requires i <= |keys| && Increasing(idx) && Within(idx, i, |keys|)
    ensures multiset(KeysAt(keys, idx)) + multiset(Kept(keys, idx, i)) == multiset(keys[i..])
    decreases |keys| - i
  {
    if i == |keys| {
      assert idx == [];
      assert keys[i..] == [];
    } else {
      assert keys[i..] == [keys[i]] + keys[i + 1..];
      LaterPositions(idx, i, |keys|);
      if idx != [] && idx[0] == i {
        assert idx == [i] + idx[1..];
        KeptIgnoresEarlier(keys, i, idx[1..], i + 1);
        KeptBag(keys, idx[1..], i + 1);
        KeysAtCons(keys, i, idx[1..]);
      } else {
        KeptBag(keys, idx, i + 1);
      }
    }
  }

  /** Two increasing lists with the same members are the same list. */
  lemma {:induction false} IncreasingUnique(a: seq<nat>, b: seq<nat>)
    requires Increasing(a) && Increasing(b)
    requires forall x :: x in a <==> x in b
    ensures a == b
  {
    if a != [] { assert a[0] in a; }
    if b != [] { assert b[0] in b; }
    if a != [] && b != [] {
      assert a[0] in b && b[0] in a;
      var p :| 0 <= p < |b| && b[p] == a[0];
      var q :| 0 <= q < |a| && a[q] == b[0];
      assert a[0] == b[0];
      forall x ensures x in a[1..] <==> x in b[1..] {
        TailMembers(a, x);
        TailMembers(b, x);
      }
      IncreasingUnique(a[1..], b[1..]);
      assert a == [a[0]] + a[1..];
      assert b == [b[0]] + b[1..];
    }
  }

  lemma TailMembers(a: seq<nat>, x: nat)
    requires Increasing(a) && a != []
    ensures x in a[1..] <==> x in a && x != a[0]
  {
    if x in a[1..] {
      var p :| 0 <= p < |a[1..]| && a[1..][p] == x;
      assert a[p + 1] == x;
    }
    if x in a && x != a[0] {
      var p :| 0 <= p < |a| && a[p] == x;
      assert a[1..][p - 1] == x;
    }
  }

  /** Bag difference: occurrences of `k` in `a` beyond those in `b`. */
  function Surplus(a: seq<Key>, b: seq<Key>, k: Key): nat {
    if multiset(a)[k] > multiset(b)[k] then multiset(a)[k] - multiset(b)[k] else 0
  }
}
