/** Lists of strings kept free of duplicates: URLs in the crawl history, signatures of boilerplate. */
module DistinctLists {

  ghost predicate Distinct(l: seq<string>) {
    forall i, j :: 0 <= i < j < |l| ==> l[i] != l[j]
  }

  function Elements(l: seq<string>): set<string> {
    set u | u in l
  }

  lemma {:induction false} DistinctSize(l: seq<string>)
    requires Distinct(l)
    ensures |Elements(l)| == |l|
  {
    if l != [] {
      var init, last := l[..|l| - 1], l[|l| - 1];
      DistinctSize(init);
      assert l == init + [last];
      assert last !in init;
      assert Elements(l) == Elements(init) + {last};
    }
  }

  /** The elements of `l` outside `drop`, in order. */
  function Without(l: seq<string>, drop: set<string>): seq<string> {
    if l == [] then []
    else Without(l[..|l| - 1], drop) + (if l[|l| - 1] in drop then [] else [l[|l| - 1]])
  }

  lemma WithoutSnoc(l: seq<string>, u: string, drop: set<string>)
    ensures Without(l + [u], drop) == Without(l, drop) + if u in drop then [] else [u]
  {
    assert (l + [u])[..|l|] == l;
  }

  lemma {:induction false} WithoutMembers(l: seq<string>, drop: set<string>)
    ensures forall u :: u in Without(l, drop) <==> u in l && u !in drop
    ensures |Without(l, drop)| <= |l|
    ensures Distinct(l) ==> Distinct(Without(l, drop))
  {
    if l != [] {
      var init, last := l[..|l| - 1], l[|l| - 1];
      assert l == init + [last];
      WithoutMembers(init, drop);
      if Distinct(l) {
        assert last !in init;
      }
    }
  }

  /** Where the elements of `part` stand in `whole`: one after the other. */
  ghost predicate InOrder(part: seq<string>, whole: seq<string>, at: seq<nat>) {
    && |at| == |part|
    && (forall i | 0 <= i < |at| :: at[i] < |whole| && whole[at[i]] == part[i])
    && (forall i, j | 0 <= i < j < |at| :: at[i] < at[j])
  }

  /** What is left after dropping stands in the order it had. */
  lemma {:induction false} WithoutKeepsOrder(l: seq<string>, drop: set<string>) returns (at: seq<nat>)
    ensures InOrder(Without(l, drop), l, at)
  {
    at := [];
    if l != [] {
      var n := |l| - 1;
      at := WithoutKeepsOrder(l[..n], drop);
      if l[n] !in drop { at := at + [n]; }
    }
  }

  lemma {:induction false} WithoutAll(l: seq<string>, drop: set<string>)
    requires Elements(l) <= drop
    ensures Without(l, drop) == []
  {
    if l != [] {
      var init, last := l[..|l| - 1], l[|l| - 1];
      assert l == init + [last];
      assert last in Elements(l) && Elements(init) <= Elements(l);
      WithoutAll(init, drop);
    }
  }

  /** Appends to `order` each URL it does not hold yet: the closure `add` of `CommitState`. */
  function AddAll(order: seq<string>, urls: seq<string>): seq<string> {
    if urls == [] then order
    else
      var r := AddAll(order, urls[..|urls| - 1]);
      if urls[|urls| - 1] in r then r else r + [urls[|urls| - 1]]
  }

  lemma {:induction false} AddAllFacts(order: seq<string>, urls: seq<string>)
    ensures order <= AddAll(order, urls)
    ensures forall u :: u in AddAll(order, urls) <==> u in order || u in urls
    ensures Distinct(order) ==> Distinct(AddAll(order, urls))
  {
    if urls != [] {
      var init, last := urls[..|urls| - 1], urls[|urls| - 1];
      assert urls == init + [last];
      AddAllFacts(order, init);
    }
  }

  /** No element of `l` before `n` is `u`. */
  ghost predicate FirstAt(l: seq<string>, n: nat, u: string) {
    n < |l| && l[n] == u && forall j | 0 <= j < n :: l[j] != u
  }

  /** Every element of `part` stands in `whole` where it first occurs there, in the same order. */
  ghost predicate FirstPlaces(part: seq<string>, whole: seq<string>, at: seq<nat>) {
    InOrder(part, whole, at) && forall i | 0 <= i < |at| :: FirstAt(whole, at[i], part[i])
  }

  lemma PlaceMore(part: seq<string>, whole: seq<string>, at: seq<nat>, u: string)
    requires FirstPlaces(part, whole, at)
    ensures FirstPlaces(part, whole + [u], at)
    ensures u !in whole ==> FirstPlaces(part + [u], whole + [u], at + [|whole|])
  {
    if u !in whole { assert FirstAt(whole + [u], |whole|, u); }
  }

  /** A list freed of repetitions has each element where it first stood. */
  lemma {:induction false} AddAllTakesFirst(urls: seq<string>) returns (at: seq<nat>)
    ensures FirstPlaces(AddAll([], urls), urls, at)
  {
    at := [];
    if urls != [] {
      var init, last := urls[..|urls| - 1], urls[|urls| - 1];
      assert urls == init + [last];
      at := AddAllTakesFirst(init);
      AddAllFacts([], init);
      PlaceMore(AddAll([], init), init, at, last);
      if last !in AddAll([], init) { at := at + [|init|]; }
    }
  }

  /** Appending URLs that are new and distinct is concatenation. */
  lemma {:induction false} AddAllFresh(order: seq<string>, urls: seq<string>)
    requires Distinct(urls) && forall u :: u in urls ==> u !in order
    ensures AddAll(order, urls) == order + urls
  {
    if urls != [] {
      var init, last := urls[..|urls| - 1], urls[|urls| - 1];
      assert urls == init + [last];
      assert last in urls && last !in init;
      AddAllFresh(order, init);
      assert order + init + [last] == order + urls;
    }
  }

  lemma {:induction false} AddAllConcat(order: seq<string>, a: seq<string>, b: seq<string>)
    ensures AddAll(order, a + b) == AddAll(AddAll(order, a), b)
  {
    if b == [] {
      assert a + b == a;
    } else {
      assert (a + b)[..|a + b| - 1] == a + b[..|b| - 1];
      AddAllConcat(order, a, b[..|b| - 1]);
    }
  }
}
