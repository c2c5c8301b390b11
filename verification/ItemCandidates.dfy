/**
 * The first click of web/src/lib/selectorGen.ts: the candidates of all levels above the clicked element,
 * merged, ranked and cut to the few that are offered.
 */
module ItemCandidates {
  import opened Wrappers
  import opened ElementIndex
  import opened SelectorGen

  const MAX_CLICK_ANCESTOR_DEPTH := 8

  // ---------------------------------------------------------------- the levels of a click

  /** `e` and its ancestors, `n` elements at most. */
  function LevelsUp(els: seq<Element>, e: Element, n: nat): (r: seq<Element>)
    requires e in els
    ensures |r| <= n && forall x :: x in r ==> x in els
    decreases n
  {
    if n == 0 then []
    else
      match Parent(els, e)
      case None => [e]
      case Some(p) => [e] + LevelsUp(els, p, n - 1)
  }

  /** The levels are the click and its nearest ancestors, all of them or `n`. */
  lemma {:induction false} LevelsAreAncestors(els: seq<Element>, e: Element, n: nat)
    requires e in els
    ensures
      var r := LevelsUp(els, e, n);
      && (forall i :: 0 <= i < |r| ==> Ancestor(els, e, i) == Some(r[i]))
      && (|r| == n || Ancestor(els, e, |r|).None?)
    decreases n
  {
    if n > 0 && Parent(els, e).Some? {
      LevelsAreAncestors(els, Parent(els, e).value, n - 1);
    }
  }

  /** `cur.parent_id ? idx.byId.get(cur.parent_id) : undefined`. */
  function Up(els: seq<Element>, e: Element): Option<Element> {
    if e.parentId != 0 then ElementIndex.ById(els, e.parentId) else None
  }

  /** What is left of the walk from where it stands. */
  function LevelsFrom(els: seq<Element>, cur: Option<Element>, n: nat): seq<Element>
    requires cur.Some? ==> cur.value in els
  {
    if cur.Some? then LevelsUp(els, cur.value, n) else []
  }

  lemma NextLevel(els: seq<Element>, e: Element, n: nat)
    requires Indexed(els) && e in els && n > 0
    ensures
      var next := Up(els, e);
      && next == Parent(els, e) && (next.Some? ==> next.value in els && next.value.id < e.id)
      && LevelsUp(els, e, n) == [e] + LevelsFrom(els, next, n - 1)
  {
    assert [e] + [] == [e];
  }

  /** One step of the walk moves its element from what is left to what is done. */
  lemma OneLevelUp(els: seq<Element>, all: seq<Element>, levels: seq<Element>, e: Element, n: nat)
    requires Indexed(els) && e in els && n > 0 && all == levels + LevelsFrom(els, Some(e), n)
    ensures
      var next := Up(els, e);
      && (next.Some? ==> next.value in els && next.value.id < e.id)
      && all == levels + [e] + LevelsFrom(els, next, n - 1)
  {
    NextLevel(els, e, n);
  }

  /** The walk up from the click, with its guard against cycles. */
  method ChainUp(els: seq<Element>, clicked: Element, depth: nat) returns (levels: seq<Element>)
    requires Indexed(els) && clicked in els
    ensures levels == LevelsUp(els, clicked, depth)
  {
    ghost var all, left := LevelsUp(els, clicked, depth), depth;
    levels := [];
    var seen: set<nat> := {};
    var cur := Some(clicked);
    while cur.Some? && cur.value.id !in seen && |levels| < depth
      invariant left == depth - |levels|
      invariant cur.Some? ==> cur.value in els
      invariant cur.Some? ==> forall s :: s in seen ==> cur.value.id < s
      invariant all == levels + LevelsFrom(els, cur, left)
      decreases left
    {
      var el := cur.value;
      OneLevelUp(els, all, levels, el, left);
      seen := seen + {el.id};
      levels := levels + [el];
      cur := Up(els, el);
      left := left - 1;
    }
    assert LevelsFrom(els, cur, left) == [];
  }

  // ---------------------------------------------------------------- one candidate per selector

  /** Setting a key of a `Map`: a better score replaces, in place, what the selector had. */
  function Put(list: seq<Scored>, c: Scored): seq<Scored> {
    if list == [] then [c]
    else if list[0].chain == c.chain then [if list[0].score < c.score then c else list[0]] + list[1..]
    else [list[0]] + Put(list[1..], c)
  }

  function Collected(els: seq<Element>, stable: Stable, levels: seq<Element>): seq<Scored> {
    if levels == [] then []
    else
      var before := Collected(els, stable, levels[..|levels| - 1]);
      match ScoredLevel(els, stable, levels[|levels| - 1])
      case None => before
      case Some(c) => Put(before, c)
  }

  ghost predicate DistinctChains(list: seq<Scored>) {
    forall i, j :: 0 <= i < j < |list| ==> list[i].chain != list[j].chain
  }

  /** The list has this selector, with a score at least as good. */
  ghost predicate Represents(list: seq<Scored>, c: Scored) {
    exists x :: x in list && x.chain == c.chain && x.score >= c.score
  }

  lemma PutInFront(x: Scored, rest: seq<Scored>)
    requires DistinctChains(rest) && forall y :: y in rest ==> y.chain != x.chain
    ensures DistinctChains([x] + rest)
  {
  }

  lemma {:induction false} PutFacts(list: seq<Scored>, c: Scored)
    requires DistinctChains(list)
    ensures DistinctChains(Put(list, c))
    ensures forall x :: x in Put(list, c) ==> x in list || x == c
    ensures Represents(Put(list, c), c)
    ensures forall d :: Represents(list, d) ==> Represents(Put(list, c), d)
  {
    var r := Put(list, c);
    if list == [] {
      assert c in r;
    } else {
      var first, rest := list[0], list[1..];
      assert list == [first] + rest;
      if first.chain == c.chain {
        var kept := if first.score < c.score then c else first;
        assert r == [kept] + rest && kept in r;
        forall d | Represents(list, d) ensures Represents(r, d) {
          var x :| x in list && x.chain == d.chain && x.score >= d.score;
          assert x == first || x in r;
        }
      } else {
        PutFacts(rest, c);
        var put := Put(rest, c);
        assert r == [first] + put;
        PutInFront(first, put);
        forall d | Represents(put, d) ensures Represents(r, d) {
          var x :| x in put && x.chain == d.chain && x.score >= d.score;
          assert x in r;
        }
        forall d | Represents(list, d) ensures Represents(r, d) {
          var x :| x in list && x.chain == d.chain && x.score >= d.score;
          assert x == first ==> first in r;
          assert x in rest ==> Represents(rest, d);
        }
      }
    }
  }

  /** Some level of the click is behind this candidate. */
  ghost predicate OfLevel(els: seq<Element>, stable: Stable, levels: seq<Element>, c: Scored) {
    exists e :: e in levels && ScoredLevel(els, stable, e) == Some(c)
  }

  lemma LevelsSnoc(els: seq<Element>, stable: Stable, levels: seq<Element>, c: Scored)
    requires levels != []
    ensures
      var n := |levels| - 1;
      OfLevel(els, stable, levels, c) <==>
      OfLevel(els, stable, levels[..n], c) || ScoredLevel(els, stable, levels[n]) == Some(c)
  {
    assert levels == levels[..|levels| - 1] + [levels[|levels| - 1]];
  }

  /** The list stands for the candidates of these levels. */
  ghost predicate StandsFor(els: seq<Element>, stable: Stable, levels: seq<Element>, list: seq<Scored>) {
    && DistinctChains(list)
    && (forall c :: c in list ==> OfLevel(els, stable, levels, c))
    && (forall c :: OfLevel(els, stable, levels, c) ==> Represents(list, c))
  }

  lemma StandsForOneMore(els: seq<Element>, stable: Stable, levels: seq<Element>, list: seq<Scored>)
    requires levels != [] && StandsFor(els, stable, levels[..|levels| - 1], list)
    ensures
      var last := ScoredLevel(els, stable, levels[|levels| - 1]);
      StandsFor(els, stable, levels, if last.Some? then Put(list, last.value) else list)
  {
    forall c ensures OfLevel(els, stable, levels, c) <==>
      OfLevel(els, stable, levels[..|levels| - 1], c) || ScoredLevel(els, stable, levels[|levels| - 1]) == Some(c)
    {
      LevelsSnoc(els, stable, levels, c);
    }
    var last := ScoredLevel(els, stable, levels[|levels| - 1]);
    if last.Some? { PutFacts(list, last.value); }
  }

  lemma {:induction false} CollectedAre(els: seq<Element>, stable: Stable, levels: seq<Element>)
    ensures StandsFor(els, stable, levels, Collected(els, stable, levels))
  {
    if levels != [] {
      CollectedAre(els, stable, levels[..|levels| - 1]);
      StandsForOneMore(els, stable, levels, Collected(els, stable, levels[..|levels| - 1]));
    }
  }

  // ---------------------------------------------------------------- ranking

  /** Sibling repetition first, then the higher score. */
  predicate Ahead(a: Scored, b: Scored) {
    if a.fromSiblings != b.fromSiblings then a.fromSiblings else a.score > b.score
  }

  /** `c` goes behind everything it is not ahead of. */
  function Insert(list: seq<Scored>, c: Scored): seq<Scored> {
    if list == [] || Ahead(c, list[0]) then [c] + list else [list[0]] + Insert(list[1..], c)
  }

  /** `Array.prototype.sort`, which is stable. */
  function Ranked(list: seq<Scored>): seq<Scored> {
    if list == [] then [] else Insert(Ranked(list[..|list| - 1]), list[|list| - 1])
  }

  ghost predicate InOrder(list: seq<Scored>) {
    forall i, j :: 0 <= i < j < |list| ==> !Ahead(list[j], list[i])
  }

  lemma {:induction false} InsertFacts(list: seq<Scored>, c: Scored)
    requires InOrder(list)
    ensures InOrder(Insert(list, c))
    ensures forall x :: x in Insert(list, c) <==> x in list || x == c
    ensures |Insert(list, c)| == |list| + 1
  {
    if list != [] {
      var first, rest := list[0], list[1..];
      assert list == [first] + rest;
      if !Ahead(c, first) {
        InsertFacts(rest, c);
        var put := Insert(rest, c);
        forall i | 0 <= i < |put| ensures !Ahead(put[i], first) {
          assert put[i] in put;
        }
      }
    }
  }

  lemma {:induction false} InsertKeepsDistinct(list: seq<Scored>, c: Scored)
    requires DistinctChains(list) && InOrder(list) && forall x :: x in list ==> x.chain != c.chain
    ensures DistinctChains(Insert(list, c))
  {
    if list == [] || Ahead(c, list[0]) {
      PutInFront(c, list);
    } else {
      var rest := list[1..];
      InsertKeepsDistinct(rest, c);
      InsertFacts(rest, c);
      assert forall y :: y in rest ==> y.chain != list[0].chain;
      PutInFront(list[0], Insert(rest, c));
    }
  }

  lemma {:induction false} RankedIs(list: seq<Scored>)
    requires DistinctChains(list)
    ensures InOrder(Ranked(list)) && DistinctChains(Ranked(list)) && |Ranked(list)| == |list|
    ensures forall x :: x in Ranked(list) <==> x in list
  {
    if list != [] {
      var n := |list| - 1;
      var init, last := list[..n], list[n];
      assert list == init + [last];
      RankedIs(init);
      InsertFacts(Ranked(init), last);
      InsertKeepsDistinct(Ranked(init), last);
    }
  }

  /** One element of a list stands before another. */
  ghost predicate Precedes(list: seq<Scored>, x: Scored, y: Scored) {
    exists i, j :: 0 <= i < j < |list| && list[i] == x && list[j] == y
  }

  lemma PrecedesInRest(list: seq<Scored>, x: Scored, y: Scored)
    requires list != [] && Precedes(list[1..], x, y)
    ensures Precedes(list, x, y)
  {
    var k, l :| 0 <= k < l < |list[1..]| && list[1..][k] == x && list[1..][l] == y;
    assert list[k + 1] == x && list[l + 1] == y;
  }

  lemma FirstPrecedes(list: seq<Scored>, y: Scored)
    requires list != [] && y in list[1..]
    ensures Precedes(list, list[0], y)
  {
    var k :| 0 <= k < |list[1..]| && list[1..][k] == y;
    assert list[k + 1] == y;
  }

  /** In front of a list in order, `c` is ahead of all of it if it is ahead of the first. */
  lemma InFront(list: seq<Scored>, c: Scored, i: nat, j: nat)
    requires InOrder(list) && i < j < |list| + 1 && (list == [] || Ahead(c, list[0]))
    ensures
      var x, y := ([c] + list)[i], ([c] + list)[j];
      Precedes(list, x, y) || (x == c && Ahead(c, y))
  {
    if i == 0 {
      assert !Ahead(list[j - 1], list[0]);
    } else {
      assert ([c] + list)[i] == list[i - 1] && ([c] + list)[j] == list[j - 1];
    }
  }

  lemma {:induction false} InsertKeepsPlaces(list: seq<Scored>, c: Scored, i: nat, j: nat)
    requires InOrder(list) && i < j < |list| + 1 == |Insert(list, c)|
    ensures
      var x, y := Insert(list, c)[i], Insert(list, c)[j];
      Precedes(list, x, y) || (x in list && y == c) || (x == c && Ahead(c, y))
  {
    if list == [] || Ahead(c, list[0]) {
      InFront(list, c, i, j);
    } else {
      var rest := list[1..];
      var x, y := Insert(list, c)[i], Insert(list, c)[j];
      InsertFacts(rest, c);
      if i == 0 {
        assert y in Insert(rest, c);
        if y in rest { FirstPrecedes(list, y); }
      } else {
        InsertKeepsPlaces(rest, c, i - 1, j - 1);
        if Precedes(rest, x, y) { PrecedesInRest(list, x, y); }
      }
    }
  }

  /** Sorting is stable: what is not ahead keeps the place it had. */
  lemma {:induction false} RankedKeepsPlaces(list: seq<Scored>, i: nat, j: nat)
    requires DistinctChains(list) && i < j < |list| == |Ranked(list)|
    ensures
      var x, y := Ranked(list)[i], Ranked(list)[j];
      Ahead(x, y) || Precedes(list, x, y)
  {
    var n := |list| - 1;
    var init, last := list[..n], list[n];
    assert list == init + [last];
    var x, y := Ranked(list)[i], Ranked(list)[j];
    RankedIs(init);
    InsertKeepsPlaces(Ranked(init), last, i, j);
    if Precedes(Ranked(init), x, y) {
      var k, l :| 0 <= k < l < n && Ranked(init)[k] == x && Ranked(init)[l] == y;
      RankedKeepsPlaces(init, k, l);
      if Precedes(init, x, y) {
        var p, q :| 0 <= p < q < n && init[p] == x && init[q] == y;
        assert list[p] == x && list[q] == y;
      }
    } else if x in Ranked(init) && y == last {
      var p :| 0 <= p < n && init[p] == x;
      assert list[p] == x && list[n] == y;
    }
  }

  /** The candidate of this level has this selector. */
  ghost predicate Yields(els: seq<Element>, stable: Stable, e: Element, chain: Chain) {
    ScoredLevel(els, stable, e).Some? && ScoredLevel(els, stable, e).value.chain == chain
  }

  /** On the way up, `first` comes up at some level, and `second` at none up to it. */
  ghost predicate MetBefore(els: seq<Element>, stable: Stable, levels: seq<Element>, first: Chain, second: Chain) {
    exists a :: 0 <= a < |levels| && Yields(els, stable, levels[a], first)
      && forall b :: 0 <= b <= a ==> !Yields(els, stable, levels[b], second)
  }

  lemma {:induction false} PutKeepsPlaces(list: seq<Scored>, c: Scored)
    ensures |list| <= |Put(list, c)| <= |list| + 1
    ensures forall i :: 0 <= i < |list| ==> Put(list, c)[i].chain == list[i].chain
    ensures |Put(list, c)| > |list| ==> Put(list, c)[|list|] == c && forall x :: x in list ==> x.chain != c.chain
  {
    if list != [] && list[0].chain != c.chain {
      PutKeepsPlaces(list[1..], c);
      assert list == [list[0]] + list[1..];
    }
  }

  /** At most one selector more, and that one new; the others stay where they are. */
  ghost predicate Extends(before: seq<Scored>, list: seq<Scored>) {
    && |before| <= |list| <= |before| + 1
    && (forall i :: 0 <= i < |before| ==> list[i].chain == before[i].chain)
    && (|list| > |before| ==> forall x :: x in before ==> x.chain != list[|before|].chain)
  }

  lemma CollectedExtends(els: seq<Element>, stable: Stable, levels: seq<Element>)
    requires levels != []
    ensures Extends(Collected(els, stable, levels[..|levels| - 1]), Collected(els, stable, levels))
  {
    var last := ScoredLevel(els, stable, levels[|levels| - 1]);
    if last.Some? { PutKeepsPlaces(Collected(els, stable, levels[..|levels| - 1]), last.value); }
  }

  ghost predicate InOrderMet(els: seq<Element>, stable: Stable, levels: seq<Element>, list: seq<Scored>) {
    forall i, j :: 0 <= i < j < |list| ==> MetBefore(els, stable, levels, list[i].chain, list[j].chain)
  }

  lemma ExtendsInOrder(
    els: seq<Element>, stable: Stable, levels: seq<Element>, before: seq<Scored>, list: seq<Scored>)
    requires levels != [] && Extends(before, list)
    requires InOrderMet(els, stable, levels[..|levels| - 1], before)
    requires StandsFor(els, stable, levels[..|levels| - 1], before)
    ensures InOrderMet(els, stable, levels, list)
  {
    forall i, j | 0 <= i < j < |list| ensures MetBefore(els, stable, levels, list[i].chain, list[j].chain) {
      if j == |before| { NewIsMetLast(els, stable, levels[..|levels| - 1], before, i, list[j].chain); }
      MetBeforeMore(els, stable, levels, list[i].chain, list[j].chain);
    }
  }

  /** Selectors are collected in the order in which they are first met. */
  lemma {:induction false} CollectedInOrder(els: seq<Element>, stable: Stable, levels: seq<Element>)
    ensures InOrderMet(els, stable, levels, Collected(els, stable, levels))
  {
    if levels != [] {
      var init := levels[..|levels| - 1];
      CollectedInOrder(els, stable, init);
      CollectedExtends(els, stable, levels);
      CollectedAre(els, stable, init);
      ExtendsInOrder(els, stable, levels, Collected(els, stable, init), Collected(els, stable, levels));
    }
  }

  lemma MetBeforeMore(els: seq<Element>, stable: Stable, levels: seq<Element>, first: Chain, second: Chain)
    requires levels != [] && MetBefore(els, stable, levels[..|levels| - 1], first, second)
    ensures MetBefore(els, stable, levels, first, second)
  {
    var init := levels[..|levels| - 1];
    var a :| 0 <= a < |init| && Yields(els, stable, init[a], first)
      && forall b :: 0 <= b <= a ==> !Yields(els, stable, init[b], second);
    assert levels[a] == init[a];
    forall b | 0 <= b <= a ensures !Yields(els, stable, levels[b], second) { assert levels[b] == init[b]; }
  }

  lemma MetIsRepresented(
    els: seq<Element>, stable: Stable, levels: seq<Element>, list: seq<Scored>, b: nat, chain: Chain)
    requires StandsFor(els, stable, levels, list) && b < |levels| && Yields(els, stable, levels[b], chain)
    ensures exists x :: x in list && x.chain == chain
  {
    var c := ScoredLevel(els, stable, levels[b]).value;
    assert OfLevel(els, stable, levels, c);
    assert Represents(list, c);
  }

  lemma NewIsMetLast(els: seq<Element>, stable: Stable, levels: seq<Element>, list: seq<Scored>, i: nat, chain: Chain)
    requires StandsFor(els, stable, levels, list) && i < |list|
    requires forall x :: x in list ==> x.chain != chain
    ensures MetBefore(els, stable, levels, list[i].chain, chain)
  {
    assert OfLevel(els, stable, levels, list[i]);
    var e :| e in levels && ScoredLevel(els, stable, e) == Some(list[i]);
    var a :| 0 <= a < |levels| && levels[a] == e;
    forall b | 0 <= b <= a && Yields(els, stable, levels[b], chain) ensures false {
      MetIsRepresented(els, stable, levels, list, b, chain);
    }
  }

  // ---------------------------------------------------------------- what is offered

  function Offered(els: seq<Element>, stable: Stable, clicked: Element, max: nat): seq<Scored>
    requires clicked in els
  {
    var ranked := Ranked(Collected(els, stable, LevelsUp(els, clicked, MAX_CLICK_ANCESTOR_DEPTH)));
    if |ranked| <= max then ranked else ranked[..max]
  }

  /** Every candidate of a level is offered, as good or better, or has lost its place to those that are. */
  ghost predicate Considered(offered: seq<Scored>, max: nat, c: Scored) {
    || Represents(offered, c)
    || (|offered| == max && exists x: Scored :: x.chain == c.chain && x.score >= c.score
                                        && forall y :: y in offered ==> !Ahead(x, y))
  }

  /**
   * What the user gets: at most `max` candidates, no selector twice, those from siblings first and then
   * by score; each is the candidate of one of the levels, with the best score its selector has there,
   * and none of the levels is passed over except for lack of room.
   */
  lemma OfferedAre(els: seq<Element>, stable: Stable, clicked: Element, max: nat)
    requires clicked in els
    ensures
      var levels := LevelsUp(els, clicked, MAX_CLICK_ANCESTOR_DEPTH);
      var r := Offered(els, stable, clicked, max);
      && |r| <= max && DistinctChains(r) && InOrder(r)
      && (forall c :: c in r ==> OfLevel(els, stable, levels, c))
      && (forall c, d :: c in r && OfLevel(els, stable, levels, d) && d.chain == c.chain ==> d.score <= c.score)
      && (forall c :: OfLevel(els, stable, levels, c) ==> Considered(r, max, c))
  {
    var levels := LevelsUp(els, clicked, MAX_CLICK_ANCESTOR_DEPTH);
    var list := Collected(els, stable, levels);
    var ranked, r := Ranked(list), Offered(els, stable, clicked, max);
    CollectedAre(els, stable, levels);
    RankedIs(list);
    CutIsBest(ranked, max);
    forall c, d | c in r && OfLevel(els, stable, levels, d) && d.chain == c.chain ensures d.score <= c.score {
      var x :| x in list && x.chain == d.chain && x.score >= d.score;
      SameChain(ranked, x, c);
    }
    forall c | OfLevel(els, stable, levels, c) ensures Considered(r, max, c) {
      var x :| x in list && x.chain == c.chain && x.score >= c.score;
      assert x in ranked;
    }
  }

  lemma SameChain(list: seq<Scored>, a: Scored, b: Scored)
    requires DistinctChains(list) && a in list && b in list && a.chain == b.chain
    ensures a == b
  {
  }

  lemma LaterIsNotAhead(list: seq<Scored>, max: nat, x: Scored, y: Scored)
    requires InOrder(list) && max <= |list| && x in list[max..] && y in list[..max]
    ensures !Ahead(x, y)
  {
    var j :| 0 <= j < |list| - max && list[max..][j] == x;
    var i :| 0 <= i < max && list[..max][i] == y;
    assert list[max + j] == x && list[i] == y;
  }

  /** What is cut off is not ahead of anything that stays. */
  lemma CutIsBest(list: seq<Scored>, max: nat)
    requires InOrder(list)
    ensures
      var r := if |list| <= max then list else list[..max];
      && (forall x :: x in r ==> x in list)
      && forall x :: x in list && x !in r ==> |r| == max && forall y :: y in r ==> !Ahead(x, y)
  {
    if |list| > max {
      assert list == list[..max] + list[max..];
      forall x, y | x in list && x !in list[..max] && y in list[..max] ensures !Ahead(x, y) {
        LaterIsNotAhead(list, max, x, y);
      }
    }
  }

  /**
   * Candidates from siblings come first, then those with the higher score; of two alike in both, the one
   * whose selector is met first on the way up.
   */
  lemma TiesGoToTheCloser(els: seq<Element>, stable: Stable, clicked: Element, max: nat, i: nat, j: nat)
    requires clicked in els && i < j < |Offered(els, stable, clicked, max)|
    ensures
      var levels := LevelsUp(els, clicked, MAX_CLICK_ANCESTOR_DEPTH);
      var r := Offered(els, stable, clicked, max);
      && (r[j].fromSiblings ==> r[i].fromSiblings)
      && (r[i].fromSiblings == r[j].fromSiblings ==> r[i].score >= r[j].score)
      && (r[i].fromSiblings == r[j].fromSiblings && r[i].score == r[j].score ==>
            MetBefore(els, stable, levels, r[i].chain, r[j].chain))
  {
    var levels := LevelsUp(els, clicked, MAX_CLICK_ANCESTOR_DEPTH);
    var list := Collected(els, stable, levels);
    var r := Offered(els, stable, clicked, max);
    CollectedAre(els, stable, levels);
    RankedIs(list);
    RankedKeepsPlaces(list, i, j);
    CollectedInOrder(els, stable, levels);
    if Precedes(list, r[i], r[j]) {
      var p, q :| 0 <= p < q < |list| && list[p] == r[i] && list[q] == r[j];
    }
  }

  /** Each candidate matches the level it was made for, and something else besides. */
  lemma OfferedRepeat(els: seq<Element>, stable: Stable, clicked: Element, max: nat, c: Scored)
    requires Indexed(els) && clicked in els && c in Offered(els, stable, clicked, max)
    ensures |c.matched| >= MIN_REPEAT_COUNT && c.matched == MatchElements(els, stable, c.chain)
    ensures exists e :: e in LevelsUp(els, clicked, MAX_CLICK_ANCESTOR_DEPTH) && e in c.matched
  {
    OfferedAre(els, stable, clicked, max);
    var e :| e in LevelsUp(els, clicked, MAX_CLICK_ANCESTOR_DEPTH) && ScoredLevel(els, stable, e) == Some(c);
    LevelRepeats(els, stable, e);
  }

  /** `generateItemSelectorCandidates`. */
  method GenerateItemCandidates(els: seq<Element>, stable: Stable, clickedId: nat, max: nat)
    returns (r: seq<Scored>)
    requires Indexed(els)
    ensures
      var clicked := ElementIndex.ById(els, clickedId);
      r == if clicked.None? then [] else Offered(els, stable, clicked.value, max)
  {
    var clicked := ElementIndex.ById(els, clickedId);
    if clicked.None? {
      return [];
    }
    var levels := ChainUp(els, clicked.value, MAX_CLICK_ANCESTOR_DEPTH);
    var scored: seq<Scored> := [];
    var i := 0;
    while i < |levels|
      invariant 0 <= i <= |levels| && scored == Collected(els, stable, levels[..i])
    {
      assert levels[..i + 1][..i] == levels[..i];
      assert levels[i] in levels;
      var c := LevelCandidate(els, stable, levels[i]);
      if c.Some? {
        scored := Put(scored, c.value);
      }
      i := i + 1;
    }
    assert levels[..i] == levels;
    var ranked := Ranked(scored);
    r := if |ranked| <= max then ranked else ranked[..max];
  }
}
