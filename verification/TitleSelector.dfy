/**
 * The second click of web/src/lib/selectorGen.ts, on the title inside an item, and what the crawler
 * (internal/extract/selector/selector.go) makes of the selector it produces.
 */
module TitleSelector {
  import opened Wrappers
  import opened ElementIndex
  import opened SelectorGen

  function Restrict(els: seq<Element>, ids: set<nat>): (r: seq<Element>)
    ensures forall e :: e in r <==> e in els && e.id in ids
  {
    if els == [] then []
    else (if els[0].id in ids then [els[0]] else []) + Restrict(els[1..], ids)
  }

  function Inside(els: seq<Element>, item: Element): seq<Element>
    requires Indexed(els)
  {
    Restrict(els, SubtreeIds(els, item.id))
  }

  /** Restricting the index to a subtree keeps exactly the elements below its root, and the root. */
  lemma RestrictIsSubtree(els: seq<Element>, item: Element, e: Element)
    requires Indexed(els) && item in els && e in els
    ensures e in Inside(els, item) <==> Descends(els, e, item.id)
  {
    if e.id in SubtreeIds(els, item.id) {
      var x :| x in els && Descends(els, x, item.id) && x.id == e.id;
      IdsIdentify(els, x, e);
    }
  }

  /** Strictly below the item. */
  predicate Below(els: seq<Element>, e: Element, item: Element)
    requires Indexed(els)
  {
    e in els && e != item && Descends(els, e, item.id)
  }

  datatype Candidate = Candidate(compound: Compound, matched: set<Element>)

  /** The clicked element's plain compound if that is unique, else the one pinned by position. */
  function PlainOrPinnedOf(sub: seq<Element>, stable: Stable, clicked: Element): Candidate
    requires clicked in sub
  {
    var base := Plain(stable, clicked);
    var c := if Unique(sub, stable, [base]) then base else WithNth(base, NthOfType(sub, clicked));
    Candidate(c, MatchElements(sub, stable, [c]))
  }

  method PlainOrPinned(sub: seq<Element>, stable: Stable, clicked: Element) returns (r: Candidate)
    requires clicked in sub
    ensures clicked in r.matched && r == PlainOrPinnedOf(sub, stable, clicked)
  {
    var base := Plain(stable, clicked);
    var plain := MatchElements(sub, stable, [base]);
    if |plain| == 1 {
      r := Candidate(base, plain);
    } else {
      var pinned := WithNth(base, NthOfType(sub, clicked));
      r := Candidate(pinned, MatchElements(sub, stable, [pinned]));
    }
    SingleCompound(sub, stable, clicked, r.compound);
  }

  /** Relative to one item: plain if that is unique inside the item, pinned by position if not. */
  method TitleCandidate(els: seq<Element>, stable: Stable, item: Element, clicked: Element)
    returns (r: Option<Candidate>)
    requires Indexed(els) && item in els && clicked in els
    ensures r.None? <==> !Below(els, clicked, item)
    ensures r.Some? ==> clicked in Inside(els, item) && r.value == PlainOrPinnedOf(Inside(els, item), stable, clicked)
    ensures r.Some? ==> clicked in r.value.matched
    ensures r.Some? ==> forall e :: e in r.value.matched ==> e == item || Below(els, e, item)
    ensures r.Some? && |r.value.matched| != 1 ==> r.value.compound.ByTag? && r.value.compound.nth.Some?
  {
    if clicked.id == item.id {
      IdsIdentify(els, clicked, item);
      return None;
    }
    var inside := IsDescendantOrSelf(els, clicked, item.id);
    if !inside {
      return None;
    }
    var ids := CollectSubtreeIds(els, item);
    var sub := Restrict(els, ids);
    RestrictIsSubtree(els, item, clicked);
    var c := PlainOrPinned(sub, stable, clicked);
    r := Some(c);
    forall e | e in c.matched ensures e == item || Below(els, e, item) {
      RestrictIsSubtree(els, item, e);
    }
  }

  // ---------------------------------------------------------------- positions inside an item

  /** Below the item the same siblings are seen as in the whole page. */
  lemma {:induction false} SiblingsInside(els: seq<Element>, ids: set<nat>, id: nat)
    requires forall c :: c in els && c.parentId == id ==> c.id in ids
    ensures Children(Restrict(els, ids), id) == Children(els, id)
  {
    if els != [] {
      SiblingsInside(els[1..], ids, id);
      var rest := Restrict(els[1..], ids);
      assert ([els[0]] + rest)[1..] == rest && [] + rest == rest;
    }
  }

  lemma ChildrenAreBelow(els: seq<Element>, item: Element, e: Element, c: Element)
    requires Indexed(els) && item in els && Below(els, e, item) && c in els && c.parentId == e.parentId
    ensures c.id in SubtreeIds(els, item.id)
  {
    if e.id == item.id {
      IdsIdentify(els, e, item);
    }
    assert Parent(els, c) == Parent(els, e);
    assert Descends(els, c, item.id);
  }

  lemma {:induction false} OnlyChild(els: seq<Element>, ids: set<nat>, item: Element)
    requires Indexed(els) && item in els && item.id in ids
    requires forall c :: c in els && c.parentId == item.parentId && c.id in ids ==> c == item
    ensures Children(Restrict(els, ids), item.parentId) == [item]
  {
    var kids := Children(Restrict(els, ids), item.parentId);
    RestrictIsIndexed(els, ids);
    ChildrenIndexed(Restrict(els, ids), item.parentId);
    assert |kids| > 1 ==> kids[0].id < kids[1].id;
    assert item in kids;
    forall i | 0 <= i < |kids| ensures kids[i] == item {
      assert kids[i] in kids;
    }
  }

  lemma {:induction false} RestrictIsIndexed(els: seq<Element>, ids: set<nat>)
    requires Indexed(els)
    ensures Indexed(Restrict(els, ids))
  {
    if els != [] {
      RestrictIsIndexed(els[1..], ids);
      var rest := Restrict(els[1..], ids);
      forall i | 0 <= i < |rest| ensures els[0].id < rest[i].id {
        assert rest[i] in els[1..];
      }
      if els[0].id in ids { PrependIndexed(els[0], rest); }
    }
  }

  lemma PrependIndexed(e: Element, rest: seq<Element>)
    requires Indexed(rest) && e.parentId < e.id && forall i :: 0 <= i < |rest| ==> e.id < rest[i].id
    ensures Indexed([e] + rest)
  {
  }

  /** No other element of the subtree has the item's parent. */
  lemma ItemIsAlone(els: seq<Element>, item: Element, c: Element)
    requires Indexed(els) && item in els && c in els
    requires c.parentId == item.parentId && c.id in SubtreeIds(els, item.id)
    ensures c == item
  {
    var x :| x in els && Descends(els, x, item.id) && x.id == c.id;
    IdsIdentify(els, x, c);
    if c.id == item.id {
      IdsIdentify(els, c, item);
    } else {
      DescendsDown(els, Parent(els, c).value, item.id);
    }
  }

  /** Inside an item, positions are those of the page, but the item itself always counts as the first. */
  lemma PositionInside(els: seq<Element>, item: Element, e: Element)
    requires Indexed(els) && item in els && (e == item || Below(els, e, item))
    ensures NthOfType(Inside(els, item), e) == if e == item then 1 else NthOfType(els, e)
  {
    var ids := SubtreeIds(els, item.id);
    if e == item {
      forall c | c in els && c.parentId == item.parentId && c.id in ids ensures c == item {
        ItemIsAlone(els, item, c);
      }
      OnlyChild(els, ids, item);
    } else {
      forall c | c in els && c.parentId == e.parentId ensures c.id in ids {
        ChildrenAreBelow(els, item, e, c);
      }
      SiblingsInside(els, ids, e.parentId);
    }
  }

  // ---------------------------------------------------------------- is the title singled out?

  /** The clicked element's tag and all its stable classes. */
  predicate Like(stable: Stable, e: Element, clicked: Element) {
    e.tag == clicked.tag && StableClasses(stable, clicked) <= StableClasses(stable, e)
  }

  /** Nothing else inside the item looks like the clicked element. */
  predicate OneOfAKind(els: seq<Element>, stable: Stable, item: Element, clicked: Element)
    requires Indexed(els)
  {
    && !Like(stable, item, clicked)
    && forall e :: e in els && Below(els, e, item) && Like(stable, e, clicked) ==> e == clicked
  }

  lemma SingletonIff(s: set<Element>, x: Element)
    requires x in s
    ensures |s| == 1 <==> s == {x}
    ensures s == {x} <==> forall y :: y in s ==> y == x
  {
    if |s| == 1 {
      assert |s - {x}| == 0;
      assert s == {x};
    }
  }

  lemma PlainMatchesInside(els: seq<Element>, stable: Stable, item: Element, clicked: Element, e: Element)
    requires Indexed(els) && item in els
    ensures e in MatchElements(Inside(els, item), stable, [Plain(stable, clicked)]) <==>
            (e == item || Below(els, e, item)) && Like(stable, e, clicked)
  {
    SingleCompound(Inside(els, item), stable, e, Plain(stable, clicked));
    if e in els { RestrictIsSubtree(els, item, e); }
  }

  lemma PinnedMatchesInside(els: seq<Element>, stable: Stable, item: Element, clicked: Element, e: Element)
    requires Indexed(els) && item in els && Below(els, clicked, item)
    ensures
      var inside := Inside(els, item);
      e in MatchElements(inside, stable, [WithNth(Plain(stable, clicked), NthOfType(inside, clicked))]) <==>
      && (e == item || Below(els, e, item)) && Like(stable, e, clicked)
      && NthOfType(els, clicked) == if e == item then 1 else NthOfType(els, e)
  {
    var inside := Inside(els, item);
    SingleCompound(inside, stable, e, WithNth(Plain(stable, clicked), NthOfType(inside, clicked)));
    if e in els { RestrictIsSubtree(els, item, e); }
    PositionInside(els, item, clicked);
    if e == item || Below(els, e, item) { PositionInside(els, item, e); }
  }

  lemma PlainIsUniqueIff(els: seq<Element>, stable: Stable, item: Element, clicked: Element)
    requires Indexed(els) && item in els && Below(els, clicked, item)
    ensures Unique(Inside(els, item), stable, [Plain(stable, clicked)]) <==> OneOfAKind(els, stable, item, clicked)
  {
    var s := MatchElements(Inside(els, item), stable, [Plain(stable, clicked)]);
    forall e ensures e in s <==> (e == item || Below(els, e, item)) && Like(stable, e, clicked) {
      PlainMatchesInside(els, stable, item, clicked, e);
    }
    SingletonIff(s, clicked);
    if s == {clicked} {
      assert item !in s;
    }
  }

  /** Some other element inside the item shares the clicked one's look and its place among siblings. */
  ghost predicate Confused(els: seq<Element>, stable: Stable, item: Element, clicked: Element)
    requires Indexed(els)
  {
    || (Like(stable, item, clicked) && NthOfType(els, clicked) == 1)
    || exists e :: e in els && Below(els, e, item) && e != clicked && Like(stable, e, clicked)
                   && NthOfType(els, e) == NthOfType(els, clicked)
  }

  /**
   * The selector singles the clicked element out, in the preview, exactly unless some other element
   * below the item looks like it at the same position, or the item does and it is the first of its type.
   */
  lemma TitleIsUniqueIff(els: seq<Element>, stable: Stable, item: Element, clicked: Element)
    requires Indexed(els) && item in els && Below(els, clicked, item)
    ensures clicked in Inside(els, item)
    ensures PlainOrPinnedOf(Inside(els, item), stable, clicked).matched == {clicked} <==>
            !Confused(els, stable, item, clicked)
  {
    RestrictIsSubtree(els, item, clicked);
    PlainIsUniqueIff(els, stable, item, clicked);
    var inside := Inside(els, item);
    var s := PlainOrPinnedOf(inside, stable, clicked).matched;
    if OneOfAKind(els, stable, item, clicked) {
      PlainMatchesInside(els, stable, item, clicked, clicked);
      SingletonIff(s, clicked);
    } else {
      forall e ensures e in s <==>
        && (e == item || Below(els, e, item)) && Like(stable, e, clicked)
        && NthOfType(els, clicked) == if e == item then 1 else NthOfType(els, e)
      {
        PinnedMatchesInside(els, stable, item, clicked, e);
      }
      SingletonIff(s, clicked);
      if s == {clicked} { assert item !in s; }
    }
  }

  // ---------------------------------------------------------------- what the crawler finds

  /** The first match in document order. */
  function FirstMatch(els: seq<Element>, stable: Stable, c: Compound, among: seq<Element>): (r: Option<Element>)
    ensures r.Some? ==> r.value in among && CompoundMatches(els, stable, r.value, c)
  {
    if among == [] then None
    else if CompoundMatches(els, stable, among[0], c) then Some(among[0])
    else FirstMatch(els, stable, c, among[1..])
  }

  /** `matchOrDescendant`: the item itself comes first, at its place in the page. */
  function MatchOrDescendant(els: seq<Element>, stable: Stable, item: Element, c: Compound): Option<Element>
    requires Indexed(els)
  {
    if CompoundMatches(els, stable, item, c) then Some(item) else FirstMatch(els, stable, c, Inside(els, item))
  }

  lemma {:induction false} FirstMatchIs(els: seq<Element>, stable: Stable, c: Compound, among: seq<Element>, x: Element)
    requires Indexed(among) && x in among
    ensures FirstMatch(els, stable, c, among) == Some(x) <==>
      && CompoundMatches(els, stable, x, c)
      && forall y :: y in among && y.id < x.id ==> !CompoundMatches(els, stable, y, c)
  {
    if x == among[0] {
      assert forall y :: y in among ==> among[0].id <= y.id;
      assert forall y :: y in among[1..] ==> among[0].id < y.id;
    } else {
      assert x in among[1..] && among[0].id < x.id;
      assert forall y :: y in among <==> y == among[0] || y in among[1..];
      FirstMatchIs(els, stable, c, among[1..], x);
    }
  }

  /** The crawler stops before it gets to the clicked element. */
  ghost predicate Shadowed(els: seq<Element>, stable: Stable, item: Element, clicked: Element)
    requires Indexed(els)
  {
    || (Like(stable, item, clicked) && NthOfType(els, item) == NthOfType(els, clicked))
    || exists e :: e in els && Below(els, e, item) && e.id < clicked.id && Like(stable, e, clicked)
                   && NthOfType(els, e) == NthOfType(els, clicked)
  }

  lemma CompoundOfTitle(els: seq<Element>, stable: Stable, item: Element, clicked: Element, e: Element)
    requires Indexed(els) && item in els && Below(els, clicked, item) && clicked in Inside(els, item)
    ensures
      var c := PlainOrPinnedOf(Inside(els, item), stable, clicked).compound;
      CompoundMatches(els, stable, e, c) <==>
        && Like(stable, e, clicked)
        && (OneOfAKind(els, stable, item, clicked) || NthOfType(els, e) == NthOfType(els, clicked))
  {
    PlainIsUniqueIff(els, stable, item, clicked);
    PositionInside(els, item, clicked);
  }

  /** Applied to the item it was made for, the selector finds the clicked element exactly if that is not shadowed. */
  lemma TitleIsFoundIff(els: seq<Element>, stable: Stable, item: Element, clicked: Element)
    requires Indexed(els) && item in els && Below(els, clicked, item)
    ensures clicked in Inside(els, item)
    ensures
      var c := PlainOrPinnedOf(Inside(els, item), stable, clicked).compound;
      MatchOrDescendant(els, stable, item, c) == Some(clicked) <==> !Shadowed(els, stable, item, clicked)
  {
    RestrictIsSubtree(els, item, clicked);
    var inside := Inside(els, item);
    var c := PlainOrPinnedOf(inside, stable, clicked).compound;
    CompoundOfTitle(els, stable, item, clicked, clicked);
    CompoundOfTitle(els, stable, item, clicked, item);
    RestrictIsIndexed(els, SubtreeIds(els, item.id));
    FirstMatchIs(els, stable, c, inside, clicked);
    forall e | e in els ensures e in inside <==> e == item || Below(els, e, item) {
      RestrictIsSubtree(els, item, e);
    }
    forall e | e in inside
      ensures CompoundMatches(els, stable, e, c) <==>
        && Like(stable, e, clicked)
        && (OneOfAKind(els, stable, item, clicked) || NthOfType(els, e) == NthOfType(els, clicked))
    {
      CompoundOfTitle(els, stable, item, clicked, e);
    }
  }

  /** A selector unique in the preview still misses the title when the item answers to it in the page. */
  lemma PreviewIsRightIff(els: seq<Element>, stable: Stable, item: Element, clicked: Element)
    requires Indexed(els) && item in els && Below(els, clicked, item) && clicked in Inside(els, item)
    requires PlainOrPinnedOf(Inside(els, item), stable, clicked).matched == {clicked}
    ensures
      var c := PlainOrPinnedOf(Inside(els, item), stable, clicked).compound;
      MatchOrDescendant(els, stable, item, c) == Some(clicked) <==>
      !(Like(stable, item, clicked) && NthOfType(els, item) == NthOfType(els, clicked))
  {
    TitleIsUniqueIff(els, stable, item, clicked);
    TitleIsFoundIff(els, stable, item, clicked);
  }

  function Box(id: nat, parentId: nat): Element { Element(id, "div", ["a"], "", parentId) }

  /** An item and its only child, alike: the item itself is among the matches, and is taken for the title. */
  lemma ItemAnswersForItsChild(els: seq<Element>, stable: Stable, item: Element, child: Element)
    requires els == [item, child] && item == Box(1, 0) && child == Box(2, 1)
    ensures Indexed(els) && child in Inside(els, item)
    ensures
      var r := PlainOrPinnedOf(Inside(els, item), stable, child);
      item in r.matched && MatchOrDescendant(els, stable, item, r.compound) == Some(item)
  {
    assert item in els && child in els;
    IdsIdentify(els, item, Parent(els, child).value);
    RestrictIsSubtree(els, item, child);
    assert els == [item] + ([child] + []);
    ChildrenCons(child, [], 1);
    ChildrenCons(item, [child] + [], 1);
    ChildrenCons(child, [], 0);
    ChildrenCons(item, [child] + [], 0);
    assert Like(stable, item, child);
    PlainIsUniqueIff(els, stable, item, child);
    PinnedMatchesInside(els, stable, item, child, item);
    CompoundOfTitle(els, stable, item, child, item);
  }

  lemma ChildrenCons(e: Element, els: seq<Element>, id: nat)
    ensures Children([e] + els, id) == (if e.parentId == id then [e] else []) + Children(els, id)
  {
    assert ([e] + els)[1..] == els && [] + Children(els, id) == Children(els, id);
  }

  lemma TwoSiblings(els: seq<Element>, a: Element, b: Element)
    requires Children(els, a.parentId) == [a, b] && a.tag == b.tag && a.id != b.id && a.parentId == b.parentId
    ensures NthOfType(els, a) == 1 && NthOfType(els, b) == 2
  {
    assert [a, b][1..] == [b];
    assert SameTag([b], a.tag) == [b];
    assert SameTag([a, b], a.tag) == [a] + [b];
    assert FindIndex([b], b.id) == 1;
  }

  /** Two boxes, the second with two boxes in it. */
  ghost predicate TwoInTheSecond(els: seq<Element>, a: Element, b: Element, c: Element, d: Element) {
    els == [a, b, c, d] && a == Box(1, 0) && b == Box(2, 0) && c == Box(3, 2) && d == Box(4, 2)
  }

  lemma BoxChildren(els: seq<Element>, a: Element, b: Element, c: Element, d: Element, id: nat)
    requires TwoInTheSecond(els, a, b, c, d)
    ensures Children(els, id) == if id == 0 then [a, b] else if id == 2 then [c, d] else []
  {
    assert els == [a] + ([b] + ([c] + ([d] + [])));
    ChildrenCons(d, [], id);
    ChildrenCons(c, [d] + [], id);
    ChildrenCons(b, [c] + ([d] + []), id);
    ChildrenCons(a, [b] + ([c] + ([d] + [])), id);
  }

  lemma BoxPositions(els: seq<Element>, a: Element, b: Element, c: Element, d: Element)
    requires TwoInTheSecond(els, a, b, c, d)
    ensures NthOfType(els, b) == 2 && NthOfType(els, c) == 1 && NthOfType(els, d) == 2
  {
    BoxChildren(els, a, b, c, d, 0);
    BoxChildren(els, a, b, c, d, 2);
    TwoSiblings(els, a, b);
    TwoSiblings(els, c, d);
  }

  lemma BoxesBelow(els: seq<Element>, a: Element, b: Element, c: Element, d: Element)
    requires TwoInTheSecond(els, a, b, c, d)
    ensures Indexed(els) && Below(els, d, b) && !Below(els, a, b)
  {
    assert b in els && d in els;
    IdsIdentify(els, b, Parent(els, d).value);
  }

  lemma BoxesAreNotConfused(els: seq<Element>, stable: Stable, a: Element, b: Element, c: Element, d: Element)
    requires TwoInTheSecond(els, a, b, c, d)
    ensures Indexed(els) && !Confused(els, stable, b, d) && !OneOfAKind(els, stable, b, d)
  {
    BoxPositions(els, a, b, c, d);
    BoxesBelow(els, a, b, c, d);
    assert Like(stable, b, d);
    forall e | e in els && Below(els, e, b) && e != d ensures NthOfType(els, e) != NthOfType(els, d) {
      assert e == c;
    }
  }

  /** The second of two items, and the second of its children: unique in the preview, yet the item is found. */
  lemma UniqueInPreviewYetMissed(els: seq<Element>, stable: Stable, a: Element, b: Element, c: Element, d: Element)
    requires TwoInTheSecond(els, a, b, c, d)
    ensures Indexed(els) && d in Inside(els, b)
    ensures
      var r := PlainOrPinnedOf(Inside(els, b), stable, d);
      r.matched == {d} && MatchOrDescendant(els, stable, b, r.compound) == Some(b)
  {
    BoxPositions(els, a, b, c, d);
    BoxesBelow(els, a, b, c, d);
    BoxesAreNotConfused(els, stable, a, b, c, d);
    assert b in els && d in els;
    RestrictIsSubtree(els, b, d);
    TitleIsUniqueIff(els, stable, b, d);
    assert Like(stable, b, d);
    CompoundOfTitle(els, stable, b, d, b);
  }
}
