/**
 * Click-to-selector generation of web/src/lib/selectorGen.ts: child-combinator chains over the
 * element index, widened until they single out a container.
 */
module SelectorGen {
  import opened Wrappers
  import opened ElementIndex
  import Ranks

  /** Is a class name author-written rather than generated? The patterns are not interpreted. */
  type Stable = string -> bool

  /** One step of a chain. `Body` stands for the document body and only ever heads a chain. */
  datatype Compound =
    | Body
    | ById(id: string, nth: Option<nat>)
    | ByTag(tag: string, classes: set<string>, nth: Option<nat>)

  type Chain = seq<Compound>

  function StableClasses(stable: Stable, e: Element): set<string> {
    set c | c in e.classes && stable(c)
  }

  function SameTag(els: seq<Element>, tag: string): (r: seq<Element>)
    ensures forall e :: e in r <==> e in els && e.tag == tag
  {
    if els == [] then []
    else (if els[0].tag == tag then [els[0]] else []) + SameTag(els[1..], tag)
  }

  /** 1 plus the index of the element numbered `id`; 0 if there is none. */
  function FindIndex(els: seq<Element>, id: nat): nat {
    if els == [] then 0
    else if els[0].id == id then 1
    else if FindIndex(els[1..], id) == 0 then 0 else FindIndex(els[1..], id) + 1
  }

  /** `:nth-of-type`: the position among siblings with the same tag. */
  function NthOfType(els: seq<Element>, e: Element): nat {
    FindIndex(SameTag(Children(els, e.parentId), e.tag), e.id)
  }

  predicate CompoundMatches(els: seq<Element>, stable: Stable, e: Element, c: Compound) {
    match c
    case Body => true
    case ById(id, _) => e.htmlId == id
    case ByTag(tag, classes, nth) =>
      && e.tag == tag && classes <= StableClasses(stable, e)
      && (nth.Some? ==> NthOfType(els, e) == nth.value)
  }

  /** The part of a chain above its last compound, against the ancestors of `e`. */
  predicate AncestorsMatch(els: seq<Element>, stable: Stable, e: Element, above: Chain)
    decreases |above|
  {
    if above == [] then true
    else
      var c := above[|above| - 1];
      var p := Parent(els, e);
      if c.Body? then p.None?
      else
        && p.Some? && CompoundMatches(els, stable, p.value, c)
        && AncestorsMatch(els, stable, p.value, above[..|above| - 1])
  }

  predicate ChainMatches(els: seq<Element>, stable: Stable, e: Element, chain: Chain) {
    chain == [] ||
    (CompoundMatches(els, stable, e, chain[|chain| - 1]) && AncestorsMatch(els, stable, e, chain[..|chain| - 1]))
  }

  function UpTo(els: seq<Element>, id: nat): set<Element> { set x | x in els && x.id <= id }

  lemma UpToHead(els: seq<Element>, id: nat)
    requires Indexed(els) && els != []
    ensures els[0].id == id ==> UpTo(els, id) == {els[0]}
    ensures els[0].id < id ==> els[0] !in els[1..] && UpTo(els, id) == {els[0]} + UpTo(els[1..], id)
  {
    forall x | x in els[1..] ensures els[0].id < x.id {
      var i :| 0 <= i < |els[1..]| && els[1..][i] == x;
      assert els[i + 1] == x;
    }
    assert els == [els[0]] + els[1..];
  }

  lemma {:induction false} PositionCounts(els: seq<Element>, e: Element)
    requires Indexed(els) && e in els
    ensures FindIndex(els, e.id) == |UpTo(els, e.id)| > 0
  {
    UpToHead(els, e.id);
    if els[0].id != e.id { PositionCounts(els[1..], e); }
  }

  lemma IndexedMore(e: Element, rest: seq<Element>)
    requires Indexed(rest) && e.parentId < e.id && forall x :: x in rest ==> e.id < x.id
    ensures Indexed([e] + rest)
  {
    forall i, j | 0 <= i < j < |[e] + rest| ensures ([e] + rest)[i].id < ([e] + rest)[j].id {
      assert ([e] + rest)[j] == rest[j - 1] && rest[j - 1] in rest;
      if i > 0 { assert ([e] + rest)[i] == rest[i - 1]; }
    }
  }

  lemma IndexedTail(els: seq<Element>)
    requires Indexed(els) && els != []
    ensures Indexed(els[1..]) && els[0].parentId < els[0].id && forall x :: x in els[1..] ==> els[0].id < x.id
  {
  }

  lemma {:induction false} SameTagIndexed(els: seq<Element>, tag: string)
    requires Indexed(els)
    ensures Indexed(SameTag(els, tag))
  {
    if els != [] {
      var rest := SameTag(els[1..], tag);
      IndexedTail(els);
      SameTagIndexed(els[1..], tag);
      IndexedMore(els[0], rest);
      assert [] + rest == rest;
    }
  }

  /** `:nth-of-type` is the number of siblings with the same tag up to the element itself. */
  lemma NthOfTypeCounts(els: seq<Element>, e: Element)
    requires Indexed(els) && e in els
    ensures NthOfType(els, e) == |set x | x in els && x.parentId == e.parentId && x.tag == e.tag && x.id <= e.id|
  {
    var alike := SameTag(Children(els, e.parentId), e.tag);
    ChildrenIndexed(els, e.parentId);
    SameTagIndexed(Children(els, e.parentId), e.tag);
    PositionCounts(alike, e);
    assert UpTo(alike, e.id) ==
           set x | x in els && x.parentId == e.parentId && x.tag == e.tag && x.id <= e.id;
  }

  /** The loop of `chainMatches`. */
  method MatchChain(els: seq<Element>, stable: Stable, el: Element, chain: Chain) returns (m: bool)
    ensures m == ChainMatches(els, stable, el, chain)
  {
    if |chain| == 0 {
      return true;
    }
    if !CompoundMatches(els, stable, el, chain[|chain| - 1]) {
      return false;
    }
    var cur := el;
    var i := |chain| - 1;
    while i > 0
      invariant 0 <= i < |chain|
      invariant ChainMatches(els, stable, el, chain) == AncestorsMatch(els, stable, cur, chain[..i])
    {
      i := i - 1;
      assert chain[..i + 1][..i] == chain[..i];
      var parent := Parent(els, cur);
      if chain[i].Body? {
        return parent.None?;
      }
      if parent.None? || !CompoundMatches(els, stable, parent.value, chain[i]) {
        return false;
      }
      cur := parent.value;
    }
    return true;
  }

  function MatchElements(els: seq<Element>, stable: Stable, chain: Chain): set<Element> {
    if chain == [] then {} else set e | e in els && ChainMatches(els, stable, e, chain)
  }

  predicate Unique(els: seq<Element>, stable: Stable, chain: Chain) {
    |MatchElements(els, stable, chain)| == 1
  }

  // ---------------------------------------------------------------- what a chain means

  /** The ancestor `k` levels up. */
  function Ancestor(els: seq<Element>, e: Element, k: nat): Option<Element>
    decreases k
  {
    if k == 0 then Some(e)
    else
      match Parent(els, e)
      case None => None
      case Some(p) => Ancestor(els, p, k - 1)
  }

  /** The body may head a chain but stand nowhere else. */
  ghost predicate WellFormed(chain: Chain) {
    forall i :: 0 < i < |chain| ==> !chain[i].Body?
  }

  /** Each compound against the ancestor at its distance; a leading body means there is none. */
  ghost predicate LevelsMatch(els: seq<Element>, stable: Stable, e: Element, chain: Chain) {
    forall i :: 0 <= i < |chain| ==>
      var a := Ancestor(els, e, |chain| - 1 - i);
      if chain[i].Body? && i < |chain| - 1 then a.None?
      else a.Some? && CompoundMatches(els, stable, a.value, chain[i])
  }

  /** A chain matches exactly when every level matches, with no gaps. */
  lemma {:induction false} ChainMeansLevels(els: seq<Element>, stable: Stable, e: Element, chain: Chain)
    requires WellFormed(chain)
    ensures ChainMatches(els, stable, e, chain) <==> LevelsMatch(els, stable, e, chain)
    decreases |chain|
  {
    if |chain| == 1 {
      assert Ancestor(els, e, 0) == Some(e);
    } else if |chain| > 1 {
      var n := |chain| - 1;
      var above := chain[..n];
      AncestorsMeanLevels(els, stable, e, above);
      assert Ancestor(els, e, 0) == Some(e);
      if LevelsMatch(els, stable, e, chain) {
        assert chain[n] == chain[|chain| - 1];
        forall i | 0 <= i < |above| ensures LevelMatches(els, stable, Ancestor(els, e, |above| - i), above[i]) {
          assert above[i] == chain[i];
        }
      }
      if ChainMatches(els, stable, e, chain) {
        forall i | 0 <= i < |chain| ensures
          var a := Ancestor(els, e, |chain| - 1 - i);
          if chain[i].Body? && i < |chain| - 1 then a.None?
          else a.Some? && CompoundMatches(els, stable, a.value, chain[i])
        {
          if i < n {
            assert above[i] == chain[i];
            assert LevelMatches(els, stable, Ancestor(els, e, |above| - i), above[i]);
          }
        }
      }
    }
  }

  predicate LevelMatches(els: seq<Element>, stable: Stable, a: Option<Element>, c: Compound) {
    if c.Body? then a.None? else a.Some? && CompoundMatches(els, stable, a.value, c)
  }

  lemma {:induction false} AncestorsMeanLevels(els: seq<Element>, stable: Stable, e: Element, above: Chain)
    requires WellFormed(above)
    ensures AncestorsMatch(els, stable, e, above) <==>
      forall i :: 0 <= i < |above| ==> LevelMatches(els, stable, Ancestor(els, e, |above| - i), above[i])
    decreases |above|
  {
    if above != [] {
      var n := |above| - 1;
      var p := Parent(els, e);
      assert Ancestor(els, e, 1) == if p.None? then None else Some(p.value);
      if n == 0 {
        assert AncestorsMatch(els, stable, e, above) <==> LevelMatches(els, stable, Ancestor(els, e, 1), above[0]);
      } else if p.None? {
        assert !LevelMatches(els, stable, Ancestor(els, e, |above| - n), above[n]);
      } else {
        AncestorsMeanLevels(els, stable, p.value, above[..n]);
        forall i | 0 <= i < n ensures
          LevelMatches(els, stable, Ancestor(els, e, |above| - i), above[i]) ==
          LevelMatches(els, stable, Ancestor(els, p.value, |above[..n]| - i), above[..n][i])
        {
        }
        if forall i :: 0 <= i < |above| ==> LevelMatches(els, stable, Ancestor(els, e, |above| - i), above[i]) {
          assert LevelMatches(els, stable, Ancestor(els, e, |above| - n), above[n]);
          forall i | 0 <= i < |above[..n]|
            ensures LevelMatches(els, stable, Ancestor(els, p.value, |above[..n]| - i), above[..n][i])
          {
            assert LevelMatches(els, stable, Ancestor(els, e, |above| - i), above[i]);
          }
        }
        if AncestorsMatch(els, stable, e, above) {
          forall i | 0 <= i < |above| ensures LevelMatches(els, stable, Ancestor(els, e, |above| - i), above[i]) {
            if i < n {
              assert LevelMatches(els, stable, Ancestor(els, p.value, |above[..n]| - i), above[..n][i]);
            }
          }
        }
      }
    }
  }

  /** Requiring one more ancestor never matches more. */
  lemma {:induction false} WideningNarrows(els: seq<Element>, stable: Stable, c: Compound, chain: Chain)
    requires WellFormed(chain) && chain != [] && !chain[0].Body?
    ensures MatchElements(els, stable, [c] + chain) <= MatchElements(els, stable, chain)
  {
    forall e | e in MatchElements(els, stable, [c] + chain) ensures e in MatchElements(els, stable, chain) {
      assert ([c] + chain)[..|chain|] == [c] + chain[..|chain| - 1];
      DropOutermost(els, stable, e, c, chain[..|chain| - 1]);
    }
  }

  lemma {:induction false} DropOutermost(els: seq<Element>, stable: Stable, e: Element, c: Compound, above: Chain)
    requires forall i :: 0 <= i < |above| ==> !above[i].Body?
    ensures AncestorsMatch(els, stable, e, [c] + above) ==> AncestorsMatch(els, stable, e, above)
    decreases |above|
  {
    if above != [] && Parent(els, e).Some? {
      assert ([c] + above)[..|above|] == [c] + above[..|above| - 1];
      DropOutermost(els, stable, Parent(els, e).value, c, above[..|above| - 1]);
    }
  }

  // ---------------------------------------------------------------- the container chain

  const MAX_DEPTH := 6

  function Plain(stable: Stable, e: Element): Compound {
    ByTag(e.tag, StableClasses(stable, e), None)
  }

  function LevelCompound(stable: Stable, e: Element): Compound {
    if e.htmlId != "" then ById(e.htmlId, None) else Plain(stable, e)
  }

  function WithNth(c: Compound, n: nat): Compound {
    match c
    case Body => c
    case ById(id, _) => ById(id, Some(n))
    case ByTag(tag, classes, _) => ByTag(tag, classes, Some(n))
  }

  /** `chain` spells out `e` and its ancestors up to `top`, each by a compound that matches it. */
  ghost predicate Spells(els: seq<Element>, stable: Stable, e: Element, chain: Chain, top: Element) {
    && chain != [] && (forall i :: 0 <= i < |chain| ==> !chain[i].Body?)
    && ChainMatches(els, stable, e, chain)
    && Ancestor(els, e, |chain| - 1) == Some(top)
  }

  lemma {:induction false} AncestorUp(els: seq<Element>, e: Element, k: nat)
    requires Ancestor(els, e, k).Some?
    ensures Ancestor(els, e, k + 1) == Parent(els, Ancestor(els, e, k).value)
    decreases k
  {
    if k > 0 { AncestorUp(els, Parent(els, e).value, k - 1); }
  }

  /** Prepending a compound that fits the ancestor next in line keeps a match. */
  lemma {:induction false} Prepend(els: seq<Element>, stable: Stable, e: Element, above: Chain, c: Compound)
    requires AncestorsMatch(els, stable, e, above)
    requires forall i :: 0 <= i < |above| ==> !above[i].Body?
    requires LevelMatches(els, stable, Ancestor(els, e, |above| + 1), c)
    ensures AncestorsMatch(els, stable, e, [c] + above)
    decreases |above|
  {
    if above == [] {
      assert Ancestor(els, e, 1) == if Parent(els, e).None? then None else Some(Parent(els, e).value);
      assert [c] + above == [c];
    } else {
      assert ([c] + above)[..|above|] == [c] + above[..|above| - 1];
      Prepend(els, stable, Parent(els, e).value, above[..|above| - 1], c);
    }
  }

  lemma PrependChain(els: seq<Element>, stable: Stable, e: Element, chain: Chain, c: Compound)
    requires chain != [] && ChainMatches(els, stable, e, chain)
    requires forall i :: 0 <= i < |chain| ==> !chain[i].Body?
    requires LevelMatches(els, stable, Ancestor(els, e, |chain|), c)
    ensures ChainMatches(els, stable, e, [c] + chain)
  {
    assert ([c] + chain)[..|chain|] == [c] + chain[..|chain| - 1];
    Prepend(els, stable, e, chain[..|chain| - 1], c);
  }

  /** Replacing the outermost compound by another that fits the same ancestor keeps a match. */
  lemma {:induction false} Repin(els: seq<Element>, stable: Stable, e: Element, chain: Chain, top: Element, c: Compound)
    requires Spells(els, stable, e, chain, top) && !c.Body? && CompoundMatches(els, stable, top, c)
    ensures Spells(els, stable, e, [c] + chain[1..], top)
  {
    if |chain| == 1 {
      assert [c] + chain[1..] == [c];
    } else {
      var rest := chain[1..];
      assert chain == [chain[0]] + rest;
      DropOutermost(els, stable, e, chain[0], rest[..|rest| - 1]);
      assert chain[..|chain| - 1] == [chain[0]] + rest[..|rest| - 1];
      PrependChain(els, stable, e, rest, c);
    }
  }

  /** A chain for a container: it matches the container, and a body only heads a longer chain. */
  ghost predicate ContainerChain(els: seq<Element>, stable: Stable, container: Element, chain: Chain) {
    && chain != [] && WellFormed(chain) && (chain[0].Body? ==> |chain| > 1)
    && ChainMatches(els, stable, container, chain)
  }

  /** How far widening got: the chain, the element it starts at, and whether that has no parent. */
  datatype Climb = Climb(chain: Chain, top: Element, reachedTop: bool)

  /** Ancestors are added one at a time until the chain is unique, the top is reached, or it is deep enough. */
  function Widened(els: seq<Element>, stable: Stable, chain: Chain, top: Element, depth: nat): (r: Climb)
    requires depth <= MAX_DEPTH && chain != []
    ensures r.chain != []
    decreases MAX_DEPTH - depth
  {
    if Unique(els, stable, chain) || depth == MAX_DEPTH then Climb(chain, top, false)
    else
      match Parent(els, top)
      case None => Climb(chain, top, true)
      case Some(p) => Widened(els, stable, [LevelCompound(stable, p)] + chain, p, depth + 1)
  }

  function WidenedFrom(els: seq<Element>, stable: Stable, container: Element): Climb {
    Widened(els, stable, [Plain(stable, container)], container, 0)
  }

  method Widen(els: seq<Element>, stable: Stable, container: Element)
    returns (chain: Chain, top: Element, reachedTop: bool)
    ensures Climb(chain, top, reachedTop) == WidenedFrom(els, stable, container)
  {
    chain, top, reachedTop := [Plain(stable, container)], container, false;
    if Unique(els, stable, chain) {
      return;
    }
    var depth := 0;
    while depth < MAX_DEPTH
      invariant 0 <= depth <= MAX_DEPTH && chain != []
      invariant !Unique(els, stable, chain) && !reachedTop
      invariant Widened(els, stable, chain, top, depth) == WidenedFrom(els, stable, container)
    {
      var parent := Parent(els, top);
      if parent.None? {
        reachedTop := true;
        return;
      }
      chain, top := [LevelCompound(stable, parent.value)] + chain, parent.value;
      depth := depth + 1;
      if Unique(els, stable, chain) {
        return;
      }
    }
  }

  /** Widening spells out the container and its ancestors, and stops at the top only when told so. */
  lemma {:induction false} WidenedSpells(
    els: seq<Element>, stable: Stable, container: Element, chain: Chain, top: Element, depth: nat)
    requires Indexed(els) && depth <= MAX_DEPTH && |chain| == depth + 1
    requires Spells(els, stable, container, chain, top) && top in els
    ensures
      var w := Widened(els, stable, chain, top, depth);
      && Spells(els, stable, container, w.chain, w.top) && w.top in els && |w.chain| <= MAX_DEPTH + 1
      && (w.reachedTop ==> Parent(els, w.top).None?)
      && (Unique(els, stable, w.chain) || w.reachedTop || |w.chain| == MAX_DEPTH + 1)
    decreases MAX_DEPTH - depth
  {
    if !Unique(els, stable, chain) && depth < MAX_DEPTH && Parent(els, top).Some? {
      var p := Parent(els, top).value;
      SpellsOneMore(els, stable, container, chain, top);
      WidenedSpells(els, stable, container, [LevelCompound(stable, p)] + chain, p, depth + 1);
    }
  }

  /** Putting the parent of the outermost element in front spells out one level more. */
  lemma SpellsOneMore(els: seq<Element>, stable: Stable, container: Element, chain: Chain, top: Element)
    requires Spells(els, stable, container, chain, top) && Parent(els, top).Some?
    ensures
      var p := Parent(els, top).value;
      Spells(els, stable, container, [LevelCompound(stable, p)] + chain, p)
  {
    var p := Parent(els, top).value;
    AncestorUp(els, container, |chain| - 1);
    PrependChain(els, stable, container, chain, LevelCompound(stable, p));
  }

  /** An ancestor is named by its id if it has one, the container itself never; else by tag and stable classes. */
  ghost predicate Names(stable: Stable, a: Element, own: bool, c: Compound) {
    if !own && a.htmlId != "" then c == ById(a.htmlId, None)
    else c.ByTag? && c.tag == a.tag && c.nth == None && forall x :: x in c.classes <==> x in a.classes && stable(x)
  }

  lemma NamesFit(stable: Stable, e: Element)
    ensures Names(stable, e, false, LevelCompound(stable, e)) && Names(stable, e, true, Plain(stable, e))
  {
  }

  ghost predicate NamesAncestor(els: seq<Element>, stable: Stable, e: Element, up: nat, c: Compound) {
    Ancestor(els, e, up).Some? && Names(stable, Ancestor(els, e, up).value, up == 0, c)
  }

  /** Every compound of a chain names the ancestor at its distance. */
  ghost predicate ReadsOff(els: seq<Element>, stable: Stable, e: Element, chain: Chain) {
    forall i :: 0 <= i < |chain| ==> NamesAncestor(els, stable, e, |chain| - 1 - i, chain[i])
  }

  lemma ReadsOneMore(els: seq<Element>, stable: Stable, e: Element, chain: Chain, c: Compound)
    requires ReadsOff(els, stable, e, chain) && NamesAncestor(els, stable, e, |chain|, c)
    ensures ReadsOff(els, stable, e, [c] + chain)
  {
    var longer := [c] + chain;
    forall i | 0 <= i < |longer| ensures NamesAncestor(els, stable, e, |longer| - 1 - i, longer[i]) {
      if i > 0 { assert NamesAncestor(els, stable, e, |chain| - 1 - (i - 1), chain[i - 1]); }
    }
  }

  lemma {:induction false} WidenedReadsOff(
    els: seq<Element>, stable: Stable, container: Element, chain: Chain, top: Element, depth: nat)
    requires depth <= MAX_DEPTH && chain != [] && ReadsOff(els, stable, container, chain)
    requires Ancestor(els, container, |chain| - 1) == Some(top)
    ensures ReadsOff(els, stable, container, Widened(els, stable, chain, top, depth).chain)
    decreases MAX_DEPTH - depth
  {
    if !Unique(els, stable, chain) && depth < MAX_DEPTH && Parent(els, top).Some? {
      var p := Parent(els, top).value;
      AncestorUp(els, container, |chain| - 1);
      NamesFit(stable, p);
      ReadsOneMore(els, stable, container, chain, LevelCompound(stable, p));
      WidenedReadsOff(els, stable, container, [LevelCompound(stable, p)] + chain, p, depth + 1);
    }
  }

  /** Every compound of the widened chain, written out. */
  lemma WidenedIs(els: seq<Element>, stable: Stable, container: Element)
    ensures ReadsOff(els, stable, container, WidenedFrom(els, stable, container).chain)
  {
    NamesFit(stable, container);
    assert NamesAncestor(els, stable, container, 0, Plain(stable, container));
    WidenedReadsOff(els, stable, container, [Plain(stable, container)], container, 0);
  }

  lemma SpellsSelf(els: seq<Element>, stable: Stable, container: Element)
    ensures Spells(els, stable, container, [Plain(stable, container)], container)
  {
  }

  lemma ShorterTail(long: Chain, n: nat, mid: Chain, c: Compound, chain: Chain)
    requires n < |long| && long[n..] == mid && mid == [c] + chain
    ensures long[n + 1..] == chain
  {
    assert long[n..][1..] == long[n + 1..];
  }

  lemma {:induction false} WidenedKeepsTail(els: seq<Element>, stable: Stable, chain: Chain, top: Element, depth: nat)
    requires depth <= MAX_DEPTH && chain != []
    ensures
      var w := Widened(els, stable, chain, top, depth);
      |w.chain| >= |chain| && w.chain[|w.chain| - |chain|..] == chain
    decreases MAX_DEPTH - depth
  {
    if !Unique(els, stable, chain) && depth < MAX_DEPTH && Parent(els, top).Some? {
      var p := Parent(els, top).value;
      var longer := [LevelCompound(stable, p)] + chain;
      WidenedKeepsTail(els, stable, longer, p, depth + 1);
      var w := Widened(els, stable, longer, p, depth + 1);
      ShorterTail(w.chain, |w.chain| - |longer|, longer, LevelCompound(stable, p), chain);
    }
  }

  lemma WidenedStep(els: seq<Element>, stable: Stable, chain: Chain, top: Element, depth: nat)
    requires depth < MAX_DEPTH && chain != []
    ensures
      var p := Parent(els, top);
      if Unique(els, stable, chain) || p.None? then Widened(els, stable, chain, top, depth).chain == chain
      else Widened(els, stable, chain, top, depth) ==
           Widened(els, stable, [LevelCompound(stable, p.value)] + chain, p.value, depth + 1)
  {
  }

  /** It stops at the first unique level: nothing shorter it went through is unique. */
  lemma {:induction false} WidenedIsShortest(
    els: seq<Element>, stable: Stable, chain: Chain, top: Element, depth: nat, j: nat)
    requires depth <= MAX_DEPTH && chain != []
    requires 0 < j <= |Widened(els, stable, chain, top, depth).chain| - |chain|
    ensures !Unique(els, stable, Widened(els, stable, chain, top, depth).chain[j..])
    decreases MAX_DEPTH - depth
  {
    if depth < MAX_DEPTH {
      WidenedStep(els, stable, chain, top, depth);
      WidenedKeepsTail(els, stable, chain, top, depth);
      var w := Widened(els, stable, chain, top, depth);
      if j < |w.chain| - |chain| {
        var p := Parent(els, top).value;
        WidenedIsShortest(els, stable, [LevelCompound(stable, p)] + chain, p, depth + 1, j);
      } else {
        assert j == |w.chain| - |chain|;
      }
    }
  }

  lemma SpelledIsContainerChain(els: seq<Element>, stable: Stable, container: Element, chain: Chain, top: Element)
    requires Spells(els, stable, container, chain, top)
    ensures ContainerChain(els, stable, container, chain)
  {
  }

  /** A chain that reaches the top of the page may also be headed by the body. */
  lemma BodyHeads(els: seq<Element>, stable: Stable, container: Element, chain: Chain, top: Element)
    requires Spells(els, stable, container, chain, top) && Parent(els, top).None?
    ensures ContainerChain(els, stable, container, [Body] + chain)
  {
    AncestorUp(els, container, |chain| - 1);
    PrependChain(els, stable, container, chain, Body);
  }

  function IdChain(container: Element): Chain { [ById(container.htmlId, None)] }

  /** The widened chain with its outermost level pinned by position. */
  function Pinned(els: seq<Element>, w: Climb): Chain
    requires w.chain != []
  {
    [WithNth(w.chain[0], NthOfType(els, w.top))] + w.chain[1..]
  }

  /** The id, the widened chain, that headed by the body, the pinned chain, that headed by the body: in this order. */
  function UniqueAncestorChain(els: seq<Element>, stable: Stable, container: Element): Chain {
    if container.htmlId != "" && Unique(els, stable, IdChain(container)) then IdChain(container)
    else
      var w := WidenedFrom(els, stable, container);
      if Unique(els, stable, w.chain) then w.chain
      else if w.reachedTop && Unique(els, stable, [Body] + w.chain) then [Body] + w.chain
      else if w.reachedTop && Unique(els, stable, [Body] + Pinned(els, w)) then [Body] + Pinned(els, w)
      else Pinned(els, w)
  }

  method BuildUniqueAncestorChain(els: seq<Element>, stable: Stable, container: Element) returns (chain: Chain)
    ensures chain == UniqueAncestorChain(els, stable, container)
  {
    if container.htmlId != "" {
      var idChain := [ById(container.htmlId, None)];
      if Unique(els, stable, idChain) {
        return idChain;
      }
    }
    var top, reachedTop;
    chain, top, reachedTop := Widen(els, stable, container);
    if Unique(els, stable, chain) {
      return;
    }
    if reachedTop {
      var withBody := [Body] + chain;
      if Unique(els, stable, withBody) {
        return withBody;
      }
    }
    chain := [WithNth(chain[0], NthOfType(els, top))] + chain[1..];
    if reachedTop {
      var withBody := [Body] + chain;
      if Unique(els, stable, withBody) {
        return withBody;
      }
    }
  }

  /** The outermost compound, pinned by the position it was read off, still fits its element. */
  lemma PinFits(els: seq<Element>, stable: Stable, e: Element, chain: Chain, top: Element)
    requires Spells(els, stable, e, chain, top)
    ensures CompoundMatches(els, stable, top, WithNth(chain[0], NthOfType(els, top)))
    ensures !WithNth(chain[0], NthOfType(els, top)).Body?
  {
    ChainMeansLevels(els, stable, e, chain);
    assert chain[0] == chain[0] && Ancestor(els, e, |chain| - 1 - 0) == Some(top);
  }

  lemma IdFits(els: seq<Element>, stable: Stable, container: Element)
    requires container.htmlId != ""
    ensures ContainerChain(els, stable, container, IdChain(container))
  {
  }

  lemma WidenedFits(els: seq<Element>, stable: Stable, container: Element)
    requires Indexed(els) && container in els
    ensures
      var w := WidenedFrom(els, stable, container);
      && Spells(els, stable, container, w.chain, w.top) && |w.chain| <= MAX_DEPTH + 1
      && (w.reachedTop ==> Parent(els, w.top).None?)
  {
    SpellsSelf(els, stable, container);
    WidenedSpells(els, stable, container, [Plain(stable, container)], container, 0);
  }

  lemma PinnedFits(els: seq<Element>, stable: Stable, container: Element, w: Climb)
    requires Spells(els, stable, container, w.chain, w.top)
    ensures Spells(els, stable, container, Pinned(els, w), w.top) && |Pinned(els, w)| == |w.chain|
  {
    PinFits(els, stable, container, w.chain, w.top);
    Repin(els, stable, container, w.chain, w.top, WithNth(w.chain[0], NthOfType(els, w.top)));
  }

  /** All four forms of a widened chain match its container. */
  lemma EveryFormFits(els: seq<Element>, stable: Stable, container: Element, w: Climb)
    requires Spells(els, stable, container, w.chain, w.top) && (w.reachedTop ==> Parent(els, w.top).None?)
    ensures ContainerChain(els, stable, container, w.chain) && ContainerChain(els, stable, container, Pinned(els, w))
    ensures w.reachedTop ==> ContainerChain(els, stable, container, [Body] + w.chain)
    ensures w.reachedTop ==> ContainerChain(els, stable, container, [Body] + Pinned(els, w))
  {
    PinnedFits(els, stable, container, w);
    SpelledIsContainerChain(els, stable, container, w.chain, w.top);
    SpelledIsContainerChain(els, stable, container, Pinned(els, w), w.top);
    if w.reachedTop {
      BodyHeads(els, stable, container, w.chain, w.top);
      BodyHeads(els, stable, container, Pinned(els, w), w.top);
    }
  }

  lemma WhichForm(els: seq<Element>, stable: Stable, container: Element)
    ensures
      var c, w := UniqueAncestorChain(els, stable, container), WidenedFrom(els, stable, container);
      || (container.htmlId != "" && c == IdChain(container))
      || c == w.chain || c == Pinned(els, w)
      || (w.reachedTop && (c == [Body] + w.chain || c == [Body] + Pinned(els, w)))
  {
  }

  /** Whichever form is chosen, it matches the container it was built for. */
  lemma UniqueChainMatchesContainer(els: seq<Element>, stable: Stable, container: Element)
    requires Indexed(els) && container in els
    ensures ContainerChain(els, stable, container, UniqueAncestorChain(els, stable, container))
  {
    WhichForm(els, stable, container);
    if container.htmlId != "" {
      IdFits(els, stable, container);
    }
    WidenedFits(els, stable, container);
    EveryFormFits(els, stable, container, WidenedFrom(els, stable, container));
  }

  /** It is unique whenever the id or any level gone through is, and then no level shorter than it is. */
  lemma UniqueWheneverALevelIs(els: seq<Element>, stable: Stable, container: Element, j: nat)
    requires Indexed(els) && container in els
    requires
      var w := WidenedFrom(els, stable, container);
      j < |w.chain| && Unique(els, stable, w.chain[j..])
    ensures j == 0 && Unique(els, stable, UniqueAncestorChain(els, stable, container))
  {
    var w := WidenedFrom(els, stable, container);
    WidenedKeepsTail(els, stable, [Plain(stable, container)], container, 0);
    if j > 0 {
      WidenedIsShortest(els, stable, [Plain(stable, container)], container, 0, j);
    }
    assert w.chain[0..] == w.chain;
  }

  // ---------------------------------------------------------------- the item candidate

  /** The children of `container` that carry the clicked level's tag and all its stable classes. */
  function Alike(els: seq<Element>, stable: Stable, container: Element, level: Element): set<Element> {
    set e | e in els && e.parentId == container.id && e.tag == level.tag
      && StableClasses(stable, level) <= StableClasses(stable, e)
  }

  lemma AppendItem(els: seq<Element>, stable: Stable, e: Element, chain: Chain, item: Compound)
    requires chain != [] && WellFormed(chain) && (chain[0].Body? ==> |chain| > 1)
    ensures ChainMatches(els, stable, e, chain + [item]) <==>
      && CompoundMatches(els, stable, e, item)
      && Parent(els, e).Some? && ChainMatches(els, stable, Parent(els, e).value, chain)
  {
    assert (chain + [item])[..|chain|] == chain;
  }

  lemma TheOneMatch(els: seq<Element>, stable: Stable, chain: Chain, a: Element, b: Element)
    requires Unique(els, stable, chain)
    requires a in MatchElements(els, stable, chain) && b in MatchElements(els, stable, chain)
    ensures a == b
  {
    var s := MatchElements(els, stable, chain);
    assert |s - {a}| == 0;
    assert b !in s - {a};
  }

  /** If the container chain is unique, the item selector matches exactly the siblings it should. */
  lemma ItemCandidateIsExact(els: seq<Element>, stable: Stable, container: Element, chain: Chain, level: Element)
    requires Indexed(els) && container in els
    requires ContainerChain(els, stable, container, chain) && Unique(els, stable, chain)
    ensures MatchElements(els, stable, chain + [Plain(stable, level)]) == Alike(els, stable, container, level)
  {
    assert container in MatchElements(els, stable, chain);
    var item := Plain(stable, level);
    forall e | e in els
      ensures ChainMatches(els, stable, e, chain + [item]) <==> e in Alike(els, stable, container, level)
    {
      AppendItem(els, stable, e, chain, item);
      if Parent(els, e).Some? {
        var p := Parent(els, e).value;
        if ChainMatches(els, stable, p, chain) { TheOneMatch(els, stable, chain, p, container); }
        if e.parentId == container.id { IdsIdentify(els, p, container); }
      }
    }
  }

  lemma LevelIsMatched(els: seq<Element>, stable: Stable, level: Element)
    requires Indexed(els) && level in els && Parent(els, level).Some?
    ensures
      var above := UniqueAncestorChain(els, stable, Parent(els, level).value);
      level in MatchElements(els, stable, above + [Plain(stable, level)])
  {
    var container := Parent(els, level).value;
    UniqueChainMatchesContainer(els, stable, container);
    AppendItem(els, stable, level, UniqueAncestorChain(els, stable, container), Plain(stable, level));
  }

  lemma SiblingsAreMatched(els: seq<Element>, stable: Stable, container: Element, level: Element)
    requires Indexed(els) && container in els
    requires Unique(els, stable, UniqueAncestorChain(els, stable, container))
    ensures
      var above := UniqueAncestorChain(els, stable, container);
      MatchElements(els, stable, above + [Plain(stable, level)]) == Alike(els, stable, container, level)
  {
    UniqueChainMatchesContainer(els, stable, container);
    ItemCandidateIsExact(els, stable, container, UniqueAncestorChain(els, stable, container), level);
  }

  /** The candidate for one level of a click: its container's chain, then the level itself. */
  method SiblingCandidate(els: seq<Element>, stable: Stable, level: Element)
    returns (chain: Chain, matched: set<Element>)
    requires Indexed(els) && level in els
    ensures matched == MatchElements(els, stable, chain)
    ensures level in matched
    ensures
      var container := Parent(els, level);
      && (container.None? ==> chain == [Plain(stable, level)])
      && (container.Some? ==> chain == UniqueAncestorChain(els, stable, container.value) + [Plain(stable, level)])
      && (container.Some? && Unique(els, stable, UniqueAncestorChain(els, stable, container.value)) ==>
          matched == Alike(els, stable, container.value, level))
  {
    var item := Plain(stable, level);
    var container := Parent(els, level);
    if container.None? {
      chain := [item];
    } else {
      var above := BuildUniqueAncestorChain(els, stable, container.value);
      chain := above + [item];
      LevelIsMatched(els, stable, level);
      if Unique(els, stable, above) {
        SiblingsAreMatched(els, stable, container.value, level);
      }
    }
    matched := MatchElements(els, stable, chain);
  }

  lemma SingleCompound(els: seq<Element>, stable: Stable, e: Element, c: Compound)
    ensures e in MatchElements(els, stable, [c]) <==> e in els && CompoundMatches(els, stable, e, c)
  {
  }

  lemma OwnIdIsUniqueIff(els: seq<Element>, stable: Stable, container: Element)
    requires container in els && container.htmlId != ""
    ensures Unique(els, stable, IdChain(container)) <==>
            forall e :: e in els && e.htmlId == container.htmlId ==> e == container
  {
    var chain := IdChain(container);
    forall e ensures e in MatchElements(els, stable, chain) <==> e in els && e.htmlId == container.htmlId {
      SingleCompound(els, stable, e, ById(container.htmlId, None));
    }
    assert container in MatchElements(els, stable, chain);
    if Unique(els, stable, chain) {
      forall e | e in els && e.htmlId == container.htmlId ensures e == container {
        TheOneMatch(els, stable, chain, e, container);
      }
    } else if forall e :: e in els && e.htmlId == container.htmlId ==> e == container {
      Ranks.SubsetSize(MatchElements(els, stable, chain), {container});
    }
  }

  /** The other forms never consist of an id alone. */
  lemma WidenedIsNoId(els: seq<Element>, stable: Stable, container: Element)
    ensures
      var w := WidenedFrom(els, stable, container);
      |w.chain| == 1 ==> w.chain[0].ByTag? && Pinned(els, w)[0].ByTag? && |Pinned(els, w)| == 1
  {
    WidenedKeepsTail(els, stable, [Plain(stable, container)], container, 0);
    var w := WidenedFrom(els, stable, container);
    assert w.chain[|w.chain| - 1..][0] == Plain(stable, container);
  }

  /** A container is named by its id alone exactly when no other element has that id. */
  lemma OwnIdIsUsedIff(els: seq<Element>, stable: Stable, container: Element)
    requires container in els && container.htmlId != ""
    ensures UniqueAncestorChain(els, stable, container) == [ById(container.htmlId, None)] <==>
            forall e :: e in els && e.htmlId == container.htmlId ==> e == container
  {
    OwnIdIsUniqueIff(els, stable, container);
    WidenedIsNoId(els, stable, container);
  }

  /**
   * The chosen chain is unique exactly when any of the forms it can take is: the id, the widened chain,
   * that chain with its head counted among its siblings, and either of these two headed by the body.
   */
  lemma UniqueIffAFormIs(els: seq<Element>, stable: Stable, container: Element)
    ensures
      var w := WidenedFrom(els, stable, container);
      var counted := [WithNth(w.chain[0], NthOfType(els, w.top))] + w.chain[1..];
      Unique(els, stable, UniqueAncestorChain(els, stable, container)) <==>
        || (container.htmlId != "" && Unique(els, stable, [ById(container.htmlId, None)]))
        || Unique(els, stable, w.chain) || Unique(els, stable, counted)
        || (w.reachedTop && (Unique(els, stable, [Body] + w.chain) || Unique(els, stable, [Body] + counted)))
  {
  }

  /** The same compound, with a position. */
  ghost predicate Counted(c: Compound, n: nat, counted: Compound) {
    && (c.ById? ==> counted == ById(c.id, Some(n)))
    && (c.ByTag? ==> counted == ByTag(c.tag, c.classes, Some(n)))
  }

  lemma NotUniqueIsPinned(els: seq<Element>, stable: Stable, container: Element)
    requires !Unique(els, stable, UniqueAncestorChain(els, stable, container))
    ensures UniqueAncestorChain(els, stable, container) == Pinned(els, WidenedFrom(els, stable, container))
  {
  }

  lemma PinnedIsCounted(els: seq<Element>, w: Climb)
    requires w.chain != [] && Indexed(els) && w.top in els
    ensures
      var nth := |set x | x in els && x.parentId == w.top.parentId && x.tag == w.top.tag && x.id <= w.top.id|;
      Pinned(els, w)[1..] == w.chain[1..] && Counted(w.chain[0], nth, Pinned(els, w)[0])
  {
    NthOfTypeCounts(els, w.top);
  }

  /** If no form is unique, it is the widened chain, its head counted among the siblings of the same tag. */
  lemma LastResort(els: seq<Element>, stable: Stable, container: Element)
    requires Indexed(els) && container in els && !Unique(els, stable, UniqueAncestorChain(els, stable, container))
    ensures
      var w, r := WidenedFrom(els, stable, container), UniqueAncestorChain(els, stable, container);
      var nth := |set x | x in els && x.parentId == w.top.parentId && x.tag == w.top.tag && x.id <= w.top.id|;
      && Ancestor(els, container, |w.chain| - 1) == Some(w.top)
      && r != [] && r[1..] == w.chain[1..] && Counted(w.chain[0], nth, r[0])
  {
    SpellsSelf(els, stable, container);
    WidenedSpells(els, stable, container, [Plain(stable, container)], container, 0);
    NotUniqueIsPinned(els, stable, container);
    PinnedIsCounted(els, WidenedFrom(els, stable, container));
  }

  // ---------------------------------------------------------------- one level of a click

  const MIN_REPEAT_COUNT := 2

  /** The same tag and the same stable classes: probably made from one template. */
  predicate SameSignature(stable: Stable, a: Element, b: Element) {
    a.tag == b.tag && StableClasses(stable, a) == StableClasses(stable, b)
  }

  function Twins(els: seq<Element>, stable: Stable, level: Element): set<Element> {
    set e | e in els && e.parentId == level.parentId && SameSignature(stable, e, level)
  }

  function Lookalikes(els: seq<Element>, stable: Stable, level: Element): set<Element> {
    set e | e in els && SameSignature(stable, e, level)
  }

  /** With fewer than three twins, a larger document-wide count wins and the container is left out. */
  predicate Global(els: seq<Element>, stable: Stable, level: Element) {
    |Twins(els, stable, level)| < 3 && |Lookalikes(els, stable, level)| > |Twins(els, stable, level)|
  }

  /** The elements a level is scored by. */
  function Repeats(els: seq<Element>, stable: Stable, level: Element): set<Element> {
    if Global(els, stable, level) then Lookalikes(els, stable, level) else Twins(els, stable, level)
  }

  lemma LookalikesMatch(els: seq<Element>, stable: Stable, level: Element)
    ensures Lookalikes(els, stable, level) <= MatchElements(els, stable, [Plain(stable, level)])
  {
    forall e | e in Lookalikes(els, stable, level) ensures e in MatchElements(els, stable, [Plain(stable, level)]) {
      SingleCompound(els, stable, e, Plain(stable, level));
    }
  }

  lemma TwinsMatch(els: seq<Element>, stable: Stable, level: Element)
    requires Indexed(els) && level in els && Parent(els, level).Some?
    ensures
      var above := UniqueAncestorChain(els, stable, Parent(els, level).value);
      Twins(els, stable, level) <= MatchElements(els, stable, above + [Plain(stable, level)])
  {
    var container := Parent(els, level).value;
    var above := UniqueAncestorChain(els, stable, container);
    UniqueChainMatchesContainer(els, stable, container);
    forall e | e in Twins(els, stable, level) ensures e in MatchElements(els, stable, above + [Plain(stable, level)]) {
      AppendItem(els, stable, e, above, Plain(stable, level));
    }
  }

  datatype Scored = Scored(chain: Chain, matched: set<Element>, score: nat, fromSiblings: bool)

  /** The chain tried for a level: without its container if it was counted in the whole page. */
  function LevelChain(els: seq<Element>, stable: Stable, level: Element): Chain {
    var container := Parent(els, level);
    if Global(els, stable, level) || container.None? then [Plain(stable, level)]
    else UniqueAncestorChain(els, stable, container.value) + [Plain(stable, level)]
  }

  /** What a level contributes, if it repeats. */
  function ScoredLevel(els: seq<Element>, stable: Stable, level: Element): Option<Scored> {
    var chain := LevelChain(els, stable, level);
    if |Repeats(els, stable, level)| < MIN_REPEAT_COUNT then None
    else Some(Scored(chain, MatchElements(els, stable, chain), |Repeats(els, stable, level)|,
                     !Global(els, stable, level)))
  }

  /**
   * A level is scored by the siblings that share its tag and stable classes; below three of them, by
   * all such elements of the page, if there are more. It takes two to be a candidate, and only if it
   * was scored by its siblings is it looked for in its own container.
   */
  lemma ScoreIs(els: seq<Element>, stable: Stable, level: Element)
    ensures
      var r := ScoredLevel(els, stable, level);
      var page := set e | e in els && e.tag == level.tag
        && (set c | c in e.classes && stable(c)) == (set c | c in level.classes && stable(c));
      var near := set e | e in page && e.parentId == level.parentId;
      if |near| < 3 && |page| > |near|
      then
        && (r.Some? <==> |page| >= 2)
        && (r.Some? ==> r.value.score == |page| && !r.value.fromSiblings && r.value.chain == [Plain(stable, level)])
      else
        && (r.Some? <==> |near| >= 2)
        && (r.Some? ==> r.value.score == |near| && r.value.fromSiblings)
        && (r.Some? && Parent(els, level).Some? ==>
              r.value.chain == UniqueAncestorChain(els, stable, Parent(els, level).value) + [Plain(stable, level)])
  {
    var page := set e | e in els && e.tag == level.tag
      && (set c | c in e.classes && stable(c)) == (set c | c in level.classes && stable(c));
    assert page == Lookalikes(els, stable, level);
    assert (set e | e in page && e.parentId == level.parentId) == Twins(els, stable, level);
  }

  /** The chain of a level matches the level and everything it was counted by. */
  lemma LevelRepeats(els: seq<Element>, stable: Stable, level: Element)
    requires Indexed(els) && level in els
    ensures
      var repeats, matched := Repeats(els, stable, level), MatchElements(els, stable, LevelChain(els, stable, level));
      repeats <= matched && level in repeats && |repeats| <= |matched|
  {
    LookalikesMatch(els, stable, level);
    if !Global(els, stable, level) && Parent(els, level).Some? { TwinsMatch(els, stable, level); }
    assert Twins(els, stable, level) <= Lookalikes(els, stable, level) && level in Twins(els, stable, level);
    Ranks.SubsetSize(Repeats(els, stable, level), MatchElements(els, stable, LevelChain(els, stable, level)));
  }

  /**
   * The body of the loop over levels. A level that repeats gives a candidate that matches at least
   * everything it was scored by, so the final test on the number of matches drops no such level.
   */
  method LevelCandidate(els: seq<Element>, stable: Stable, level: Element) returns (r: Option<Scored>)
    requires Indexed(els) && level in els
    ensures r == ScoredLevel(els, stable, level)
    ensures r.Some? <==> |Repeats(els, stable, level)| >= MIN_REPEAT_COUNT
    ensures r.Some? ==>
      && r.value.matched == MatchElements(els, stable, r.value.chain)
      && Repeats(els, stable, level) <= r.value.matched && level in r.value.matched
      && r.value.score == |Repeats(els, stable, level)| <= |r.value.matched|
      && r.value.fromSiblings == !Global(els, stable, level)
    ensures r.Some? && !r.value.fromSiblings ==> r.value.chain == [Plain(stable, level)]
    ensures
      var container := Parent(els, level);
      && r.Some? && r.value.fromSiblings && container.Some?
      && Unique(els, stable, UniqueAncestorChain(els, stable, container.value)) ==>
        r.value.matched == Alike(els, stable, container.value, level)
  {
    var twins := Twins(els, stable, level);
    var score, global := |twins|, false;
    if |twins| < 3 {
      var lookalikes := Lookalikes(els, stable, level);
      if |lookalikes| > |twins| {
        score, global := |lookalikes|, true;
      }
    }
    if score < MIN_REPEAT_COUNT {
      return None;
    }
    var chain: Chain, matched := [Plain(stable, level)], {};
    if global {
      matched := MatchElements(els, stable, chain);
    } else {
      chain, matched := SiblingCandidate(els, stable, level);
    }
    assert chain == LevelChain(els, stable, level);
    LevelRepeats(els, stable, level);
    if |matched| <= 1 {
      return None;
    }
    r := Some(Scored(chain, matched, score, !global));
  }
}
