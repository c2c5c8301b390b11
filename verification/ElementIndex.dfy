/**
 * The element index a sanitized page comes with (internal/inspect/sanitize.go) as
 * web/src/lib/selectorGen.ts uses it: lookups, and the two walks over subtrees.
 */
module ElementIndex {
  import opened Wrappers

  /** One surviving element; `htmlId` is "" without an id attribute, `parentId` 0 at the top. */
  datatype Element = Element(id: nat, tag: string, classes: seq<string>, htmlId: string, parentId: nat)

  /** Numbered in document order, every parent before its children. */
  ghost predicate Indexed(els: seq<Element>) {
    && (forall i, j :: 0 <= i < j < |els| ==> els[i].id < els[j].id)
    && (forall i :: 0 <= i < |els| ==> els[i].parentId < els[i].id)
  }

  function ById(els: seq<Element>, id: nat): (r: Option<Element>)
    ensures r.Some? ==> r.value in els && r.value.id == id
    ensures r.None? ==> forall e :: e in els ==> e.id != id
  {
    if els == [] then None
    else if els[0].id == id then Some(els[0])
    else ById(els[1..], id)
  }

  lemma IdsIdentify(els: seq<Element>, a: Element, b: Element)
    requires Indexed(els) && a in els && b in els && a.id == b.id
    ensures a == b
  {
  }

  function Parent(els: seq<Element>, e: Element): Option<Element> {
    ById(els, e.parentId)
  }

  function Children(els: seq<Element>, id: nat): (r: seq<Element>)
    ensures forall e :: e in r <==> e in els && e.parentId == id
  {
    if els == [] then []
    else
      var rest := Children(els[1..], id);
      if els[0].parentId == id then [els[0]] + rest else rest
  }

  lemma {:induction false} ChildrenIndexed(els: seq<Element>, id: nat)
    requires Indexed(els)
    ensures Indexed(Children(els, id))
  {
    if els != [] {
      ChildrenIndexed(els[1..], id);
      var rest := Children(els[1..], id);
      forall i | 0 <= i < |rest| ensures els[0].id < rest[i].id {
        assert rest[i] in els[1..];
      }
    }
  }

  /** `buildIndex`: the two maps behind `byId.get` and `children.get`. */
  method BuildIndex(els: seq<Element>) returns (byId: map<nat, Element>, children: map<nat, seq<Element>>)
    requires Indexed(els)
    ensures forall id :: (id in byId <==> ById(els, id).Some?) && (id in byId ==> ById(els, id) == Some(byId[id]))
    ensures forall id :: (if id in children then children[id] else []) == Children(els, id)
  {
    byId, children := map[], map[];
    var n := |els|;
    assert els[n..] == [];
    while n > 0
      invariant 0 <= n <= |els|
      invariant forall id :: id in byId <==> ById(els[n..], id).Some?
      invariant forall id :: id in byId ==> ById(els[n..], id) == Some(byId[id])
      invariant forall id :: (if id in children then children[id] else []) == Children(els[n..], id)
    {
      n := n - 1;
      assert els[n..][1..] == els[n + 1..];
      var e := els[n];
      byId := byId[e.id := e];
      children := children[e.parentId := [e] + (if e.parentId in children then children[e.parentId] else [])];
    }
    assert els[0..] == els;
  }

  // ---------------------------------------------------------------- subtrees

  /** `e` is the element numbered `id`, or lies below it. */
  predicate Descends(els: seq<Element>, e: Element, id: nat)
    requires Indexed(els) && e in els
    decreases e.id
  {
    e.id == id ||
    (Parent(els, e).Some? && Descends(els, Parent(els, e).value, id))
  }

  /** The walk up, with its guard against cycles. */
  method IsDescendantOrSelf(els: seq<Element>, el: Element, id: nat) returns (r: bool)
    requires Indexed(els) && el in els
    ensures r == Descends(els, el, id)
  {
    var seen: set<nat> := {};
    var cur := Some(el);
    while cur.Some? && cur.value.id !in seen
      invariant cur.Some? ==> cur.value in els
      invariant cur.Some? ==> forall s :: s in seen ==> cur.value.id < s
      invariant Descends(els, el, id) == (cur.Some? && Descends(els, cur.value, id))
      decreases if cur.Some? then 1 + cur.value.id else 0
    {
      if cur.value.id == id {
        return true;
      }
      seen := seen + {cur.value.id};
      cur := if cur.value.parentId != 0 then ById(els, cur.value.parentId) else None;
    }
    return false;
  }

  lemma {:induction false} DescendsDown(els: seq<Element>, e: Element, id: nat)
    requires Indexed(els) && e in els
    ensures Descends(els, e, id) ==> id <= e.id
    decreases e.id
  {
    if e.id != id && Parent(els, e).Some? { DescendsDown(els, Parent(els, e).value, id); }
  }

  /** What lies below an element lies at it or below one of its children. */
  lemma {:induction false} DescendsThroughChild(els: seq<Element>, e: Element, el: Element)
    requires Indexed(els) && e in els && el in els
    ensures Descends(els, e, el.id) <==>
      e.id == el.id || exists c :: c in Children(els, el.id) && Descends(els, e, c.id)
    decreases e.id
  {
    if e.id != el.id {
      if Parent(els, e).Some? {
        var p := Parent(els, e).value;
        DescendsThroughChild(els, p, el);
        if p.id == el.id {
          assert e in Children(els, el.id) && Descends(els, e, e.id);
        }
      }
      forall c | c in Children(els, el.id) && Descends(els, e, c.id) ensures Descends(els, e, el.id) {
        if e.id == c.id {
          IdsIdentify(els, e, c);
          IdsIdentify(els, Parent(els, e).value, el);
        }
      }
    }
  }

  function Ids(els: seq<Element>): set<nat> {
    set e | e in els :: e.id
  }

  function SubtreeIds(els: seq<Element>, id: nat): set<nat>
    requires Indexed(els)
  {
    set e | e in els && Descends(els, e, id) :: e.id
  }

  /** The stack of the walk down holds distinct elements, none visited, each below the root. */
  ghost predicate Stack(els: seq<Element>, stack: seq<Element>, visited: set<nat>, root: Element) {
    && (forall i :: 0 <= i < |stack| ==> stack[i] in els && stack[i].id !in visited)
    && (forall i, j :: 0 <= i < j < |stack| ==> stack[i].id != stack[j].id)
    && (forall i :: 0 <= i < |stack| ==> stack[i].id == root.id || stack[i].parentId in visited)
    && (forall e :: e in els && e.id in visited ==> e.id == root.id || e.parentId in visited)
    && (forall i :: 0 <= i < |stack| ==> root.id <= stack[i].id)
  }

  /** Is `e` visited, or below something still on the stack? */
  ghost predicate Covered(els: seq<Element>, e: Element, stack: seq<Element>, visited: set<nat>)
    requires Indexed(els) && e in els
  {
    e.id in visited || exists s :: s in stack && Descends(els, e, s.id)
  }

  lemma PopPushStack(els: seq<Element>, stack: seq<Element>, visited: set<nat>, root: Element)
    requires Indexed(els) && root in els && stack != [] && Stack(els, stack, visited, root)
    ensures
      var el := stack[|stack| - 1];
      Stack(els, stack[..|stack| - 1] + Children(els, el.id), visited + {el.id}, root)
  {
    var el := stack[|stack| - 1];
    var kids := Children(els, el.id);
    var init := stack[..|stack| - 1];
    var next := init + kids;
    var seen := visited + {el.id};
    ChildrenIndexed(els, el.id);
    forall i | 0 <= i < |kids| ensures kids[i] in els && kids[i].parentId == el.id && kids[i].id > el.id {
      assert kids[i] in kids;
    }
    forall i | 0 <= i < |next| ensures
      && next[i] in els && next[i].id !in seen
      && (next[i].id == root.id || next[i].parentId in seen) && root.id <= next[i].id
    {
      if i >= |init| {
        assert next[i] == kids[i - |init|];
      }
    }
    forall i, j | 0 <= i < j < |next| ensures next[i].id != next[j].id {
      if i < |init| <= j {
        var c := kids[j - |init|];
        assert next[j] == c;
        if init[i].id == c.id { IdsIdentify(els, init[i], c); }
      }
    }
    forall e | e in els && e.id in seen ensures e.id == root.id || e.parentId in seen {
      if e.id == el.id { IdsIdentify(els, e, el); }
    }
  }

  lemma PopPushCovers(els: seq<Element>, stack: seq<Element>, visited: set<nat>, e: Element)
    requires Indexed(els) && stack != [] && e in els && stack[|stack| - 1] in els
    ensures
      var el := stack[|stack| - 1];
      Covered(els, e, stack, visited) <==>
        Covered(els, e, stack[..|stack| - 1] + Children(els, el.id), visited + {el.id})
  {
    var el := stack[|stack| - 1];
    var init, kids := stack[..|stack| - 1], Children(els, el.id);
    assert stack == init + [el];
    DescendsThroughChild(els, e, el);
  }

  /** The walk down from an element collects exactly what the walk up finds below it. */
  method CollectSubtreeIds(els: seq<Element>, root: Element) returns (result: set<nat>)
    requires Indexed(els) && root in els
    ensures result == SubtreeIds(els, root.id)
  {
    result := {};
    var stack := [root];
    while |stack| > 0
      invariant Stack(els, stack, result, root)
      invariant result <= Ids(els)
      invariant forall e :: e in els ==> (Descends(els, e, root.id) <==> Covered(els, e, stack, result))
      decreases Ids(els) - result
    {
      var el := stack[|stack| - 1];
      PopPushStack(els, stack, result, root);
      forall e | e in els
        ensures Covered(els, e, stack, result) <==>
          Covered(els, e, stack[..|stack| - 1] + Children(els, el.id), result + {el.id})
      {
        PopPushCovers(els, stack, result, e);
      }
      assert el.id in Ids(els) - result;
      stack := stack[..|stack| - 1] + Children(els, el.id);
      result := result + {el.id};
    }
  }
}
