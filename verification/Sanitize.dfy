/**
 * The allow-list walk of internal/inspect/sanitize.go: a recursive walk that numbers surviving
 * elements, appends them to the structural index, and builds the output tree.
 */
module Sanitize {
  import opened ElementIndex

  /** A parsed page node. Class list, id and alt text are what the attribute filter leaves. */
  datatype Node =
    | Text(data: string)
    | Elem(tag: string, classes: seq<string>, htmlId: string, alt: string, children: seq<Node>)
    | Comment

  /** A node of the page shown; `id` is its data-feedla-id. */
  datatype Shown =
    | ShownText(data: string)
    | ShownElem(id: nat, tag: string, classes: seq<string>, htmlId: string, children: seq<Shown>)

  /** Removal of external references from style text, not interpreted. */
  type Strip = string -> string

  const ALLOWED_TAGS: set<string> := {
    "div", "span", "p", "h1", "h2", "h3", "h4", "h5", "h6", "ul", "ol", "li", "dl", "dt", "dd",
    "table", "thead", "tbody", "tr", "th", "td", "article", "section", "header", "footer",
    "nav", "aside", "main", "figure", "figcaption", "time", "a", "strong", "em", "b", "i", "small",
    "br", "hr", "style"}

  const VOID_TAGS: set<string> := {"br", "hr"}

  predicate Survives(n: Node) {
    n.Elem? && (n.tag == "img" || n.tag in ALLOWED_TAGS)
  }

  function ElementFor(n: Node, id: nat, parentId: nat): Element
    requires n.Elem?
  {
    Element(id, n.tag, n.classes, n.htmlId, parentId)
  }

  // ---------------------------------------------------------------- the walk as a function

  datatype Walk = Walk(shown: seq<Shown>, elements: seq<Element>, nextId: nat)

  /** One walk continued by another. */
  function Then(a: Walk, b: Walk): Walk {
    Walk(a.shown + b.shown, a.elements + b.elements, b.nextId)
  }

  lemma ThenAssoc(a: Walk, b: Walk, c: Walk)
    ensures Then(Then(a, b), c) == Then(a, Then(b, c))
  {
  }

  lemma ThenNothing(a: Walk)
    ensures Then(a, Walk([], [], a.nextId)) == a
    ensures forall id :: Then(Walk([], [], id), a) == a
  {
  }

  function StyleText(strip: Strip, ns: seq<Node>): seq<Shown> {
    if ns == [] then []
    else
      StyleText(strip, ns[..|ns| - 1]) +
      (if ns[|ns| - 1].Text? then [ShownText(strip(ns[|ns| - 1].data))] else [])
  }

  function WalkNode(strip: Strip, n: Node, parentId: nat, nextId: nat): Walk
    decreases n, 1
  {
    if n.Text? then Walk([ShownText(n.data)], [], nextId)
    else if !Survives(n) then Walk([], [], nextId)
    else
      var id := nextId + 1;
      var self := ElementFor(n, id, parentId);
      if n.tag == "img" then
        Walk([ShownElem(id, "span", n.classes, n.htmlId, if n.alt != "" then [ShownText(n.alt)] else [])], [self], id)
      else if n.tag == "style" then
        Walk([ShownElem(id, n.tag, n.classes, n.htmlId, StyleText(strip, n.children))], [self], id)
      else if n.tag in VOID_TAGS then
        Walk([ShownElem(id, n.tag, n.classes, n.htmlId, [])], [self], id)
      else
        var w := WalkAll(strip, n.children, id, id);
        Walk([ShownElem(id, n.tag, n.classes, n.htmlId, w.shown)], [self] + w.elements, w.nextId)
  }

  function WalkAll(strip: Strip, ns: seq<Node>, parentId: nat, nextId: nat): Walk
    decreases ns, 0
  {
    if ns == [] then Walk([], [], nextId)
    else
      var a := WalkNode(strip, ns[0], parentId, nextId);
      Then(a, WalkAll(strip, ns[1..], parentId, a.nextId))
  }

  lemma {:induction false} WalkAllSnoc(strip: Strip, ns: seq<Node>, n: Node, parentId: nat, nextId: nat)
    ensures
      var a := WalkAll(strip, ns, parentId, nextId);
      WalkAll(strip, ns + [n], parentId, nextId) == Then(a, WalkNode(strip, n, parentId, a.nextId))
    decreases |ns|
  {
    if ns == [] {
      WalkAllOne(strip, n, parentId, nextId);
      ThenNothing(WalkNode(strip, n, parentId, nextId));
      assert ns + [n] == [n];
    } else {
      assert (ns + [n])[1..] == ns[1..] + [n] && (ns + [n])[0] == ns[0];
      var first := WalkNode(strip, ns[0], parentId, nextId);
      var rest := WalkAll(strip, ns[1..], parentId, first.nextId);
      WalkAllSnoc(strip, ns[1..], n, parentId, first.nextId);
      ThenAssoc(first, rest, WalkNode(strip, n, parentId, rest.nextId));
    }
  }

  lemma WalkOneMore(strip: Strip, ns: seq<Node>, i: nat, parentId: nat, nextId: nat)
    requires i < |ns|
    ensures
      var a := WalkAll(strip, ns[..i], parentId, nextId);
      WalkAll(strip, ns[..i + 1], parentId, nextId) == Then(a, WalkNode(strip, ns[i], parentId, a.nextId))
  {
    WalkAllSnoc(strip, ns[..i], ns[i], parentId, nextId);
    assert ns[..i + 1] == ns[..i] + [ns[i]];
  }

  lemma WalkAllOne(strip: Strip, n: Node, parentId: nat, nextId: nat)
    ensures WalkAll(strip, [n], parentId, nextId) == WalkNode(strip, n, parentId, nextId)
  {
    assert [n][1..] == [];
    ThenNothing(WalkNode(strip, n, parentId, nextId));
  }

  lemma Assoc<T>(a: seq<T>, b: seq<T>, c: seq<T>)
    ensures (a + b) + c == a + (b + c)
  {
  }

  lemma Nothing<T>(a: seq<T>)
    ensures a + [] == a
  {
  }

  /** A style element keeps its text children, stripped. */
  method StyleChildren(strip: Strip, ns: seq<Node>) returns (out: seq<Shown>)
    ensures out == StyleText(strip, ns)
  {
    out := [];
    var i := 0;
    while i < |ns|
      invariant 0 <= i <= |ns|
      invariant out == StyleText(strip, ns[..i])
    {
      assert ns[..i + 1][..i] == ns[..i];
      if ns[i].Text? {
        out := out + [ShownText(strip(ns[i].data))];
      }
      i := i + 1;
    }
    assert ns[..i] == ns;
  }

  // ---------------------------------------------------------------- the walker

  class Walker {
    var nextId: nat
    var elements: seq<Element>

    constructor ()
      ensures nextId == 0 && elements == []
    {
      nextId, elements := 0, [];
    }

    method AppendSanitized(strip: Strip, dst: seq<Shown>, n: Node, parentId: nat) returns (out: seq<Shown>)
      modifies this
      ensures var w := WalkNode(strip, n, parentId, old(nextId));
        && out == dst + w.shown && elements == old(elements) + w.elements && nextId == w.nextId
      decreases n, 2
    {
      if n.Text? {
        return dst + [ShownText(n.data)];
      }
      if n.Comment? || (n.tag != "img" && n.tag !in ALLOWED_TAGS) {
        Nothing(dst);
        Nothing(elements);
        return dst;
      }
      if n.tag == "img" {
        out := AppendImgPlaceholder(dst, n, parentId);
      } else {
        var node := AppendElement(strip, n, parentId);
        out := dst + [node];
      }
    }

    /** An allowed element: its number and index line first, then its children. */
    method AppendElement(strip: Strip, n: Node, parentId: nat) returns (node: Shown)
      requires Survives(n) && n.tag != "img"
      modifies this
      ensures var w := WalkNode(strip, n, parentId, old(nextId));
        && w.shown == [node] && elements == old(elements) + w.elements && nextId == w.nextId
      decreases n, 1
    {
      ghost var before := elements;
      nextId := nextId + 1;
      var id := nextId;
      var self := ElementFor(n, id, parentId);
      elements := elements + [self];
      var children: seq<Shown> := [];
      if n.tag == "style" {
        children := StyleChildren(strip, n.children);
      } else if n.tag !in VOID_TAGS {
        children := AppendChildren(strip, n.children, id);
        Assoc(before, [self], WalkAll(strip, n.children, id, id).elements);
      }
      node := ShownElem(id, n.tag, n.classes, n.htmlId, children);
    }

    method AppendChildren(strip: Strip, ns: seq<Node>, parentId: nat) returns (out: seq<Shown>)
      modifies this
      ensures var w := WalkAll(strip, ns, parentId, old(nextId));
        && out == w.shown && elements == old(elements) + w.elements && nextId == w.nextId
      decreases ns, 0
    {
      out := [];
      ghost var before, start := elements, nextId;
      Nothing(before);
      var i := 0;
      while i < |ns|
        invariant 0 <= i <= |ns|
        invariant out == WalkAll(strip, ns[..i], parentId, start).shown
        invariant elements == before + WalkAll(strip, ns[..i], parentId, start).elements
        invariant nextId == WalkAll(strip, ns[..i], parentId, start).nextId
      {
        WalkOneMore(strip, ns, i, parentId, start);
        Assoc(before, WalkAll(strip, ns[..i], parentId, start).elements,
              WalkNode(strip, ns[i], parentId, nextId).elements);
        out := AppendSanitized(strip, out, ns[i], parentId);
        i := i + 1;
      }
      assert ns[..i] == ns;
    }

    method AppendImgPlaceholder(dst: seq<Shown>, n: Node, parentId: nat) returns (out: seq<Shown>)
      requires n.Elem?
      modifies this
      ensures nextId == old(nextId) + 1 && elements == old(elements) + [ElementFor(n, nextId, parentId)]
      ensures
        var inside := if n.alt != "" then [ShownText(n.alt)] else [];
        out == dst + [ShownElem(nextId, "span", n.classes, n.htmlId, inside)]
    {
      nextId := nextId + 1;
      elements := elements + [ElementFor(n, nextId, parentId)];
      var children := if n.alt != "" then [ShownText(n.alt)] else [];
      out := dst + [ShownElem(nextId, "span", n.classes, n.htmlId, children)];
    }
  }

  // ---------------------------------------------------------------- what the index says

  /** One line of the index as the shown page alone determines it. */
  datatype Entry = Entry(id: nat, shownAs: string, classes: seq<string>, htmlId: string, parentId: nat)

  function Preorder(s: Shown, parentId: nat): seq<Entry>
    decreases s, 1
  {
    match s
    case ShownText(_) => []
    case ShownElem(id, tag, classes, htmlId, children) =>
      [Entry(id, tag, classes, htmlId, parentId)] + PreorderAll(children, id)
  }

  function PreorderAll(ss: seq<Shown>, parentId: nat): seq<Entry>
    decreases ss, 0
  {
    if ss == [] then [] else Preorder(ss[0], parentId) + PreorderAll(ss[1..], parentId)
  }

  /** An index line as shown: images appear as placeholder spans. */
  function AsShown(e: Element): Entry {
    Entry(e.id, if e.tag == "img" then "span" else e.tag, e.classes, e.htmlId, e.parentId)
  }

  function AllShown(els: seq<Element>): seq<Entry> {
    if els == [] then [] else [AsShown(els[0])] + AllShown(els[1..])
  }

  lemma AllShownOne(e: Element)
    ensures AllShown([e]) == [AsShown(e)]
  {
    assert [e][1..] == [];
  }

  lemma {:induction false} AllShownConcat(a: seq<Element>, b: seq<Element>)
    ensures AllShown(a + b) == AllShown(a) + AllShown(b)
  {
    if a == [] {
      assert a + b == b;
    } else {
      assert (a + b)[1..] == a[1..] + b;
      AllShownConcat(a[1..], b);
    }
  }

  lemma {:induction false} PreorderConcat(a: seq<Shown>, b: seq<Shown>, parentId: nat)
    ensures PreorderAll(a + b, parentId) == PreorderAll(a, parentId) + PreorderAll(b, parentId)
  {
    if a == [] {
      assert a + b == b;
    } else {
      assert (a + b)[1..] == a[1..] + b;
      PreorderConcat(a[1..], b, parentId);
    }
  }

  lemma {:induction false} StyleHasNoElements(strip: Strip, ns: seq<Node>, id: nat)
    ensures PreorderAll(StyleText(strip, ns), id) == []
  {
    if ns != [] {
      StyleHasNoElements(strip, ns[..|ns| - 1], id);
      var last := ns[|ns| - 1];
      PreorderConcat(StyleText(strip, ns[..|ns| - 1]), if last.Text? then [ShownText(strip(last.data))] else [], id);
    }
  }

  lemma PreorderOne(s: Shown, parentId: nat)
    ensures PreorderAll([s], parentId) == Preorder(s, parentId)
  {
    assert [s][1..] == [];
  }

  /** The index is the preorder of the page actually shown, with its real parents. */
  lemma {:induction false} WalkNodeIndexes(strip: Strip, n: Node, parentId: nat, nextId: nat)
    ensures var w := WalkNode(strip, n, parentId, nextId);
      PreorderAll(w.shown, parentId) == AllShown(w.elements)
    decreases n, 1
  {
    if Survives(n) {
      var w := WalkNode(strip, n, parentId, nextId);
      var id := nextId + 1;
      PreorderOne(w.shown[0], parentId);
      AllShownOne(ElementFor(n, id, parentId));
      if n.tag == "img" {
        PreorderOne(ShownText(n.alt), id);
      } else if n.tag == "style" {
        StyleHasNoElements(strip, n.children, id);
      } else if n.tag !in VOID_TAGS {
        WalkAllIndexes(strip, n.children, id, id);
        var below := WalkAll(strip, n.children, id, id);
        AllShownConcat([ElementFor(n, id, parentId)], below.elements);
      }
    }
  }

  lemma {:induction false} WalkAllIndexes(strip: Strip, ns: seq<Node>, parentId: nat, nextId: nat)
    ensures var w := WalkAll(strip, ns, parentId, nextId);
      PreorderAll(w.shown, parentId) == AllShown(w.elements)
    decreases ns, 0
  {
    if ns != [] {
      var a := WalkNode(strip, ns[0], parentId, nextId);
      var b := WalkAll(strip, ns[1..], parentId, a.nextId);
      WalkNodeIndexes(strip, ns[0], parentId, nextId);
      WalkAllIndexes(strip, ns[1..], parentId, a.nextId);
      PreorderConcat(a.shown, b.shown, parentId);
      AllShownConcat(a.elements, b.elements);
    }
  }

  /** Numbered consecutively after `from`, each parent either `parentId` or an earlier element. */
  ghost predicate Consecutive(els: seq<Element>, parentId: nat, from: nat, to: nat) {
    && to == from + |els|
    && (forall i :: 0 <= i < |els| ==> els[i].id == from + 1 + i)
    && (forall i :: 0 <= i < |els| ==> els[i].parentId == parentId || from < els[i].parentId < els[i].id)
  }

  lemma {:induction false} WalkNodeNumbers(strip: Strip, n: Node, parentId: nat, nextId: nat)
    ensures var w := WalkNode(strip, n, parentId, nextId);
      Consecutive(w.elements, parentId, nextId, w.nextId)
    decreases n, 1
  {
    if Survives(n) && n.tag != "img" && n.tag != "style" && n.tag !in VOID_TAGS {
      var id := nextId + 1;
      WalkAllNumbers(strip, n.children, id, id);
    }
  }

  lemma {:induction false} WalkAllNumbers(strip: Strip, ns: seq<Node>, parentId: nat, nextId: nat)
    ensures var w := WalkAll(strip, ns, parentId, nextId);
      Consecutive(w.elements, parentId, nextId, w.nextId)
    decreases ns, 0
  {
    if ns != [] {
      var a := WalkNode(strip, ns[0], parentId, nextId);
      WalkNodeNumbers(strip, ns[0], parentId, nextId);
      WalkAllNumbers(strip, ns[1..], parentId, a.nextId);
    }
  }

  lemma ConsecutiveIsIndexed(els: seq<Element>, to: nat)
    requires Consecutive(els, 0, 0, to)
    ensures Indexed(els)
  {
  }

  // ---------------------------------------------------------------- what is shown of the input

  /** The page written out. `Alt` is the text an image stands for. */
  datatype Token =
    | Open(tag: string, classes: seq<string>, htmlId: string)
    | Words(text: string)
    | Alt(text: string)
    | Close

  /** A token of the input under the tags around it, its own included. */
  datatype Placed = Placed(token: Token, path: seq<string>)

  /** The whole input in document order, whatever becomes of it. */
  function Written(ns: seq<Node>, path: seq<string>): seq<Placed>
    decreases ns, 0
  {
    if ns == [] then [] else WrittenOne(ns[0], path) + Written(ns[1..], path)
  }

  function WrittenOne(n: Node, path: seq<string>): seq<Placed>
    decreases n, 1
  {
    match n
    case Text(data) => [Placed(Words(data), path)]
    case Comment => []
    case Elem(tag, classes, htmlId, alt, children) =>
      [Placed(Open(tag, classes, htmlId), path + [tag]), Placed(Alt(alt), path + [tag])] +
      Written(children, path + [tag]) + [Placed(Close, path + [tag])]
  }

  predicate MayShow(tag: string) { tag in ALLOWED_TAGS || tag == "img" }

  /** Content shows through all of these tags: each may be shown, and none keeps its content back. */
  predicate Through(path: seq<string>) {
    forall k :: 0 <= k < |path| ==> MayShow(path[k]) && path[k] !in {"style", "br", "hr", "img"}
  }

  /** Straight inside an element that shows, with this tag. */
  predicate Inside(path: seq<string>, tag: string) {
    path != [] && Through(path[..|path| - 1]) && path[|path| - 1] == tag
  }

  /** What a token of the input comes to in the page shown, if anything. */
  function Showing(strip: Strip, p: Placed): seq<Token> {
    match p.token
    case Open(tag, classes, htmlId) =>
      if Inside(p.path, tag) && MayShow(tag) then [Open(if tag == "img" then "span" else tag, classes, htmlId)] else []
    case Close =>
      if p.path != [] && Inside(p.path, p.path[|p.path| - 1]) && MayShow(p.path[|p.path| - 1]) then [Close] else []
    case Words(text) =>
      if Through(p.path) then [Words(text)] else if Inside(p.path, "style") then [Words(strip(text))] else []
    case Alt(text) => if Inside(p.path, "img") && text != "" then [Words(text)] else []
  }

  function AllShowing(strip: Strip, ps: seq<Placed>): seq<Token> {
    if ps == [] then [] else Showing(strip, ps[0]) + AllShowing(strip, ps[1..])
  }

  /** The page shown, written out. */
  function ShownTokens(ss: seq<Shown>): seq<Token>
    decreases ss, 0
  {
    if ss == [] then [] else ShownToken(ss[0]) + ShownTokens(ss[1..])
  }

  function ShownToken(s: Shown): seq<Token>
    decreases s, 1
  {
    match s
    case ShownText(data) => [Words(data)]
    case ShownElem(_, tag, classes, htmlId, children) => [Open(tag, classes, htmlId)] + ShownTokens(children) + [Close]
  }

  lemma {:induction false} AllShowingConcat(strip: Strip, a: seq<Placed>, b: seq<Placed>)
    ensures AllShowing(strip, a + b) == AllShowing(strip, a) + AllShowing(strip, b)
  {
    if a == [] {
      assert a + b == b;
    } else {
      assert (a + b)[1..] == a[1..] + b && (a + b)[0] == a[0];
      AllShowingConcat(strip, a[1..], b);
      Assoc(Showing(strip, a[0]), AllShowing(strip, a[1..]), AllShowing(strip, b));
    }
  }

  lemma {:induction false} ShownTokensConcat(a: seq<Shown>, b: seq<Shown>)
    ensures ShownTokens(a + b) == ShownTokens(a) + ShownTokens(b)
  {
    if a == [] {
      assert a + b == b;
    } else {
      assert (a + b)[1..] == a[1..] + b;
      ShownTokensConcat(a[1..], b);
    }
  }

  lemma ShownTokensOne(s: Shown)
    ensures ShownTokens([s]) == ShownToken(s)
  {
    assert [s][1..] == [];
  }

  lemma AllShowingOne(strip: Strip, p: Placed)
    ensures AllShowing(strip, [p]) == Showing(strip, p)
  {
    assert [p][1..] == [];
  }

  lemma AllShowingTwo(strip: Strip, p: Placed, q: Placed)
    ensures AllShowing(strip, [p, q]) == Showing(strip, p) + Showing(strip, q)
  {
    assert [p, q][1..] == [q];
    AllShowingOne(strip, q);
  }

  /** What one element of the input comes to, its content included. */
  function ElementShowing(strip: Strip, n: Node, path: seq<string>): seq<Token>
    requires n.Elem?
  {
    var inside := path + [n.tag];
    Showing(strip, Placed(Open(n.tag, n.classes, n.htmlId), inside)) + Showing(strip, Placed(Alt(n.alt), inside)) +
    AllShowing(strip, Written(n.children, inside)) + Showing(strip, Placed(Close, inside))
  }

  lemma ElementWritten(strip: Strip, n: Node, path: seq<string>)
    requires n.Elem?
    ensures AllShowing(strip, WrittenOne(n, path)) == ElementShowing(strip, n, path)
  {
    var inside := path + [n.tag];
    var open, words := Placed(Open(n.tag, n.classes, n.htmlId), inside), Placed(Alt(n.alt), inside);
    var close := Placed(Close, inside);
    AllShowingConcat(strip, [open, words] + Written(n.children, inside), [close]);
    AllShowingConcat(strip, [open, words], Written(n.children, inside));
    AllShowingTwo(strip, open, words);
    AllShowingOne(strip, close);
  }

  /** What the first node of a list comes to, and what the rest does. */
  lemma WrittenFirst(strip: Strip, ns: seq<Node>, path: seq<string>)
    requires ns != []
    ensures AllShowing(strip, Written(ns, path)) ==
            AllShowing(strip, WrittenOne(ns[0], path)) + AllShowing(strip, Written(ns[1..], path))
    ensures ns[0].Elem? ==> AllShowing(strip, WrittenOne(ns[0], path)) == ElementShowing(strip, ns[0], path)
    ensures ns[0].Text? ==>
      AllShowing(strip, WrittenOne(ns[0], path)) == Showing(strip, Placed(Words(ns[0].data), path))
  {
    AllShowingConcat(strip, WrittenOne(ns[0], path), Written(ns[1..], path));
    if ns[0].Elem? {
      ElementWritten(strip, ns[0], path);
    } else if ns[0].Text? {
      AllShowingOne(strip, Placed(Words(ns[0].data), path));
    }
  }

  lemma OneTagMore(path: seq<string>, tag: string)
    ensures (path + [tag])[..|path|] == path
    ensures Inside(path + [tag], tag) <==> Through(path)
    ensures Through(path + [tag]) <==> Through(path) && MayShow(tag) && tag !in {"style", "br", "hr", "img"}
    ensures forall t :: Inside(path + [tag], t) <==> Through(path) && t == tag
  {
    var inside := path + [tag];
    assert inside[..|path|] == path;
    if Through(inside) {
      forall k | 0 <= k < |path| ensures MayShow(path[k]) && path[k] !in {"style", "br", "hr", "img"} {
        assert inside[k] == path[k];
      }
      assert inside[|path|] == tag;
    }
  }

  /** Below a tag that keeps its content back nothing shows, but for the text straight inside a style. */
  lemma {:induction false} NothingBelow(strip: Strip, ns: seq<Node>, path: seq<string>)
    requires !Through(path) && !Inside(path, "style")
    ensures AllShowing(strip, Written(ns, path)) == []
    decreases ns
  {
    if ns != [] {
      WrittenFirst(strip, ns, path);
      NothingBelow(strip, ns[1..], path);
      if ns[0].Elem? {
        OneTagMore(path, ns[0].tag);
        NothingBelow(strip, ns[0].children, path + [ns[0].tag]);
      }
    }
  }

  lemma StyleTextFirst(strip: Strip, ns: seq<Node>)
    requires ns != []
    ensures StyleText(strip, ns) ==
            (if ns[0].Text? then [ShownText(strip(ns[0].data))] else []) + StyleText(strip, ns[1..])
    decreases |ns|
  {
    var n := |ns| - 1;
    if n == 0 {
      assert ns[..0] == [] && ns[1..] == [];
    } else {
      assert ns[..n][1..] == ns[1..][..n - 1] && ns[1..][n - 1] == ns[n];
      StyleTextFirst(strip, ns[..n]);
    }
  }

  lemma {:induction false} OnlyStyleText(strip: Strip, ns: seq<Node>, path: seq<string>)
    requires Inside(path, "style")
    ensures AllShowing(strip, Written(ns, path)) == ShownTokens(StyleText(strip, ns))
    decreases |ns|
  {
    if ns != [] {
      WrittenFirst(strip, ns, path);
      OnlyStyleText(strip, ns[1..], path);
      StyleTextFirst(strip, ns);
      assert !Through(path) by { assert path[|path| - 1] == "style"; }
      if ns[0].Text? {
        ShownTokensConcat([ShownText(strip(ns[0].data))], StyleText(strip, ns[1..]));
        ShownTokensOne(ShownText(strip(ns[0].data)));
      } else {
        assert [] + StyleText(strip, ns[1..]) == StyleText(strip, ns[1..]);
        if ns[0].Elem? {
          OneTagMore(path, ns[0].tag);
          NothingBelow(strip, ns[0].children, path + [ns[0].tag]);
        }
      }
    }
  }

  /** One element shown, from its content. */
  lemma ElementShows(strip: Strip, n: Node, path: seq<string>, parentId: nat, nextId: nat)
    requires Through(path) && n.Elem?
    requires Through(path + [n.tag]) ==>
      ShownTokens(WalkAll(strip, n.children, nextId + 1, nextId + 1).shown) ==
      AllShowing(strip, Written(n.children, path + [n.tag]))
    ensures ShownTokens(WalkNode(strip, n, parentId, nextId).shown) == ElementShowing(strip, n, path)
  {
    if !MayShow(n.tag) {
      ForbiddenShows(strip, n, path, parentId, nextId);
    } else if n.tag in {"style", "br", "hr", "img"} {
      LeafShows(strip, n, path, parentId, nextId);
    } else {
      WalkedShows(strip, n, path, parentId, nextId);
    }
  }

  lemma WalkedShows(strip: Strip, n: Node, path: seq<string>, parentId: nat, nextId: nat)
    requires Through(path) && n.Elem? && MayShow(n.tag) && n.tag !in {"style", "br", "hr", "img"}
    requires
      ShownTokens(WalkAll(strip, n.children, nextId + 1, nextId + 1).shown) ==
      AllShowing(strip, Written(n.children, path + [n.tag]))
    ensures ShownTokens(WalkNode(strip, n, parentId, nextId).shown) == ElementShowing(strip, n, path)
  {
    OneTagMore(path, n.tag);
    ShownTokensOne(WalkNode(strip, n, parentId, nextId).shown[0]);
  }

  lemma ForbiddenShows(strip: Strip, n: Node, path: seq<string>, parentId: nat, nextId: nat)
    requires Through(path) && n.Elem? && !MayShow(n.tag)
    ensures ShownTokens(WalkNode(strip, n, parentId, nextId).shown) == ElementShowing(strip, n, path)
  {
    OneTagMore(path, n.tag);
    NothingBelow(strip, n.children, path + [n.tag]);
  }

  /** The elements whose children are not walked into. */
  lemma LeafShows(strip: Strip, n: Node, path: seq<string>, parentId: nat, nextId: nat)
    requires Through(path) && n.Elem? && MayShow(n.tag) && n.tag in {"style", "br", "hr", "img"}
    ensures ShownTokens(WalkNode(strip, n, parentId, nextId).shown) == ElementShowing(strip, n, path)
  {
    OneTagMore(path, n.tag);
    ShownTokensOne(WalkNode(strip, n, parentId, nextId).shown[0]);
    if n.tag == "style" {
      OnlyStyleText(strip, n.children, path + [n.tag]);
    } else {
      NothingBelow(strip, n.children, path + [n.tag]);
      ShownTokensOne(ShownText(n.alt));
    }
  }

  /** What is shown is the input, written out, without what its tags forbid or keep back. */
  lemma {:induction false} ShownIsTheAllowedInput(
    strip: Strip, ns: seq<Node>, path: seq<string>, parentId: nat, nextId: nat)
    requires Through(path)
    ensures ShownTokens(WalkAll(strip, ns, parentId, nextId).shown) == AllShowing(strip, Written(ns, path))
    decreases ns
  {
    if ns != [] {
      var n := ns[0];
      var a := WalkNode(strip, n, parentId, nextId);
      var b := WalkAll(strip, ns[1..], parentId, a.nextId);
      WrittenFirst(strip, ns, path);
      ShownIsTheAllowedInput(strip, ns[1..], path, parentId, a.nextId);
      ShownTokensConcat(a.shown, b.shown);
      if n.Elem? {
        if Through(path + [n.tag]) {
          ShownIsTheAllowedInput(strip, n.children, path + [n.tag], nextId + 1, nextId + 1);
        }
        ElementShows(strip, n, path, parentId, nextId);
      } else if n.Text? {
        ShownTokensOne(ShownText(n.data));
      }
    }
  }

  // ---------------------------------------------------------------- what is indexed of the input

  /** What an index line says of its element, apart from numbers. */
  datatype Line = Line(tag: string, classes: seq<string>, htmlId: string)

  function Lines(els: seq<Element>): seq<Line> {
    seq(|els|, i requires 0 <= i < |els| => Line(els[i].tag, els[i].classes, els[i].htmlId))
  }

  /** The line an opening tag of the input comes to, under its own tag. */
  function Listing(p: Placed): seq<Line> {
    if p.token.Open? && Inside(p.path, p.token.tag) && MayShow(p.token.tag)
    then [Line(p.token.tag, p.token.classes, p.token.htmlId)] else []
  }

  function AllListing(ps: seq<Placed>): seq<Line> {
    if ps == [] then [] else Listing(ps[0]) + AllListing(ps[1..])
  }

  lemma {:induction false} AllListingConcat(a: seq<Placed>, b: seq<Placed>)
    ensures AllListing(a + b) == AllListing(a) + AllListing(b)
  {
    if a == [] {
      assert a + b == b;
    } else {
      assert (a + b)[1..] == a[1..] + b && (a + b)[0] == a[0];
      AllListingConcat(a[1..], b);
      Assoc(Listing(a[0]), AllListing(a[1..]), AllListing(b));
    }
  }

  lemma ElementListed(n: Node, path: seq<string>)
    requires n.Elem?
    ensures AllListing(WrittenOne(n, path)) ==
            Listing(Placed(Open(n.tag, n.classes, n.htmlId), path + [n.tag]))
            + AllListing(Written(n.children, path + [n.tag]))
  {
    var inside := path + [n.tag];
    var open, words := Placed(Open(n.tag, n.classes, n.htmlId), inside), Placed(Alt(n.alt), inside);
    var close := Placed(Close, inside);
    AllListingConcat([open, words] + Written(n.children, inside), [close]);
    AllListingConcat([open, words], Written(n.children, inside));
    TagListed(open, words, close);
  }

  lemma TagListed(open: Placed, words: Placed, close: Placed)
    requires !words.token.Open? && !close.token.Open?
    ensures AllListing([open, words]) == Listing(open) && AllListing([close]) == []
  {
    assert [open, words][1..] == [words] && [words][1..] == [] && [close][1..] == [];
    assert AllListing([words]) == Listing(words) + AllListing([]);
    assert AllListing([close]) == Listing(close) + AllListing([]);
  }

  lemma {:induction false} NothingListedBelow(ns: seq<Node>, path: seq<string>)
    requires !Through(path)
    ensures AllListing(Written(ns, path)) == []
    decreases ns
  {
    if ns != [] {
      AllListingConcat(WrittenOne(ns[0], path), Written(ns[1..], path));
      NothingListedBelow(ns[1..], path);
      if ns[0].Elem? {
        OneTagMore(path, ns[0].tag);
        ElementListed(ns[0], path);
        NothingListedBelow(ns[0].children, path + [ns[0].tag]);
      }
    }
  }

  lemma LinesConcat(a: seq<Element>, b: seq<Element>)
    ensures Lines(a + b) == Lines(a) + Lines(b)
  {
  }

  lemma ElementIndexed(strip: Strip, n: Node, path: seq<string>, parentId: nat, nextId: nat)
    requires Through(path) && n.Elem?
    requires Through(path + [n.tag]) ==>
      Lines(WalkAll(strip, n.children, nextId + 1, nextId + 1).elements) ==
      AllListing(Written(n.children, path + [n.tag]))
    ensures Lines(WalkNode(strip, n, parentId, nextId).elements) == AllListing(WrittenOne(n, path))
  {
    OneTagMore(path, n.tag);
    ElementListed(n, path);
    if Through(path + [n.tag]) {
      LinesConcat([ElementFor(n, nextId + 1, parentId)], WalkAll(strip, n.children, nextId + 1, nextId + 1).elements);
    } else {
      NothingListedBelow(n.children, path + [n.tag]);
    }
  }

  /** The index lists the elements of the input that show, in document order, under their own tags. */
  lemma {:induction false} IndexIsTheAllowedInput(
    strip: Strip, ns: seq<Node>, path: seq<string>, parentId: nat, nextId: nat)
    requires Through(path)
    ensures Lines(WalkAll(strip, ns, parentId, nextId).elements) == AllListing(Written(ns, path))
    decreases ns
  {
    if ns != [] {
      var n := ns[0];
      var a := WalkNode(strip, n, parentId, nextId);
      var b := WalkAll(strip, ns[1..], parentId, a.nextId);
      AllListingConcat(WrittenOne(n, path), Written(ns[1..], path));
      IndexIsTheAllowedInput(strip, ns[1..], path, parentId, a.nextId);
      LinesConcat(a.elements, b.elements);
      if n.Elem? {
        if Through(path + [n.tag]) {
          IndexIsTheAllowedInput(strip, n.children, path + [n.tag], nextId + 1, nextId + 1);
        }
        ElementIndexed(strip, n, path, parentId, nextId);
      } else if n.Text? {
        assert AllListing(WrittenOne(n, path)) == [];
      }
    }
  }

  /** Tags that load, run or send something. */
  const ACTIVE_TAGS: set<string> := {
    "script", "iframe", "frame", "object", "embed", "applet", "form", "input", "button", "select", "textarea",
    "svg", "math", "link", "meta", "base", "img", "video", "audio", "source", "template", "noscript"}

  lemma NothingActiveIsAllowed(tag: string)
    ensures tag in ACTIVE_TAGS ==> tag !in ALLOWED_TAGS
  {
  }

  lemma {:induction false} OnlyAllowedShows(strip: Strip, ps: seq<Placed>, t: Token)
    requires t in AllShowing(strip, ps) && t.Open?
    ensures t.tag in ALLOWED_TAGS && t.tag !in ACTIVE_TAGS
  {
    NothingActiveIsAllowed(t.tag);
    if t !in Showing(strip, ps[0]) {
      OnlyAllowedShows(strip, ps[1..], t);
    }
  }

  /** `Sanitize`: the body's children, walked from the top. */
  method Run(strip: Strip, body: seq<Node>) returns (shown: seq<Shown>, elements: seq<Element>)
    ensures ShownTokens(shown) == AllShowing(strip, Written(body, []))
    ensures Lines(elements) == AllListing(Written(body, []))
    ensures forall t :: t in ShownTokens(shown) && t.Open? ==> t.tag in ALLOWED_TAGS && t.tag !in ACTIVE_TAGS
    ensures PreorderAll(shown, 0) == AllShown(elements)
    ensures Consecutive(elements, 0, 0, |elements|) && Indexed(elements)
  {
    ghost var walk := WalkAll(strip, body, 0, 0);
    ShownIsTheAllowedInput(strip, body, [], 0, 0);
    IndexIsTheAllowedInput(strip, body, [], 0, 0);
    forall t | t in AllShowing(strip, Written(body, [])) && t.Open?
      ensures t.tag in ALLOWED_TAGS && t.tag !in ACTIVE_TAGS
    {
      OnlyAllowedShows(strip, Written(body, []), t);
    }
    WalkAllIndexes(strip, body, 0, 0);
    WalkAllNumbers(strip, body, 0, 0);
    ConsecutiveIsIndexed(walk.elements, walk.nextId);
    var w := new Walker();
    shown := w.AppendChildren(strip, body, 0);
    elements := w.elements;
    assert elements == walk.elements;
  }
}
