/**
 * The pruning pass of internal/fulltext/boilerplate/boilerplate.go: digests of every subtree,
 * and the removal of repeated, link-dominated ones.
 */
module BoilerplatePrune {
  import opened DistinctLists
  import opened Boilerplate
  import opened BoilerplateRuns

  datatype Node =
    | Text(text: string)
    | Elem(tag: string, attrs: seq<string>, children: seq<Node>)
    | Other(children: seq<Node>)

  const MIN_SIGNATURE_TEXT_LEN := 32
  const MAX_CANDIDATE_DEPTH := 10

  /** What is hashed for one node: its text, or its tag and sorted attributes over its children's digests. */
  datatype Shape =
    | TextShape(text: string)
    | NodeShape(tag: string, attrs: multiset<string>, kids: seq<string>)
    | AnonymousShape(kids: seq<string>)

  /** Text normalization and hashing, not interpreted. */
  datatype Reader = Reader(normalize: string -> string, hash: Shape -> string)

  datatype Digest = Digest(sig: string, textLen: nat, linkTextLen: nat)

  // ---------------------------------------------------------------- digests

  function DigestOf(r: Reader, n: Node): (d: Digest)
    ensures d.linkTextLen <= d.textLen
    decreases n, 1
  {
    match n
    case Text(text) => Digest(r.hash(TextShape(r.normalize(text))), |r.normalize(text)|, 0)
    case Elem(tag, attrs, children) =>
      var kids := DigestAll(r, children);
      Digest(r.hash(NodeShape(tag, multiset(attrs), kids.sigs)), kids.textLen,
             if tag == "a" then kids.textLen else kids.linkTextLen)
    case Other(children) =>
      var kids := DigestAll(r, children);
      Digest(r.hash(AnonymousShape(kids.sigs)), kids.textLen, kids.linkTextLen)
  }

  datatype Digests = Digests(sigs: seq<string>, textLen: nat, linkTextLen: nat)

  function DigestAll(r: Reader, ns: seq<Node>): (d: Digests)
    ensures d.linkTextLen <= d.textLen && |d.sigs| == |ns|
    decreases ns, 0
  {
    if ns == [] then Digests([], 0, 0)
    else
      var first := DigestOf(r, ns[0]);
      var rest := DigestAll(r, ns[1..]);
      Digests([first.sig] + rest.sigs, first.textLen + rest.textLen, first.linkTextLen + rest.linkTextLen)
  }

  predicate IsCandidate(d: Digest, depth: nat) {
    depth <= MAX_CANDIDATE_DEPTH && d.textLen >= MIN_SIGNATURE_TEXT_LEN
  }

  predicate IsChromeShaped(d: Digest) {
    d.textLen == 0 || d.linkTextLen * 2 >= d.textLen
  }

  /** Is the subtree recorded at all? `html` and `body` are walked into but never candidates. */
  predicate Recorded(r: Reader, n: Node, depth: nat) {
    n.Elem? && n.tag != "head" && n.tag != "html" && n.tag != "body" && IsCandidate(DigestOf(r, n), depth)
  }

  predicate Detached(r: Reader, l: Learner, n: Node, depth: nat) {
    Recorded(r, n, depth) && IsBoilerplate(l, DigestOf(r, n).sig) && IsChromeShaped(DigestOf(r, n))
  }

  // ---------------------------------------------------------------- the walk

  /** What is left under a parent, what was detached, and the signatures met, in visiting order. */
  datatype Pruned = Pruned(kept: seq<Node>, removed: seq<Node>, met: seq<string>)

  function Join(a: Pruned, b: Pruned): Pruned {
    Pruned(a.kept + b.kept, a.removed + b.removed, a.met + b.met)
  }

  function PruneAll(r: Reader, l: Learner, ns: seq<Node>, depth: nat): Pruned
    decreases ns, 0
  {
    if ns == [] then Pruned([], [], [])
    else Join(PruneOne(r, l, ns[0], depth), PruneAll(r, l, ns[1..], depth))
  }

  function PruneOne(r: Reader, l: Learner, n: Node, depth: nat): Pruned
    decreases n, 1
  {
    if !n.Elem? || n.tag == "head" then Pruned([n], [], [])
    else
      var met := if Recorded(r, n, depth) then [DigestOf(r, n).sig] else [];
      if Detached(r, l, n, depth) then Pruned([], [n], met)
      else
        var below := PruneAll(r, l, n.children, depth + 1);
        Pruned([n.(children := below.kept)], below.removed, met + below.met)
  }

  datatype Result = Result(doc: Node, removed: seq<Node>, sigs: seq<string>)

  /** `Apply`: the document walked from its children down, and each signature reported once. */
  function Apply(r: Reader, l: Learner, doc: Node): Result
    requires doc.Other?
  {
    var p := PruneAll(r, l, doc.children, 0);
    Result(Other(p.kept), p.removed, AddAll([], p.met))
  }

  lemma JoinAssoc(a: Pruned, b: Pruned, c: Pruned)
    ensures Join(Join(a, b), c) == Join(a, Join(b, c))
  {
  }

  lemma {:induction false} PruneAllSnoc(r: Reader, l: Learner, ns: seq<Node>, n: Node, depth: nat)
    ensures PruneAll(r, l, ns + [n], depth) == Join(PruneAll(r, l, ns, depth), PruneOne(r, l, n, depth))
    decreases |ns|
  {
    var one := PruneOne(r, l, n, depth);
    if ns == [] {
      assert ns + [n] == [n] && [n][1..] == [];
      assert Join(one, Pruned([], [], [])) == one && Join(Pruned([], [], []), one) == one;
    } else {
      assert (ns + [n])[1..] == ns[1..] + [n] && (ns + [n])[0] == ns[0];
      PruneAllSnoc(r, l, ns[1..], n, depth);
      JoinAssoc(PruneOne(r, l, ns[0], depth), PruneAll(r, l, ns[1..], depth), one);
    }
  }

  /** What one more child adds to the running results. */
  lemma PruneMore(r: Reader, l: Learner, ns: seq<Node>, i: nat, depth: nat, sigs0: seq<string>)
    requires i < |ns|
    ensures
      var done, one := PruneAll(r, l, ns[..i], depth), PruneOne(r, l, ns[i], depth);
      var more := PruneAll(r, l, ns[..i + 1], depth);
      && more.kept == done.kept + one.kept
      && |more.removed| == |done.removed| + |one.removed|
      && AddAll(sigs0, more.met) == AddAll(AddAll(sigs0, done.met), one.met)
  {
    assert ns[..i + 1] == ns[..i] + [ns[i]];
    PruneAllSnoc(r, l, ns[..i], ns[i], depth);
    AddAllConcat(sigs0, PruneAll(r, l, ns[..i], depth).met, PruneOne(r, l, ns[i], depth).met);
  }

  /** The recursive closure `walk`, with its running count, record of signatures and detachments. */
  method Walk(r: Reader, l: Learner, ns: seq<Node>, depth: nat, removed0: nat, sigs0: seq<string>)
    returns (kept: seq<Node>, removed: nat, sigs: seq<string>)
    ensures var p := PruneAll(r, l, ns, depth);
      && kept == p.kept && removed == removed0 + |p.removed| && sigs == AddAll(sigs0, p.met)
    decreases ns, 0
  {
    kept, removed, sigs := [], removed0, sigs0;
    var i := 0;
    while i < |ns|
      invariant 0 <= i <= |ns|
      invariant kept == PruneAll(r, l, ns[..i], depth).kept
      invariant removed == removed0 + |PruneAll(r, l, ns[..i], depth).removed|
      invariant sigs == AddAll(sigs0, PruneAll(r, l, ns[..i], depth).met)
    {
      PruneMore(r, l, ns, i, depth, sigs0);
      var one;
      one, removed, sigs := WalkChild(r, l, ns[i], depth, removed, sigs);
      kept := kept + one;
      i := i + 1;
    }
    assert ns[..i] == ns;
  }

  /** The body of its loop: the child is skipped, detached, or walked into. */
  method WalkChild(r: Reader, l: Learner, c: Node, depth: nat, removed0: nat, sigs0: seq<string>)
    returns (kept: seq<Node>, removed: nat, sigs: seq<string>)
    ensures var p := PruneOne(r, l, c, depth);
      && kept == p.kept && removed == removed0 + |p.removed| && sigs == AddAll(sigs0, p.met)
    decreases c, 1
  {
    removed, sigs := removed0, sigs0;
    if !c.Elem? || c.tag == "head" {
      return [c], removed, sigs;
    }
    var d := DigestOf(r, c);
    if c.tag != "html" && c.tag != "body" && IsCandidate(d, depth) {
      AddAllOne(sigs0, d.sig);
      if d.sig !in sigs {
        sigs := sigs + [d.sig];
      }
      if IsBoilerplate(l, d.sig) && IsChromeShaped(d) {
        return [], removed + 1, sigs;
      }
      AddAllConcat(sigs0, [d.sig], PruneAll(r, l, c.children, depth + 1).met);
    } else {
      NoneMet(PruneAll(r, l, c.children, depth + 1).met);
    }
    var below;
    below, removed, sigs := Walk(r, l, c.children, depth + 1, removed, sigs);
    kept := [c.(children := below)];
  }

  lemma NoneMet(met: seq<string>)
    ensures [] + met == met
  {
  }

  lemma AddAllOne(order: seq<string>, sig: string)
    ensures AddAll(order, [sig]) == if sig in order then order else order + [sig]
  {
    assert [sig][..0] == [];
  }

  // ---------------------------------------------------------------- conservation

  /** The bag of texts under a node. */
  function Texts(n: Node): multiset<string>
    decreases n, 1
  {
    match n
    case Text(text) => multiset{text}
    case Elem(_, _, children) => TextsAll(children)
    case Other(children) => TextsAll(children)
  }

  function TextsAll(ns: seq<Node>): multiset<string>
    decreases ns, 0
  {
    if ns == [] then multiset{} else Texts(ns[0]) + TextsAll(ns[1..])
  }

  lemma {:induction false} TextsConcat(a: seq<Node>, b: seq<Node>)
    ensures TextsAll(a + b) == TextsAll(a) + TextsAll(b)
    decreases |a|
  {
    if a == [] {
      assert a + b == b;
    } else {
      assert (a + b)[1..] == a[1..] + b;
      TextsConcat(a[1..], b);
    }
  }

  lemma TextsOne(n: Node)
    ensures TextsAll([n]) == Texts(n)
  {
    assert [n][1..] == [];
  }

  /** Every text is still in the page, or in a detached subtree, and nowhere else. */
  lemma {:induction false} PruneConservesText(r: Reader, l: Learner, ns: seq<Node>, depth: nat)
    ensures var p := PruneAll(r, l, ns, depth);
      TextsAll(ns) == TextsAll(p.kept) + TextsAll(p.removed)
    decreases ns, 0
  {
    if ns != [] {
      var a, b := PruneOne(r, l, ns[0], depth), PruneAll(r, l, ns[1..], depth);
      PruneOneConservesText(r, l, ns[0], depth);
      PruneConservesText(r, l, ns[1..], depth);
      TextsConcat(a.kept, b.kept);
      TextsConcat(a.removed, b.removed);
    }
  }

  lemma {:induction false} PruneOneConservesText(r: Reader, l: Learner, n: Node, depth: nat)
    ensures var p := PruneOne(r, l, n, depth);
      Texts(n) == TextsAll(p.kept) + TextsAll(p.removed)
    decreases n, 1
  {
    TextsOne(n);
    if n.Elem? && n.tag != "head" && !Detached(r, l, n, depth) {
      PruneConservesText(r, l, n.children, depth + 1);
      TextsOne(n.(children := PruneAll(r, l, n.children, depth + 1).kept));
    }
  }

  lemma ApplyConservesText(r: Reader, l: Learner, doc: Node)
    requires doc.Other?
    ensures Texts(doc) == Texts(Apply(r, l, doc).doc) + TextsAll(Apply(r, l, doc).removed)
  {
    PruneConservesText(r, l, doc.children, 0);
  }

  // ---------------------------------------------------------------- what gets removed

  /** `n` is among the nodes `ns`, met at depth `depth`, or below them, at depth `d`. */
  predicate OccursAt(ns: seq<Node>, depth: nat, n: Node, d: nat) {
    ns != [] &&
    (|| (ns[0] == n && d == depth)
     || (ns[0].Elem? && OccursAt(ns[0].children, depth + 1, n, d))
     || OccursAt(ns[1..], depth, n, d))
  }

  ghost predicate IsShallow(doc: Node, n: Node)
    requires doc.Other?
  {
    exists d: nat :: d <= MAX_CANDIDATE_DEPTH && OccursAt(doc.children, 0, n, d)
  }

  /** An element, not one the page stands or falls with, long enough, repeated, and mostly links. */
  predicate IsChrome(r: Reader, l: Learner, n: Node) {
    && n.Elem? && n.tag != "head" && n.tag != "html" && n.tag != "body"
    && DigestOf(r, n).textLen >= MIN_SIGNATURE_TEXT_LEN
    && DigestOf(r, n).linkTextLen * 2 >= DigestOf(r, n).textLen
    && IsBoilerplate(l, DigestOf(r, n).sig)
  }

  lemma {:induction false} RemovedAreChrome(r: Reader, l: Learner, ns: seq<Node>, depth: nat, n: Node) returns (d: nat)
    requires n in PruneAll(r, l, ns, depth).removed
    ensures IsChrome(r, l, n) && OccursAt(ns, depth, n, d) && d <= MAX_CANDIDATE_DEPTH
    ensures DigestOf(r, n).sig in PruneAll(r, l, ns, depth).met
    decreases ns
  {
    var a, b := PruneOne(r, l, ns[0], depth), PruneAll(r, l, ns[1..], depth);
    if n in b.removed {
      d := RemovedAreChrome(r, l, ns[1..], depth, n);
    } else if !Detached(r, l, ns[0], depth) {
      d := RemovedAreChrome(r, l, ns[0].children, depth + 1, n);
    } else {
      d := depth;
    }
  }

  /** At most half of what is cut is anything but link text. */
  lemma {:induction false} RemovedTextBound(r: Reader, removed: seq<Node>)
    requires forall n :: n in removed ==> IsChromeShaped(DigestOf(r, n))
    ensures DigestAll(r, removed).textLen <= 2 * DigestAll(r, removed).linkTextLen
  {
    if removed != [] {
      assert removed[0] in removed;
      RemovedTextBound(r, removed[1..]);
    }
  }

  /** The guarantees of `Apply` on what it removes and what it reports. */
  lemma ApplyRemovesOnlyChrome(r: Reader, l: Learner, doc: Node)
    requires doc.Other?
    ensures
      var a := Apply(r, l, doc);
      && (forall n :: n in a.removed ==>
            && IsChrome(r, l, n) && DigestOf(r, n).sig in a.sigs
            && IsShallow(doc, n))
      && DigestAll(r, a.removed).textLen <= 2 * DigestAll(r, a.removed).linkTextLen
      && Distinct(a.sigs)
  {
    var p := PruneAll(r, l, doc.children, 0);
    AddAllFacts([], p.met);
    forall n | n in p.removed
      ensures IsChrome(r, l, n) && DigestOf(r, n).sig in p.met
      ensures IsShallow(doc, n)
    {
      var d := RemovedAreChrome(r, l, doc.children, 0, n);
    }
    RemovedTextBound(r, p.removed);
  }

  /** The text cut is accounted for: lengths before equal lengths after plus lengths removed. */
  lemma {:induction false} PruneConservesLength(r: Reader, l: Learner, ns: seq<Node>, depth: nat)
    ensures var p := PruneAll(r, l, ns, depth);
      DigestAll(r, ns).textLen == DigestAll(r, p.kept).textLen + DigestAll(r, p.removed).textLen
    decreases ns, 0
  {
    if ns != [] {
      var n := ns[0];
      var a, b := PruneOne(r, l, n, depth), PruneAll(r, l, ns[1..], depth);
      PruneConservesLength(r, l, ns[1..], depth);
      LengthConcat(r, a.kept, b.kept);
      LengthConcat(r, a.removed, b.removed);
      LengthOne(r, n);
      if n.Elem? && n.tag != "head" && !Detached(r, l, n, depth) {
        PruneConservesLength(r, l, n.children, depth + 1);
        LengthOne(r, a.kept[0]);
      }
    }
  }

  lemma {:induction false} LengthConcat(r: Reader, a: seq<Node>, b: seq<Node>)
    ensures DigestAll(r, a + b).textLen == DigestAll(r, a).textLen + DigestAll(r, b).textLen
    decreases |a|
  {
    if a == [] {
      assert a + b == b;
    } else {
      assert (a + b)[1..] == a[1..] + b;
      LengthConcat(r, a[1..], b);
    }
  }

  lemma LengthOne(r: Reader, n: Node)
    ensures DigestAll(r, [n]).textLen == DigestOf(r, n).textLen
  {
    assert [n][1..] == [];
  }

  // ---------------------------------------------------------------- exactly what gets removed

  /** Known chrome, near enough to the top to be considered. */
  predicate Goes(r: Reader, l: Learner, n: Node, depth: nat) { depth <= MAX_CANDIDATE_DEPTH && IsChrome(r, l, n) }

  /** `n` is met at depth `d`: it lies in no `head`, and nothing above it goes. */
  predicate Met(r: Reader, l: Learner, ns: seq<Node>, depth: nat, n: Node, d: nat) {
    ns != [] &&
    (|| (&& ns[0].Elem? && ns[0].tag != "head"
         && (|| (n == ns[0] && d == depth)
             || (!Goes(r, l, ns[0], depth) && Met(r, l, ns[0].children, depth + 1, n, d))))
     || Met(r, l, ns[1..], depth, n, d))
  }

  lemma DetachedIffGoes(r: Reader, l: Learner, n: Node, depth: nat)
    ensures Detached(r, l, n, depth) <==> Goes(r, l, n, depth)
  {
  }

  lemma MetOne(r: Reader, l: Learner, c: Node, depth: nat, n: Node, d: nat)
    ensures Met(r, l, [c], depth, n, d) <==>
      && c.Elem? && c.tag != "head"
      && (|| (n == c && d == depth)
          || (!Goes(r, l, c, depth) && Met(r, l, c.children, depth + 1, n, d)))
  {
    assert [c][1..] == [];
  }

  /** Removed at some depth: met there, and going. */
  ghost predicate MetAndGoes(r: Reader, l: Learner, ns: seq<Node>, depth: nat, n: Node) {
    exists d: nat :: Met(r, l, ns, depth, n, d) && Goes(r, l, n, d)
  }

  lemma MetAndGoesFirst(r: Reader, l: Learner, ns: seq<Node>, depth: nat, n: Node)
    requires ns != []
    ensures MetAndGoes(r, l, ns, depth, n) <==>
      || MetAndGoes(r, l, ns[1..], depth, n)
      || (&& ns[0].Elem? && ns[0].tag != "head"
          && if Goes(r, l, ns[0], depth) then n == ns[0] else MetAndGoes(r, l, ns[0].children, depth + 1, n))
  {
    if MetAndGoes(r, l, ns, depth, n) {
      var d: nat :| Met(r, l, ns, depth, n, d) && Goes(r, l, n, d);
      assert Met(r, l, ns[1..], depth, n, d)
        || (ns[0].Elem? && (n == ns[0] || Met(r, l, ns[0].children, depth + 1, n, d)));
    }
    if MetAndGoes(r, l, ns[1..], depth, n) {
      var d: nat :| Met(r, l, ns[1..], depth, n, d) && Goes(r, l, n, d);
      assert Met(r, l, ns, depth, n, d);
    }
    if ns[0].Elem? && ns[0].tag != "head" {
      if Goes(r, l, ns[0], depth) && n == ns[0] {
        assert Met(r, l, ns, depth, n, depth);
      }
      if !Goes(r, l, ns[0], depth) && MetAndGoes(r, l, ns[0].children, depth + 1, n) {
        var d: nat :| Met(r, l, ns[0].children, depth + 1, n, d) && Goes(r, l, n, d);
        assert Met(r, l, ns, depth, n, d);
      }
    }
  }

  /** Exactly the chrome that is met goes. */
  lemma {:induction false} RemovedIff(r: Reader, l: Learner, ns: seq<Node>, depth: nat, n: Node)
    ensures n in PruneAll(r, l, ns, depth).removed <==> MetAndGoes(r, l, ns, depth, n)
    decreases ns
  {
    if ns != [] {
      MetAndGoesFirst(r, l, ns, depth, n);
      DetachedIffGoes(r, l, ns[0], depth);
      RemovedIff(r, l, ns[1..], depth, n);
      if ns[0].Elem? && ns[0].tag != "head" && !Goes(r, l, ns[0], depth) {
        RemovedIff(r, l, ns[0].children, depth + 1, n);
      }
    }
  }

  /** A node with a slot in the learner's state: long enough, and near enough to the top. */
  predicate HasSlot(r: Reader, n: Node, d: nat) {
    && n.Elem? && n.tag != "html" && n.tag != "body"
    && d <= MAX_CANDIDATE_DEPTH && DigestOf(r, n).textLen >= MIN_SIGNATURE_TEXT_LEN
  }

  ghost predicate MetWithSlot(r: Reader, l: Learner, ns: seq<Node>, depth: nat, sig: string) {
    exists n, d: nat :: Met(r, l, ns, depth, n, d) && HasSlot(r, n, d) && DigestOf(r, n).sig == sig
  }

  lemma MetWithSlotFirst(r: Reader, l: Learner, ns: seq<Node>, depth: nat, sig: string)
    requires ns != []
    ensures MetWithSlot(r, l, ns, depth, sig) <==>
      || MetWithSlot(r, l, ns[1..], depth, sig)
      || (&& ns[0].Elem? && ns[0].tag != "head"
          && (|| (HasSlot(r, ns[0], depth) && DigestOf(r, ns[0]).sig == sig)
              || (!Goes(r, l, ns[0], depth) && MetWithSlot(r, l, ns[0].children, depth + 1, sig))))
  {
    if n, d: nat :| Met(r, l, ns, depth, n, d) && HasSlot(r, n, d) && DigestOf(r, n).sig == sig {
      assert Met(r, l, ns[1..], depth, n, d)
        || (n == ns[0] && d == depth) || Met(r, l, ns[0].children, depth + 1, n, d);
    }
    if n, d: nat :| Met(r, l, ns[1..], depth, n, d) && HasSlot(r, n, d) && DigestOf(r, n).sig == sig {
      assert Met(r, l, ns, depth, n, d);
    }
    if ns[0].Elem? && ns[0].tag != "head" {
      assert Met(r, l, ns, depth, ns[0], depth);
      if !Goes(r, l, ns[0], depth) && MetWithSlot(r, l, ns[0].children, depth + 1, sig) {
        var n, d: nat :| Met(r, l, ns[0].children, depth + 1, n, d) && HasSlot(r, n, d) && DigestOf(r, n).sig == sig;
        assert Met(r, l, ns, depth, n, d);
      }
    }
  }

  /** And exactly the candidates met are reported, whether they go or stay. */
  lemma {:induction false} ReportedIff(r: Reader, l: Learner, ns: seq<Node>, depth: nat, sig: string)
    ensures sig in PruneAll(r, l, ns, depth).met <==> MetWithSlot(r, l, ns, depth, sig)
    decreases ns
  {
    if ns != [] {
      MetWithSlotFirst(r, l, ns, depth, sig);
      DetachedIffGoes(r, l, ns[0], depth);
      ReportedIff(r, l, ns[1..], depth, sig);
      if ns[0].Elem? && ns[0].tag != "head" && !Goes(r, l, ns[0], depth) {
        ReportedIff(r, l, ns[0].children, depth + 1, sig);
      }
    }
  }

  /** `Apply` removes exactly the chrome it meets, and reports exactly the candidates it meets. */
  lemma ApplyIsExact(r: Reader, l: Learner, doc: Node)
    requires doc.Other?
    ensures
      var a := Apply(r, l, doc);
      && (forall n :: n in a.removed <==> MetAndGoes(r, l, doc.children, 0, n))
      && (forall sig :: sig in a.sigs <==> MetWithSlot(r, l, doc.children, 0, sig))
  {
    var p := PruneAll(r, l, doc.children, 0);
    AddAllFacts([], p.met);
    forall n ensures n in p.removed <==> MetAndGoes(r, l, doc.children, 0, n) {
      RemovedIff(r, l, doc.children, 0, n);
    }
    forall sig ensures sig in p.met <==> MetWithSlot(r, l, doc.children, 0, sig) {
      ReportedIff(r, l, doc.children, 0, sig);
    }
  }

  // ---------------------------------------------------------------- what is left stays as it was

  /** A page written out: tags opened and closed, and texts. */
  datatype Token = Open(tag: string, attrs: seq<string>) | Close | Words(text: string) | OpenOther

  function Written(ns: seq<Node>): seq<Token>
    decreases ns, 0
  {
    if ns == [] then [] else WrittenOne(ns[0]) + Written(ns[1..])
  }

  function WrittenOne(n: Node): seq<Token>
    decreases n, 1
  {
    match n
    case Text(text) => [Words(text)]
    case Elem(tag, attrs, children) => [Open(tag, attrs)] + Written(children) + [Close]
    case Other(children) => [OpenOther] + Written(children) + [Close]
  }

  /** The same with what goes left out, and everything else in its place. */
  function WrittenWithout(r: Reader, l: Learner, ns: seq<Node>, depth: nat): seq<Token>
    decreases ns
  {
    if ns == [] then []
    else
      var c, rest := ns[0], WrittenWithout(r, l, ns[1..], depth);
      if !c.Elem? || c.tag == "head" then WrittenOne(c) + rest
      else if Goes(r, l, c, depth) then rest
      else [Open(c.tag, c.attrs)] + WrittenWithout(r, l, c.children, depth + 1) + [Close] + rest
  }

  lemma {:induction false} WrittenConcat(a: seq<Node>, b: seq<Node>)
    ensures Written(a + b) == Written(a) + Written(b)
    decreases |a|
  {
    if a == [] {
      assert a + b == b;
    } else {
      assert (a + b)[1..] == a[1..] + b;
      WrittenConcat(a[1..], b);
    }
  }

  lemma WrittenSingle(n: Node)
    ensures Written([n]) == WrittenOne(n)
  {
    assert [n][1..] == [];
  }

  /** The page that is left is the page with exactly that cut out. */
  lemma {:induction false} KeptIsTheRest(r: Reader, l: Learner, ns: seq<Node>, depth: nat)
    ensures Written(PruneAll(r, l, ns, depth).kept) == WrittenWithout(r, l, ns, depth)
    decreases ns
  {
    if ns != [] {
      var c := ns[0];
      var one, rest := PruneOne(r, l, c, depth), PruneAll(r, l, ns[1..], depth);
      KeptIsTheRest(r, l, ns[1..], depth);
      DetachedIffGoes(r, l, c, depth);
      WrittenConcat(one.kept, rest.kept);
      if !c.Elem? || c.tag == "head" {
        WrittenSingle(c);
      } else if !Goes(r, l, c, depth) {
        KeptIsTheRest(r, l, c.children, depth + 1);
        WrittenSingle(one.kept[0]);
      } else {
        assert Written(one.kept) == [];
      }
    }
  }

  // ---------------------------------------------------------------- what a digest measures

  /** The texts under some nodes, in order, each with whether a link is around it. */
  function Passages(ns: seq<Node>, linked: bool): seq<(string, bool)>
    decreases ns
  {
    if ns == [] then []
    else
      match ns[0]
      case Text(text) => [(text, linked)] + Passages(ns[1..], linked)
      case Elem(tag, _, children) => Passages(children, linked || tag == "a") + Passages(ns[1..], linked)
      case Other(children) => Passages(children, linked) + Passages(ns[1..], linked)
  }

  /** The normalized length of the passages, of all of them or of those in links. */
  function Measure(r: Reader, ps: seq<(string, bool)>, linkedOnly: bool): nat {
    if ps == [] then 0
    else (if linkedOnly && !ps[0].1 then 0 else |r.normalize(ps[0].0)|) + Measure(r, ps[1..], linkedOnly)
  }

  lemma {:induction false} MeasureConcat(r: Reader, a: seq<(string, bool)>, b: seq<(string, bool)>, linkedOnly: bool)
    ensures Measure(r, a + b, linkedOnly) == Measure(r, a, linkedOnly) + Measure(r, b, linkedOnly)
  {
    if a == [] {
      assert a + b == b;
    } else {
      assert (a + b)[1..] == a[1..] + b;
      MeasureConcat(r, a[1..], b, linkedOnly);
    }
  }

  /** A digest's lengths are those of the texts below, and of those that lie in a link. */
  lemma {:induction false} DigestMeasures(r: Reader, ns: seq<Node>, linked: bool)
    ensures DigestAll(r, ns).textLen == Measure(r, Passages(ns, linked), false)
    ensures Measure(r, Passages(ns, linked), true) ==
            if linked then DigestAll(r, ns).textLen else DigestAll(r, ns).linkTextLen
    decreases ns
  {
    if ns != [] {
      var rest := Passages(ns[1..], linked);
      DigestMeasures(r, ns[1..], linked);
      match ns[0] {
        case Text(text) =>
          assert ([(text, linked)] + rest)[1..] == rest;
        case Elem(tag, _, children) =>
          DigestMeasures(r, children, linked || tag == "a");
          MeasureConcat(r, Passages(children, linked || tag == "a"), rest, false);
          MeasureConcat(r, Passages(children, linked || tag == "a"), rest, true);
        case Other(children) =>
          DigestMeasures(r, children, linked);
          MeasureConcat(r, Passages(children, linked), rest, false);
          MeasureConcat(r, Passages(children, linked), rest, true);
      }
    }
  }

  /** Different shapes have different hashes. */
  ghost predicate NoCollisions(r: Reader) {
    forall a, b :: r.hash(a) == r.hash(b) ==> a == b
  }

  /** The same markup and the same texts, up to normalization and the order of attributes. */
  predicate SameMarkup(r: Reader, a: Node, b: Node)
    decreases a, 1
  {
    match (a, b)
    case (Text(s), Text(t)) => r.normalize(s) == r.normalize(t)
    case (Elem(s, x, ks), Elem(t, y, ls)) => s == t && multiset(x) == multiset(y) && AllSameMarkup(r, ks, ls)
    case (Other(ks), Other(ls)) => AllSameMarkup(r, ks, ls)
    case _ => false
  }

  predicate AllSameMarkup(r: Reader, these: seq<Node>, those: seq<Node>)
    decreases these, 0
  {
    |these| == |those| &&
    (these != [] ==> SameMarkup(r, these[0], those[0]) && AllSameMarkup(r, these[1..], those[1..]))
  }

  /** Two subtrees share a signature exactly when they render the same markup and text. */
  lemma {:induction false} SignatureIffSameMarkup(r: Reader, a: Node, b: Node)
    requires NoCollisions(r)
    ensures DigestOf(r, a).sig == DigestOf(r, b).sig <==> SameMarkup(r, a, b)
    decreases a, 1
  {
    match (a, b) {
      case (Elem(_, _, ks), Elem(_, _, ls)) => SignaturesIffSameMarkup(r, ks, ls);
      case (Other(ks), Other(ls)) => SignaturesIffSameMarkup(r, ks, ls);
      case _ =>
    }
  }

  lemma {:induction false} SignaturesIffSameMarkup(r: Reader, these: seq<Node>, those: seq<Node>)
    requires NoCollisions(r)
    ensures DigestAll(r, these).sigs == DigestAll(r, those).sigs <==> AllSameMarkup(r, these, those)
    decreases these, 0
  {
    if these != [] && those != [] {
      SignatureIffSameMarkup(r, these[0], those[0]);
      SignaturesIffSameMarkup(r, these[1..], those[1..]);
      var x, y := DigestAll(r, these).sigs, DigestAll(r, those).sigs;
      assert x == [x[0]] + x[1..] && y == [y[0]] + y[1..];
      assert x[1..] == DigestAll(r, these[1..]).sigs && y[1..] == DigestAll(r, those[1..]).sigs;
    }
  }

  // ---------------------------------------------------------------- pages through the learner

  /** One page of a session: prune with what is known, then learn from the page as fetched. */
  function Session(r: Reader, docs: seq<Node>): Learner
    requires forall d :: d in docs ==> d.Other?
  {
    if docs == [] then EMPTY
    else
      var l := Session(r, docs[..|docs| - 1]);
      Observed(l, Apply(r, l, docs[|docs| - 1]).sigs)
  }

  /** Whatever pages a feed serves, the learner never leaves its bounds. */
  lemma {:induction false} SessionsStayBounded(r: Reader, docs: seq<Node>)
    requires forall d :: d in docs ==> d.Other?
    ensures Bounded(Session(r, docs))
  {
    if docs != [] {
      var init := docs[..|docs| - 1];
      SessionsStayBounded(r, init);
      ApplyRemovesOnlyChrome(r, Session(r, init), docs[|docs| - 1]);
      ObserveStaysBounded(Session(r, init), Apply(r, Session(r, init), docs[|docs| - 1]).sigs);
    }
  }

  /** A feed's first page is never cut. */
  lemma {:induction false} NothingKnownNothingCut(r: Reader, l: Learner, ns: seq<Node>, depth: nat)
    requires forall sig :: !IsBoilerplate(l, sig)
    ensures PruneAll(r, l, ns, depth).kept == ns && PruneAll(r, l, ns, depth).removed == []
    decreases ns
  {
    if ns != [] {
      NothingKnownNothingCut(r, l, ns[1..], depth);
      if ns[0].Elem? && ns[0].tag != "head" { NothingKnownNothingCut(r, l, ns[0].children, depth + 1); }
      assert ns == [ns[0]] + ns[1..];
    }
  }
}
