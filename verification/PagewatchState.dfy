/**
 * The persisted side of the page watcher: internal/extract/pagewatch/state.go and the block
 * masking of internal/extract/pagewatch/block.go.
 */
module PagewatchState {
  import opened Wrappers
  import opened Positions

  const CURRENT_STATE_VERSION := 1
  const CURRENT_RULES_VERSION := 1
  const MAX_STATE_BYTES := 512 * 1024

  /** A block of the page as it was split: display HTML, plain text, and the heading above it. */
  datatype Block = Block(html: string, text: string, key: Key, anchor: string, head: string)

  datatype StateBlock = StateBlock(key: Key, html: string, anchor: string, head: string)

  type Patterns = seq<string>

  /** SHA-256 as an injective function: a digest is what was hashed. */
  datatype Digest = TextDigest(text: string) | PatternDigest(patterns: Patterns)

  datatype State = State(version: int, rulesVersion: int, configHash: Digest, contentHash: Digest,
                         truncated: bool, blocks: seq<StateBlock>)

  /** The state column: never written, not decodable, or a decoded value. */
  datatype Raw = Missing | Corrupt | Stored(state: State)

  /** Regex masking, tag stripping and the size of the JSON encoding. */
  datatype Foreign = Foreign(mask: (string, Patterns) -> string, strip: string -> string, size: State -> nat)

  // ---------------------------------------------------------------- content hashes

  function Join(keys: seq<Key>): string {
    if keys == [] then ""
    else if |keys| == 1 then keys[0]
    else keys[0] + "\n" + Join(keys[1..])
  }

  function ContentHash(keys: seq<Key>): Digest { TextDigest(Join(keys)) }

  function ConfigHash(patterns: Patterns): Digest { PatternDigest(patterns) }

  predicate DrawnFrom(list: seq<Key>, keys: set<Key>) { forall k :: k in list ==> k in keys }

  /** No key, followed by a line break, is how another key begins. */
  ghost predicate Separable(keys: set<Key>) {
    forall k, l :: k in keys && l in keys ==> k != "" && !(k + "\n" <= l)
  }

  lemma FirstKeyAndRest(list: seq<Key>)
    requires |list| > 1
    ensures
      var k, text := list[0], Join(list);
      && |k| < |text| && text[|k|] == '\n'
      && text[..|k|] == k && text[..|k| + 1] == k + "\n" && text[|k| + 1..] == Join(list[1..])
  {
    var k, rest := list[0], Join(list[1..]);
    assert k + "\n" + rest == k + ("\n" + rest);
  }

  lemma EmptyTextIsNoKeys(list: seq<Key>, keys: set<Key>)
    requires Separable(keys) && DrawnFrom(list, keys)
    ensures Join(list) == "" <==> list == []
  {
    assert list != [] ==> list[0] in keys;
  }

  lemma ShorterFirstKey(a: seq<Key>, b: seq<Key>)
    requires |a| > 1 && b != [] && Join(a) == Join(b) && |a[0]| < |b[0]|
    ensures a[0] + "\n" <= b[0]
  {
    FirstKeyAndRest(a);
    if |b| > 1 { FirstKeyAndRest(b); }
    PrefixesNest(Join(a), a[0] + "\n", b[0]);
  }

  lemma PrefixesNest(text: string, p: string, q: string)
    requires p <= text && q <= text && |p| <= |q|
    ensures p <= q
  {
  }

  /** Over separable keys the joined text can be read back, so equal hashes mean equal keys. */
  lemma {:induction false} HashSeesEveryKey(a: seq<Key>, b: seq<Key>, keys: set<Key>)
    requires Separable(keys) && DrawnFrom(a, keys) && DrawnFrom(b, keys)
    ensures ContentHash(a) == ContentHash(b) <==> a == b
    decreases |a| + |b|
  {
    if Join(a) == Join(b) {
      EmptyTextIsNoKeys(a, keys);
      EmptyTextIsNoKeys(b, keys);
      if a != [] && b != [] {
        assert a[0] in keys && b[0] in keys;
        if |a| > 1 {
          FirstKeyAndRest(a);
          if |a[0]| < |b[0]| { ShorterFirstKey(a, b); }
        }
        if |b| > 1 {
          FirstKeyAndRest(b);
          if |b[0]| < |a[0]| { ShorterFirstKey(b, a); }
        }
        if |a| > 1 && |b| > 1 {
          HashSeesEveryKey(a[1..], b[1..], keys);
          assert a == [a[0]] + a[1..] && b == [b[0]] + b[1..];
        }
      }
    }
  }

  /** Keys on one line are separable. */
  lemma OneLinersAreSeparable(keys: set<Key>)
    requires forall k :: k in keys ==> k != "" && '\n' !in k
    ensures Separable(keys)
  {
    forall k, l | k in keys && l in keys ensures !(k + "\n" <= l) {
      LineBreakInside(k, l);
    }
  }

  lemma LineBreakInside(k: Key, l: Key)
    ensures k + "\n" <= l ==> '\n' in l
  {
    if k + "\n" <= l { assert l[|k|] == '\n'; }
  }

  // ---------------------------------------------------------------- rendered elements

  /** Where a reader of rendered HTML stands; text and attribute values have their `<` and `>` escaped. */
  datatype Reading = Outside | TagBegins | InTag(slash: bool) | InEndTag

  function Read(at: Reading, c: char): Reading {
    match at
    case Outside => if c == '<' then TagBegins else Outside
    case TagBegins => if c == '/' then InEndTag else InTag(false)
    case InTag(_) => if c == '>' then Outside else InTag(c == '/')
    case InEndTag => if c == '>' then Outside else InEndTag
  }

  /** How a character changes the number of open elements. */
  function Opens(at: Reading, c: char): int {
    if c != '>' then 0
    else
      match at
      case InTag(slash) => if slash then 0 else 1
      case InEndTag => -1
      case _ => 0
  }

  /** The position after the tag that closes the first element of `s[i..]`, if there is one. */
  function ElementEnd(s: string, i: nat, at: Reading, open: int): Option<nat>
    requires i <= |s|
    decreases |s| - i
  {
    if i == |s| then None
    else
      var next := open + Opens(at, s[i]);
      if s[i] == '>' && (at.InTag? || at.InEndTag?) && next <= 0 then Some(i + 1)
      else ElementEnd(s, i + 1, Read(at, s[i]), next)
  }

  /** A rendered element and nothing after it. */
  predicate OneElement(s: string) { ElementEnd(s, 0, Outside, 0) == Some(|s|) }

  lemma {:induction false} EndIgnoresTheRest(s: string, t: string, i: nat, at: Reading, open: int)
    requires i <= |s| && ElementEnd(s, i, at, open).Some?
    ensures ElementEnd(s + t, i, at, open) == ElementEnd(s, i, at, open)
    decreases |s| - i
  {
    assert (s + t)[i] == s[i];
    var next := open + Opens(at, s[i]);
    if !(s[i] == '>' && (at.InTag? || at.InEndTag?) && next <= 0) {
      EndIgnoresTheRest(s, t, i + 1, Read(at, s[i]), next);
    }
  }

  /** Unmasked keys are rendered elements, and these are separable, whatever lines they span. */
  lemma ElementsAreSeparable(keys: set<Key>)
    requires forall k :: k in keys ==> OneElement(k)
    ensures Separable(keys)
  {
    forall k, l | k in keys && l in keys ensures k != "" && !(k + "\n" <= l) {
      if k + "\n" <= l { EndOfPrefix(k, l); }
    }
  }

  lemma EndOfPrefix(k: string, l: string)
    requires OneElement(k) && k <= l
    ensures ElementEnd(l, 0, Outside, 0) == Some(|k|)
  {
    EndIgnoresTheRest(k, l[|k|..], 0, Outside, 0);
    assert l == k + l[|k|..];
  }

  /** So a paragraph over two source lines is no obstacle. */
  lemma WrappedParagraphIsOneElement()
    ensures OneElement("<p>x\ny</p>")
  {
    var s := "<p>x\ny</p>";
    assert ElementEnd(s, 8, InEndTag, 1) == Some(10);
    assert ElementEnd(s, 6, Outside, 1) == Some(10);
    assert ElementEnd(s, 4, Outside, 1) == Some(10);
    assert ElementEnd(s, 2, InTag(false), 0) == Some(10);
  }

  // ---------------------------------------------------------------- which lists a hash identifies

  /** Keys that are not separable can collide: one over two lines, and the two lines. */
  lemma NewlinesCollide()
    ensures ContentHash(["a\nb"]) == ContentHash(["a", "b"])
  {
    assert Join(["a", "b"][1..]) == "b";
  }

  predicate NonEmptyKeys(list: seq<Key>) { forall k :: k in list ==> k != "" }

  predicate InnerNewline(k: Key) { exists i :: 0 < i < |k| - 1 && k[i] == '\n' }

  lemma {:induction false} JoinedIsNotEmpty(list: seq<Key>)
    requires NonEmptyKeys(list) && list != []
    ensures Join(list) != ""
  {
    assert list[0] in list;
  }

  /** A joined text of two or more keys is also a key. */
  lemma ManyKeysHaveInnerNewline(list: seq<Key>)
    requires NonEmptyKeys(list) && |list| > 1
    ensures InnerNewline(Join(list))
  {
    FirstKeyAndRest(list);
    assert list[0] in list && forall k :: k in list[1..] ==> k in list;
    JoinedIsNotEmpty(list[1..]);
  }

  lemma CutAtNewline(k: Key, i: nat)
    requires 0 < i < |k| - 1 && k[i] == '\n'
    ensures Join([k[..i], k[i + 1..]]) == k
  {
    assert [k[..i], k[i + 1..]][1..] == [k[i + 1..]];
    assert k == k[..i] + "\n" + k[i + 1..];
  }

  /**
   * Among all lists of non-empty keys a hash identifies its list exactly when there is at most
   * one key in it, and no line break inside that one.
   */
  lemma IdentifiedIff(a: seq<Key>)
    requires NonEmptyKeys(a)
    ensures (forall b :: NonEmptyKeys(b) && ContentHash(a) == ContentHash(b) ==> a == b)
      <==> a == [] || (|a| == 1 && !InnerNewline(a[0]))
  {
    if a == [] || (|a| == 1 && !InnerNewline(a[0])) {
      forall b | NonEmptyKeys(b) && Join(a) == Join(b) ensures a == b {
        if a != [] { JoinedIsNotEmpty(a); }
        if b != [] { JoinedIsNotEmpty(b); }
        if |b| > 1 { ManyKeysHaveInnerNewline(b); }
      }
    } else if |a| == 1 {
      var i :| 0 < i < |a[0]| - 1 && a[0][i] == '\n';
      CutAtNewline(a[0], i);
      var b := [a[0][..i], a[0][i + 1..]];
      assert NonEmptyKeys(b) && ContentHash(a) == ContentHash(b) && a != b;
    } else {
      var b := [Join(a)];
      JoinedIsNotEmpty(a);
      assert NonEmptyKeys(b) && ContentHash(a) == ContentHash(b) && a != b;
    }
  }

  // ---------------------------------------------------------------- lengths of joined texts

  /** The characters of a list, one more for the end of each key. */
  function Chars(list: seq<Key>): nat {
    if list == [] then 0 else Chars(list[..|list| - 1]) + |list[|list| - 1]| + 1
  }

  lemma CharsSnoc(list: seq<Key>, k: Key)
    ensures Chars(list + [k]) == Chars(list) + |k| + 1
  {
    assert (list + [k])[..|list|] == list;
  }

  lemma {:induction false} CharsCons(k: Key, list: seq<Key>)
    ensures Chars([k] + list) == |k| + 1 + Chars(list)
  {
    if list == [] {
      assert [k] + list == [] + [k];
      CharsSnoc([], k);
    } else {
      var n := |list| - 1;
      CharsCons(k, list[..n]);
      CharsSnoc([k] + list[..n], list[n]);
      assert [k] + list == ([k] + list[..n]) + [list[n]];
    }
  }

  lemma {:induction false} JoinLength(list: seq<Key>)
    ensures |Join(list)| == if list == [] then 0 else Chars(list) - 1
  {
    if list != [] {
      JoinLength(list[1..]);
      CharsCons(list[0], list[1..]);
      assert list == [list[0]] + list[1..];
    }
  }

  // ---------------------------------------------------------------- blocks

  function Keys(blocks: seq<Block>): seq<Key> {
    seq(|blocks|, i requires 0 <= i < |blocks| => blocks[i].key)
  }

  function StoredKeys(blocks: seq<StateBlock>): seq<Key> {
    seq(|blocks|, i requires 0 <= i < |blocks| => blocks[i].key)
  }

  /** What `applyIgnorePatterns` leaves still shows something. */
  predicate Shows(f: Foreign, html: string, patterns: Patterns) {
    f.strip(f.mask(html, patterns)) != ""
  }

  function MaskAndFilter(f: Foreign, blocks: seq<Block>, patterns: Patterns): seq<Block> {
    if blocks == [] then []
    else
      var n := |blocks| - 1;
      var b := blocks[n];
      MaskAndFilter(f, blocks[..n], patterns) +
      if Shows(f, b.html, patterns) then [b.(key := f.mask(b.html, patterns))] else []
  }

  method MaskAndFilterLoop(f: Foreign, blocks: seq<Block>, patterns: Patterns) returns (out: seq<Block>)
    ensures out == MaskAndFilter(f, blocks, patterns)
  {
    out := [];
    var i := 0;
    while i < |blocks|
      invariant 0 <= i <= |blocks|
      invariant out == MaskAndFilter(f, blocks[..i], patterns)
    {
      assert blocks[..i + 1][..i] == blocks[..i];
      var masked := f.mask(blocks[i].html, patterns);
      if f.strip(masked) != "" {
        out := out + [blocks[i].(key := masked)];
      }
      i := i + 1;
    }
    assert blocks[..i] == blocks;
  }

  /**
   * What is compared are exactly the blocks that still show text once masked, in their order, each
   * keyed by its masked HTML and otherwise unchanged.
   */
  lemma {:induction false} ComparedBlocksAre(f: Foreign, blocks: seq<Block>, patterns: Patterns)
    returns (at: seq<nat>)
    ensures Within(at, 0, |blocks|) && |at| == |MaskAndFilter(f, blocks, patterns)|
    ensures forall p | 0 <= p < |at| ::
      MaskAndFilter(f, blocks, patterns)[p] == blocks[at[p]].(key := f.mask(blocks[at[p]].html, patterns))
    ensures forall i | 0 <= i < |blocks| :: i in at <==> f.strip(f.mask(blocks[i].html, patterns)) != ""
  {
    at := [];
    if blocks != [] {
      var n := |blocks| - 1;
      at := ComparedBlocksAre(f, blocks[..n], patterns);
      if Shows(f, blocks[n].html, patterns) { at := at + [n]; }
    }
  }

  function ToStateBlocks(blocks: seq<Block>): seq<StateBlock> {
    seq(|blocks|, i requires 0 <= i < |blocks| =>
      StateBlock(blocks[i].key, blocks[i].html, blocks[i].anchor, blocks[i].head))
  }

  /** What is saved of a block is everything but its text. */
  lemma SavedBlocksAre(blocks: seq<Block>, i: nat)
    requires i < |blocks|
    ensures |ToStateBlocks(blocks)| == |blocks|
    ensures
      var b := ToStateBlocks(blocks)[i];
      && b.key == blocks[i].key && b.html == blocks[i].html
      && b.anchor == blocks[i].anchor && b.head == blocks[i].head
  {
  }

  method BlocksToStateBlocks(blocks: seq<Block>) returns (out: seq<StateBlock>)
    ensures out == ToStateBlocks(blocks)
    ensures StoredKeys(out) == Keys(blocks)
  {
    out := [];
    for i := 0 to |blocks|
      invariant out == ToStateBlocks(blocks[..i])
    {
      var b := blocks[i];
      out := out + [StateBlock(b.key, b.html, b.anchor, b.head)];
    }
    assert blocks[..|blocks|] == blocks;
  }

  // ---------------------------------------------------------------- saving and reading back

  function WithoutHtml(s: State): State {
    s.(blocks := seq(|s.blocks|, i requires 0 <= i < |s.blocks| => s.blocks[i].(html := "")))
  }

  /** Display HTML is given up when the encoding would be too large. */
  function Marshal(f: Foreign, s: State): State {
    if f.size(s) <= MAX_STATE_BYTES then s else WithoutHtml(s)
  }

  method MarshalLoop(f: Foreign, s: State) returns (r: State)
    ensures r == Marshal(f, s)
  {
    if f.size(s) <= MAX_STATE_BYTES {
      return s;
    }
    var blocks := [];
    for i := 0 to |s.blocks|
      invariant |blocks| == i && forall j :: 0 <= j < i ==> blocks[j] == s.blocks[j].(html := "")
    {
      blocks := blocks + [s.blocks[i].(html := "")];
    }
    r := s.(blocks := blocks);
    assert blocks == WithoutHtml(s).blocks;
  }

  /** Whatever is given up, the comparison keys stay. */
  lemma KeysOutliveHtml(f: Foreign, s: State)
    ensures StoredKeys(Marshal(f, s).blocks) == StoredKeys(s.blocks)
    ensures Marshal(f, s).(blocks := s.blocks) == s
    ensures f.size(s) <= 512 * 1024 ==> Marshal(f, s) == s
    ensures f.size(s) > 512 * 1024 ==> forall i :: 0 <= i < |s.blocks| ==>
      |Marshal(f, s).blocks| == |s.blocks| && Marshal(f, s).blocks[i] == s.blocks[i].(html := "")
  {
  }

  function ParseState(raw: Raw): Option<State> {
    if raw.Stored? && raw.state.version == CURRENT_STATE_VERSION then Some(raw.state) else None
  }

  // ---------------------------------------------------------------- changed ignore patterns

  /** Masks saved display HTML with other patterns; impossible once any of it was given up. */
  function Remask(f: Foreign, prev: seq<StateBlock>, patterns: Patterns): Option<seq<StateBlock>> {
    if prev == [] then Some([])
    else
      var n := |prev| - 1;
      var b := prev[n];
      var out := Remask(f, prev[..n], patterns);
      if out.None? || b.html == "" then None
      else if !Shows(f, b.html, patterns) then out
      else Some(out.value + [b.(key := f.mask(b.html, patterns))])
  }

  /** One dropped fragment anywhere makes the whole remasking fail. */
  lemma {:induction false} RemaskFailsIff(f: Foreign, prev: seq<StateBlock>, patterns: Patterns)
    ensures Remask(f, prev, patterns).None? <==> exists i :: 0 <= i < |prev| && prev[i].html == ""
  {
    if prev != [] {
      var n := |prev| - 1;
      RemaskFailsIff(f, prev[..n], patterns);
      if i :| 0 <= i < |prev[..n]| && prev[..n][i].html == "" {
        assert prev[i].html == "";
      }
      if Remask(f, prev[..n], patterns).Some? && prev[n].html != "" {
        forall i | 0 <= i < |prev| ensures prev[i].html != "" {
          if i < n { assert prev[..n][i].html != ""; }
        }
      }
    }
  }

  method RecomputeStateBlocks(f: Foreign, prev: seq<StateBlock>, patterns: Patterns)
    returns (r: Option<seq<StateBlock>>)
    ensures r == Remask(f, prev, patterns)
  {
    var out: seq<StateBlock> := [];
    var i := 0;
    while i < |prev|
      invariant 0 <= i <= |prev|
      invariant Remask(f, prev[..i], patterns) == Some(out)
    {
      if prev[i].html == "" {
        RemaskFailsIff(f, prev, patterns);
        return None;
      }
      assert prev[..i + 1][..i] == prev[..i];
      var masked := f.mask(prev[i].html, patterns);
      if f.strip(masked) != "" {
        out := out + [prev[i].(key := masked)];
      }
      i := i + 1;
    }
    assert prev[..i] == prev;
    r := Some(out);
  }

  /** Every block the new patterns leave visible was visible under the old ones. */
  predicate NothingUncovered(f: Foreign, blocks: seq<Block>, before: Patterns, after: Patterns) {
    forall i :: 0 <= i < |blocks| && Shows(f, blocks[i].html, after) ==> Shows(f, blocks[i].html, before)
  }

  lemma StateBlocksSnoc(blocks: seq<Block>, b: Block)
    ensures
      var s := StateBlock(b.key, b.html, b.anchor, b.head);
      ToStateBlocks(blocks + [b]) == ToStateBlocks(blocks) + [s]
  {
  }

  lemma RemaskSnoc(f: Foreign, prev: seq<StateBlock>, b: StateBlock, patterns: Patterns)
    requires b.html != ""
    ensures
      var out := Remask(f, prev, patterns);
      Remask(f, prev + [b], patterns) ==
      if out.None? || !Shows(f, b.html, patterns) then out
      else Some(out.value + [b.(key := f.mask(b.html, patterns))])
  {
    assert (prev + [b])[..|prev|] == prev;
  }

  /** Every block that gets saved has HTML to save. */
  predicate ShownHaveHtml(f: Foreign, blocks: seq<Block>, patterns: Patterns) {
    forall b :: b in blocks && Shows(f, b.html, patterns) ==> b.html != ""
  }

  predicate AllHaveHtml(blocks: seq<StateBlock>) { forall b :: b in blocks ==> b.html != "" }

  lemma {:induction false} SavedHaveHtmlIff(f: Foreign, blocks: seq<Block>, patterns: Patterns)
    ensures AllHaveHtml(ToStateBlocks(MaskAndFilter(f, blocks, patterns))) <==> ShownHaveHtml(f, blocks, patterns)
  {
    if blocks != [] {
      var n := |blocks| - 1;
      var b, saved := blocks[n], MaskAndFilter(f, blocks[..n], patterns);
      SavedHaveHtmlIff(f, blocks[..n], patterns);
      assert ShownHaveHtml(f, blocks, patterns) <==>
        ShownHaveHtml(f, blocks[..n], patterns) && (Shows(f, b.html, patterns) ==> b.html != "") by {
        assert blocks == blocks[..n] + [b];
      }
      StateBlocksSnoc(saved, b.(key := f.mask(b.html, patterns)));
      assert saved + [] == saved;
    }
  }

  /** Remasking what was saved reproduces the page under the new patterns exactly when they uncover nothing. */
  lemma {:induction false} RemaskMatchesPageIff(f: Foreign, blocks: seq<Block>, before: Patterns, after: Patterns)
    requires ShownHaveHtml(f, blocks, before)
    ensures
      var out := Remask(f, ToStateBlocks(MaskAndFilter(f, blocks, before)), after);
      var page := ToStateBlocks(MaskAndFilter(f, blocks, after));
      && out.Some?
      && |out.value| <= |page|
      && (out.value == page <==> NothingUncovered(f, blocks, before, after))
      && (|out.value| == |page| <==> NothingUncovered(f, blocks, before, after))
  {
    if blocks != [] {
      var n := |blocks| - 1;
      var rest, b := blocks[..n], blocks[n];
      RemaskMatchesPageIff(f, rest, before, after);
      assert NothingUncovered(f, blocks, before, after) <==>
        NothingUncovered(f, rest, before, after) && (Shows(f, b.html, after) ==> Shows(f, b.html, before));
      var saved := MaskAndFilter(f, rest, before);
      var kept := b.(key := f.mask(b.html, before));
      StateBlocksSnoc(saved, kept);
      if Shows(f, b.html, before) {
        RemaskSnoc(f, ToStateBlocks(saved), StateBlock(kept.key, kept.html, kept.anchor, kept.head), after);
      }
      StateBlocksSnoc(MaskAndFilter(f, rest, after), b.(key := f.mask(b.html, after)));
      assert saved + [] == saved;
      assert MaskAndFilter(f, rest, after) + [] == MaskAndFilter(f, rest, after);
    }
  }

  /** The keys that show under the new patterns but were hidden, and so not saved, under the old ones. */
  function UncoveredKeys(f: Foreign, blocks: seq<Block>, before: Patterns, after: Patterns): seq<Key> {
    if blocks == [] then []
    else
      var n := |blocks| - 1;
      var html := blocks[n].html;
      UncoveredKeys(f, blocks[..n], before, after) +
      if Shows(f, html, after) && !Shows(f, html, before) then [f.mask(html, after)] else []
  }

  lemma {:induction false} UncoveredIff(f: Foreign, blocks: seq<Block>, before: Patterns, after: Patterns)
    ensures UncoveredKeys(f, blocks, before, after) == [] <==> NothingUncovered(f, blocks, before, after)
  {
    if blocks != [] {
      var n := |blocks| - 1;
      UncoveredIff(f, blocks[..n], before, after);
      var html := blocks[n].html;
      assert NothingUncovered(f, blocks, before, after) <==>
        NothingUncovered(f, blocks[..n], before, after) && (Shows(f, html, after) ==> Shows(f, html, before));
    }
  }

  lemma {:induction false} UncoveredAreNotEmpty(f: Foreign, blocks: seq<Block>, before: Patterns, after: Patterns)
    requires f.strip("") == ""
    ensures NonEmptyKeys(UncoveredKeys(f, blocks, before, after))
  {
    if blocks != [] {
      UncoveredAreNotEmpty(f, blocks[..|blocks| - 1], before, after);
    }
  }

  lemma KeysSnoc(blocks: seq<Block>, b: Block)
    ensures Keys(blocks + [b]) == Keys(blocks) + [b.key]
  {
  }

  lemma StoredKeysSnoc(blocks: seq<StateBlock>, b: StateBlock)
    ensures StoredKeys(blocks + [b]) == StoredKeys(blocks) + [b.key]
  {
  }

  /** One bag of keys, and its characters, is made of two others. */
  ghost predicate SplitsInto(whole: seq<Key>, a: seq<Key>, b: seq<Key>) {
    multiset(whole) == multiset(a) + multiset(b) && Chars(whole) == Chars(a) + Chars(b)
  }

  lemma SplitsMore(whole: seq<Key>, a: seq<Key>, b: seq<Key>, k: Key)
    requires SplitsInto(whole, a, b)
    ensures SplitsInto(whole + [k], a + [k], b) && SplitsInto(whole + [k], a, b + [k])
  {
    CharsSnoc(whole, k);
    CharsSnoc(a, k);
    CharsSnoc(b, k);
  }

  lemma RemaskOneMore(f: Foreign, saved: seq<Block>, b: Block, before: Patterns, after: Patterns)
    requires b.html != "" && Remask(f, ToStateBlocks(saved), after).Some?
    ensures
      var out := Remask(f, ToStateBlocks(saved), after).value;
      Remask(f, ToStateBlocks(saved + [b.(key := f.mask(b.html, before))]), after) ==
      Some(if Shows(f, b.html, after) then out + [StateBlock(f.mask(b.html, after), b.html, b.anchor, b.head)] else out)
  {
    var kept := b.(key := f.mask(b.html, before));
    StateBlocksSnoc(saved, kept);
    RemaskSnoc(f, ToStateBlocks(saved), StateBlock(kept.key, kept.html, kept.anchor, kept.head), after);
  }

  /** The page shows what remasking gave, and what got uncovered. */
  ghost predicate Accounts(out: Option<seq<StateBlock>>, page: seq<Block>, uncovered: seq<Key>) {
    out.Some? && SplitsInto(Keys(page), StoredKeys(out.value), uncovered)
  }

  lemma AccountsMore(out: seq<StateBlock>, page: seq<Block>, uncovered: seq<Key>, b: Block, stored: StateBlock)
    requires Accounts(Some(out), page, uncovered) && stored.key == b.key
    ensures Accounts(Some(out + [stored]), page + [b], uncovered)
    ensures Accounts(Some(out), page + [b], uncovered + [b.key])
  {
    KeysSnoc(page, b);
    StoredKeysSnoc(out, stored);
    SplitsMore(Keys(page), StoredKeys(out), uncovered, b.key);
  }

  function Append<T>(list: seq<T>, more: bool, x: T): seq<T> { if more then list + [x] else list }

  lemma AccountOfOneMore(f: Foreign, saved: seq<Block>, page: seq<Block>, uncovered: seq<Key>, b: Block,
                         before: Patterns, after: Patterns)
    requires Accounts(Remask(f, ToStateBlocks(saved), after), page, uncovered)
    requires Shows(f, b.html, before) ==> b.html != ""
    ensures
      var kept, shown := b.(key := f.mask(b.html, before)), b.(key := f.mask(b.html, after));
      var was, now := Shows(f, b.html, before), Shows(f, b.html, after);
      Accounts(Remask(f, ToStateBlocks(Append(saved, was, kept)), after), Append(page, now, shown),
               Append(uncovered, now && !was, shown.key))
  {
    var out := Remask(f, ToStateBlocks(saved), after).value;
    var shown := b.(key := f.mask(b.html, after));
    if Shows(f, b.html, before) { RemaskOneMore(f, saved, b, before, after); }
    AccountsMore(out, page, uncovered, shown, StateBlock(shown.key, b.html, b.anchor, b.head));
  }

  lemma FirstHaveHtml(f: Foreign, blocks: seq<Block>, patterns: Patterns)
    requires ShownHaveHtml(f, blocks, patterns) && blocks != []
    ensures ShownHaveHtml(f, blocks[..|blocks| - 1], patterns)
    ensures Shows(f, blocks[|blocks| - 1].html, patterns) ==> blocks[|blocks| - 1].html != ""
  {
  }

  lemma LastBlock(f: Foreign, blocks: seq<Block>, before: Patterns, after: Patterns)
    requires blocks != []
    ensures
      var rest, b := blocks[..|blocks| - 1], blocks[|blocks| - 1];
      var was, now := Shows(f, b.html, before), Shows(f, b.html, after);
      && MaskAndFilter(f, blocks, before) ==
         Append(MaskAndFilter(f, rest, before), was, b.(key := f.mask(b.html, before)))
      && MaskAndFilter(f, blocks, after) ==
         Append(MaskAndFilter(f, rest, after), now, b.(key := f.mask(b.html, after)))
      && UncoveredKeys(f, blocks, before, after) ==
         Append(UncoveredKeys(f, rest, before, after), now && !was, f.mask(b.html, after))
  {
    var rest := blocks[..|blocks| - 1];
    assert MaskAndFilter(f, rest, before) + [] == MaskAndFilter(f, rest, before);
    assert MaskAndFilter(f, rest, after) + [] == MaskAndFilter(f, rest, after);
    assert UncoveredKeys(f, rest, before, after) + [] == UncoveredKeys(f, rest, before, after);
  }

  /** The page under the new patterns is what remasking saved blocks gives, plus what gets uncovered. */
  lemma {:induction false} UncoveredAccount(f: Foreign, blocks: seq<Block>, before: Patterns, after: Patterns)
    requires ShownHaveHtml(f, blocks, before)
    ensures Accounts(Remask(f, ToStateBlocks(MaskAndFilter(f, blocks, before)), after),
                     MaskAndFilter(f, blocks, after), UncoveredKeys(f, blocks, before, after))
  {
    if blocks != [] {
      var rest, b := blocks[..|blocks| - 1], blocks[|blocks| - 1];
      FirstHaveHtml(f, blocks, before);
      UncoveredAccount(f, rest, before, after);
      LastBlock(f, blocks, before, after);
      AccountOfOneMore(f, MaskAndFilter(f, rest, before), MaskAndFilter(f, rest, after),
                       UncoveredKeys(f, rest, before, after), b, before, after);
    }
  }

  /** More characters, longer text: a bag with something added cannot hash like the one without. */
  lemma GrownTextDiffers(whole: seq<Key>, a: seq<Key>, b: seq<Key>)
    requires SplitsInto(whole, a, b) && b != [] && NonEmptyKeys(b)
    ensures ContentHash(whole) != ContentHash(a)
  {
    JoinLength(whole);
    JoinLength(a);
    assert b[|b| - 1] in b;
    assert Chars(b) >= 2;
  }
}
