/**
 * Watched pages on which a reader of the items goes wrong: one that drifts below the size threshold,
 * and one whose crawl loses its state.
 */
module PagewatchDrift {
  import opened Positions
  import opened BlockDiff
  import opened PagewatchState
  import opened PagewatchExtract
  import opened PagewatchRuns
  import opened PagewatchReplay

  lemma {:induction false} LengthOfLetters(blocks: seq<Block>)
    requires forall b :: b in blocks ==> |b.text| == 1
    ensures TextLength(blocks) == |blocks|
  {
    if blocks != [] {
      assert blocks[|blocks| - 1] in blocks;
      LengthOfLetters(blocks[..|blocks| - 1]);
    }
  }

  lemma AddedLetters(blocks: seq<Block>, idx: seq<nat>)
    requires Within(idx, 0, |blocks|) && forall b :: b in blocks ==> |b.text| == 1
    ensures TextLength(BlocksAt(blocks, idx)) == |Keys(BlocksAt(blocks, idx))|
  {
    LengthOfLetters(BlocksAt(blocks, idx));
  }

  lemma RemovedLetters(f: Foreign, blocks: seq<StateBlock>, idx: seq<nat>)
    requires Within(idx, 0, |blocks|) && forall b :: b in blocks ==> |f.strip(b.html)| == 1
    ensures TextLength(RestoredAt(f, blocks, idx)) == |Keys(RestoredAt(f, blocks, idx))|
  {
    LengthOfLetters(RestoredAt(f, blocks, idx));
  }

  /** With one character in every block, a change is as large as the number of keys that moved. */
  lemma ChangeOfLetters(f: Foreign, prev: seq<StateBlock>, curr: seq<Block>)
    requires forall b :: b in prev ==> |f.strip(b.html)| == 1
    requires forall b :: b in curr ==> |b.text| == 1
    ensures
      var m := Between(multiset(StoredKeys(prev)), multiset(Keys(curr)));
      ChangeChars(BlockDiffOf(f, prev, curr)) == |m.gained| + |m.lost|
  {
    var d := BlockDiffOf(f, prev, curr);
    BranchesAgree(StoredKeys(prev), Keys(curr));
    AddedLetters(curr, DiffIndices(StoredKeys(prev), Keys(curr)).added);
    RemovedLetters(f, prev, DiffIndices(StoredKeys(prev), Keys(curr)).removed);
    DiffIsBagDifference(f, prev, curr);
    assert |multiset(Keys(d.added))| == |Keys(d.added)| && |multiset(Keys(d.removed))| == |Keys(d.removed)|;
  }

  function Html(c: char): string { "<p>" + [c] + "</p>" }

  function Letters(c: char, d: char): seq<Block> { [Paragraph(Html(c), [c]), Paragraph(Html(d), [d])] }

  /** Nothing is ignored and stripping tags leaves the letter. */
  predicate ReadsLetter(src: Source, c: char) {
    src.f.mask(Html(c), src.cfg.patterns) == Html(c) && src.f.strip(Html(c)) == [c]
  }

  lemma LetterKeys(src: Source, c: char, d: char)
    requires ReadsLetter(src, c) && ReadsLetter(src, d)
    ensures Comparable(src.f, src.cfg, Letters(c, d)) == Letters(c, d)
    ensures KeysOf(src, Letters(c, d)) == [Html(c), Html(d)]
  {
    var b, b' := Paragraph(Html(c), [c]), Paragraph(Html(d), [d]);
    KeysOfTwo(src, b, Html(c), b', Html(d));
  }

  /** From one page of letters to another. */
  lemma LettersMove(src: Source, c: char, d: char, c': char, d': char, now: Time)
    requires ReadsLetter(src, c) && ReadsLetter(src, d) && ReadsLetter(src, c') && ReadsLetter(src, d')
    requires KeepsHtml(src, Letters(c, d))
    ensures
      var raw, v := Stored(NewState(src.f, src.cfg, Letters(c, d))), Visit(Letters(c', d'), now, EntryAndState);
      var before, after := multiset{Html(c), Html(d)}, multiset{Html(c'), Html(d')};
      && Compared(src, raw).Some? && Bag(src, raw) == before && multiset(KeysOf(src, v.page)) == after
      && ChangeChars(DiffOf(src, raw, v)) == |after - before| + |before - after|
  {
    var raw, v := Stored(NewState(src.f, src.cfg, Letters(c, d))), Visit(Letters(c', d'), now, EntryAndState);
    LetterKeys(src, c, d);
    LetterKeys(src, c', d');
    NewStateIsBaseline(src.f, src.cfg, Letters(c, d));
    var prev := Compared(src, raw).value;
    assert prev == ToStateBlocks(Letters(c, d));
    ChangeOfLetters(src.f, prev, Letters(c', d'));
  }

  lemma HashOfLetters(src: Source, a: seq<Key>, b: seq<Key>)
    requires forall k :: k in a + b ==> exists c :: c != '\n' && k == Html(c)
    ensures ContentHash(a) == ContentHash(b) <==> a == b
  {
    var keys := set k | k in a + b;
    forall k | k in keys ensures k != "" && '\n' !in k {
      var c :| c != '\n' && k == Html(c);
    }
    OneLinersAreSeparable(keys);
    HashSeesEveryKey(a, b, keys);
  }

  lemma MovedCrawl(src: Source, raw: Raw, v: Visit)
    requires Compared(src, raw).Some? && v.Saved() && v.page != [] && HashMoved(src, raw, v)
    ensures After(src, raw, v) == Stored(NewState(src.f, src.cfg, v.page))
    ensures Crawl(src, raw, v).Ok?
    ensures Crawl(src, raw, v).value.items != [] <==>
            !Under(src, raw, v) && WorthReporting(src.cfg, Bag(src, raw), multiset(KeysOf(src, v.page)))
  {
    ItemIffKeysChanged(src.f, src.cfg, src.link, raw, v.page, v.now);
  }

  function StateOf(src: Source, c: char, d: char): Raw { Stored(NewState(src.f, src.cfg, Letters(c, d))) }

  predicate ReadsLetters(src: Source, letters: set<char>) {
    '\n' !in letters && forall c :: c in letters ==> ReadsLetter(src, c)
  }

  /** How many keys of the one pair are not in the other. */
  function Moved(c: char, d: char, c': char, d': char): nat {
    |multiset{Html(c'), Html(d')} - multiset{Html(c), Html(d)}| +
    |multiset{Html(c), Html(d)} - multiset{Html(c'), Html(d')}|
  }

  lemma LettersHashMoved(src: Source, c: char, d: char, c': char, d': char, now: Time)
    requires ReadsLetters(src, {c, d, c', d'}) && Moved(c, d, c', d') > 0
    ensures
      var v := Visit(Letters(c', d'), now, EntryAndState);
      Compared(src, StateOf(src, c, d)).Some? && HashMoved(src, StateOf(src, c, d), v)
  {
    LetterKeys(src, c, d);
    LetterKeys(src, c', d');
    NewStateIsBaseline(src.f, src.cfg, Letters(c, d));
    HashOfLetters(src, [Html(c), Html(d)], [Html(c'), Html(d')]);
  }

  /** A change of a page of letters is swallowed or told, by the number of keys that moved. */
  lemma LettersAreJudged(src: Source, c: char, d: char, c': char, d': char, now: Time)
    requires src.cfg.watchMode == Changes && src.cfg.minChangeChars > 0
    requires ReadsLetters(src, {c, d, c', d'}) && Moved(c, d, c', d') > 0 && KeepsHtml(src, Letters(c, d))
    ensures
      var raw, v := StateOf(src, c, d), Visit(Letters(c', d'), now, EntryAndState);
      && Compared(src, raw).Some? && Crawl(src, raw, v).Ok?
      && (Moved(c, d, c', d') < src.cfg.minChangeChars ==> Under(src, raw, v))
      && (Moved(c, d, c', d') >= src.cfg.minChangeChars ==> Crawl(src, raw, v).value.items != [])
      && After(src, raw, v) == StateOf(src, c', d')
  {
    var raw, v := StateOf(src, c, d), Visit(Letters(c', d'), now, EntryAndState);
    LettersHashMoved(src, c, d, c', d', now);
    LettersMove(src, c, d, c', d', now);
    MovedCrawl(src, raw, v);
  }

  lemma LettersDiffer(c: char, d: char)
    ensures Html(c) == Html(d) <==> c == d
  {
    assert Html(c)[3] == c && Html(d)[3] == d;
  }

  lemma OneOfTwoMoves(c: char, d: char, e: char)
    requires c != d && c != e && d != e
    ensures Moved(c, d, e, d) == 2 && Moved(d, c, d, e) == 2
  {
    LettersDiffer(c, d);
    LettersDiffer(c, e);
    LettersDiffer(d, e);
    var before, after := multiset{Html(c), Html(d)}, multiset{Html(e), Html(d)};
    assert before == multiset{Html(d), Html(c)} && after == multiset{Html(d), Html(e)};
    assert after - before == multiset{Html(e)} && before - after == multiset{Html(c)};
  }

  lemma BothMove(c: char, d: char, c': char, d': char)
    requires c !in [c', d'] && d !in [c', d']
    ensures Moved(c, d, c', d') == 4
    ensures multiset{Html(c), Html(d)} !! multiset{Html(c'), Html(d')}
  {
    LettersDiffer(c, c');
    LettersDiffer(c, d');
    LettersDiffer(d, c');
    LettersDiffer(d, d');
    var before, after := multiset{Html(c), Html(d)}, multiset{Html(c'), Html(d')};
    assert after - before == after && before - after == before;
  }

  lemma ReplayTwo(src: Source, raw: Raw, both: seq<Visit>, shown: multiset<Key>)
    requires |both| == 2 && both[0].Delivered() && both[1].Delivered()
    ensures
      var first, second := Crawl(src, raw, both[0]), Crawl(src, After(src, raw, both[0]), both[1]);
      Replay(src, raw, both, shown) == Believe(Believe(shown, first), second)
  {
    assert both[..0] == [] && both[..2] == both;
    ReplayUpTo(src, raw, both, 0, shown);
    ReplayUpTo(src, raw, both, 1, shown);
  }

  lemma StepsUnder(src: Source, raw: Raw, both: seq<Visit>, shown: multiset<Key>)
    requires |both| == 2 && both[0].Delivered() && both[1].Delivered()
    requires Under(src, raw, both[0]) && Under(src, After(src, raw, both[0]), both[1])
    ensures Replay(src, raw, both, shown) == shown
  {
    ReplayTwo(src, raw, both, shown);
    UnderTellsNothing(src, raw, both[0], shown);
    UnderTellsNothing(src, After(src, raw, both[0]), both[1], shown);
  }

  lemma OneLetterIsUnder(src: Source, raw: Raw, c: char, d: char, c': char, d': char, now: Time)
    requires src.cfg.watchMode == Changes && src.cfg.minChangeChars > 2
    requires ReadsLetters(src, {c, d, c', d'}) && Moved(c, d, c', d') == 2 && KeepsHtml(src, Letters(c, d))
    requires raw == StateOf(src, c, d)
    ensures
      var v := Visit(Letters(c', d'), now, EntryAndState);
      Compared(src, raw).Some? && Under(src, raw, v) && After(src, raw, v) == StateOf(src, c', d')
  {
    LettersAreJudged(src, c, d, c', d', now);
  }

  lemma OneByOneIsUntold(src: Source, a: char, b: char, c: char, d: char, now: Time, shown: multiset<Key>)
    requires src.cfg.watchMode == Changes && src.cfg.minChangeChars > 2
    requires ReadsLetters(src, {a, b, c, d}) && a != b && c != d && a !in [c, d] && b !in [c, d]
    requires KeepsHtml(src, Letters(a, b)) && KeepsHtml(src, Letters(c, b))
    ensures
      var second, third := Visit(Letters(c, b), now, EntryAndState), Visit(Letters(c, d), now, EntryAndState);
      Replay(src, StateOf(src, a, b), [second, third], shown) == shown
  {
    OneOfTwoMoves(a, b, c);
    OneLetterIsUnder(src, StateOf(src, a, b), a, b, c, b, now);
    OneOfTwoMoves(b, c, d);
    OneLetterIsUnder(src, StateOf(src, c, b), c, b, c, d, now);
    var second, third := Visit(Letters(c, b), now, EntryAndState), Visit(Letters(c, d), now, EntryAndState);
    StepsUnder(src, StateOf(src, a, b), [second, third], shown);
  }

  /**
   * Two of two paragraphs changed one after the other go untold although nothing of the page is
   * left; changed at once they are reported.
   */
  lemma PageDriftsUnseen(src: Source, a: char, b: char, c: char, d: char, now: Time)
    requires src.cfg.watchMode == Changes && 2 < src.cfg.minChangeChars <= 4
    requires ReadsLetters(src, {a, b, c, d}) && a != b && c != d && a !in [c, d] && b !in [c, d]
    requires KeepsHtml(src, Letters(a, b)) && KeepsHtml(src, Letters(c, b))
    ensures
      var raw := After(src, Missing, Visit(Letters(a, b), now, EntryAndState));
      var second, third := Visit(Letters(c, b), now, EntryAndState), Visit(Letters(c, d), now, EntryAndState);
      var start, end := multiset(KeysOf(src, Letters(a, b))), multiset(KeysOf(src, third.page));
      && start !! end
      && Replay(src, raw, [second, third], start) == start
      && Crawl(src, raw, third).Ok? && Crawl(src, raw, third).value.items != []
  {
    LetterKeys(src, a, b);
    LetterKeys(src, c, d);
    BothMove(a, b, c, d);
    LettersAreJudged(src, a, b, c, d, now);
    OneByOneIsUntold(src, a, b, c, d, now, multiset(KeysOf(src, Letters(a, b))));
  }

  // ---------------------------------------------------------------- a state write that fails

  /** A key's count told to be `middle`, and then told to move from `start` to `end`. */
  predicate Forgiven(start: nat, middle: nat, end: nat) { start == middle || (end == 0 && middle <= start) }

  lemma ToldTwiceInBags(start: multiset<Key>, middle: multiset<Key>, end: multiset<Key>)
    ensures
      var once := start - (start - middle) + (middle - start);
      once - (start - end) + (end - start) == end <==> forall k :: Forgiven(start[k], middle[k], end[k])
  {
    var once := start - (start - middle) + (middle - start);
    var twice := once - (start - end) + (end - start);
    BetweenAccounts(start, middle);
    forall k: Key ensures twice[k] == end[k] <==> Forgiven(start[k], middle[k], end[k]) {
    }
  }

  /** A saved crawl that swallows nothing tells all that the state moves by. */
  lemma SavedTellsTheMove(src: Source, raw: Raw, v: Visit)
    requires Compared(src, raw).Some? && src.cfg.watchMode == Changes && v.Saved() && !Swallows(src, raw, v)
    ensures Compared(src, After(src, raw, v)).Some?
    ensures Told(Crawl(src, raw, v)) == Between(Bag(src, raw), Bag(src, After(src, raw, v)))
  {
    if v.page != [] {
      ToldOrSwallowed(src, raw, v);
      SavedCrawlMoves(src, raw, v);
    } else {
      assert Crawl(src, raw, v).Err?;
    }
  }

  lemma SameTold(src: Source, raw: Raw, v: Visit, v': Visit)
    requires Compared(src, raw).Some? && v.page == v'.page
    ensures Told(Crawl(src, raw, v)) == Told(Crawl(src, raw, v'))
  {
    if v.page != [] {
      ToldOrSwallowed(src, raw, v);
      ToldOrSwallowed(src, raw, v');
    } else {
      assert Crawl(src, raw, v).Err? && Crawl(src, raw, v').Err?;
    }
  }

  /** The run of a crawl that loses its state and one that saves it. */
  lemma LostThenSaved(src: Source, raw: Raw, lost: Visit, again: Visit, shown: multiset<Key>)
    requires lost.writes.EntryOnly? && again.Saved()
    ensures
      var visits := [lost, again];
      && visits[..0] == [] && visits[..1] == [lost]
      && Run(src, raw, [lost]) == raw && Run(src, raw, visits) == After(src, raw, again)
      && Replay(src, raw, visits, shown) == Believe(Believe(shown, Crawl(src, raw, lost)), Crawl(src, raw, again))
  {
    var visits := [lost, again];
    assert visits[..0] == [] && visits[..1] == [lost] && visits[..2] == visits;
    ReplayUpTo(src, raw, visits, 0, shown);
    ReplayUpTo(src, raw, visits, 1, shown);
    assert After(src, raw, lost) == raw;
  }

  lemma LastSwallowsNothing(src: Source, raw: Raw, visits: seq<Visit>)
    requires |visits| == 2 && !visits[0].Saved() && !Swallows(src, Run(src, raw, visits[..1]), visits[1])
    ensures NeverSwallows(src, raw, visits)
  {
  }

  /**
   * A crawl that tells a change but loses its state, and a saved one that swallows nothing, of any
   * page: a reader of both items holds what the source compares with exactly if the first told of
   * no key's count except falls of keys that are gone in the end.
   */
  lemma LostStateMisleadsIff(src: Source, raw: Raw, lost: Visit, next: Visit)
    requires Compared(src, raw).Some? && src.cfg.watchMode == Changes
    requires lost.writes.EntryOnly? && Told(Crawl(src, raw, lost)) != NONE
    requires next.Saved() && !Swallows(src, raw, next)
    ensures
      var visits := [lost, next];
      && NeverSwallows(src, raw, visits) && Compared(src, Run(src, raw, visits)).Some?
      && var start, middle, end := Bag(src, raw), multiset(KeysOf(src, lost.page)), Bag(src, Run(src, raw, visits));
         Replay(src, raw, visits, start) == end <==> forall k :: Forgiven(start[k], middle[k], end[k])
  {
    LostThenSaved(src, raw, lost, next, Bag(src, raw));
    ToldChange(src, raw, lost);
    LastSwallowsNothing(src, raw, [lost, next]);
    SavedTellsTheMove(src, raw, next);
    ToldTwiceInBags(Bag(src, raw), multiset(KeysOf(src, lost.page)), Bag(src, After(src, raw, next)));
  }

  /**
   * One paragraph replaced, and the state write of the first crawl that sees it fails: the same item
   * is delivered again, although nothing is swallowed, and replaying both misses the page.
   */
  lemma ReplacedParagraphIsToldTwice(src: Source, a: char, b: char, c: char, now: Time, later: Time)
    requires src.cfg.watchMode == Changes && 0 < src.cfg.minChangeChars <= 2 && ReadsLetters(src, {a, b, c})
    requires a != b && a != c && b != c && KeepsHtml(src, Letters(a, b))
    ensures
      var raw := After(src, Missing, Visit(Letters(a, b), now, EntryAndState));
      var lost, again := Visit(Letters(c, b), now, EntryOnly), Visit(Letters(c, b), later, EntryAndState);
      && Told(Crawl(src, raw, again)) == Told(Crawl(src, raw, lost)) && NeverSwallows(src, raw, [lost, again])
      && Compared(src, Run(src, raw, [lost, again])).Some?
      && Bag(src, Run(src, raw, [lost, again])) == multiset{Html(c), Html(b)}
      && Replay(src, raw, [lost, again], multiset{Html(a), Html(b)}) != multiset{Html(c), Html(b)}
  {
    ToldTwiceFrom(src, StateOf(src, a, b), a, b, c, Visit(Letters(c, b), now, EntryOnly),
                  Visit(Letters(c, b), later, EntryAndState));
  }

  lemma ToldTwiceFrom(src: Source, raw: Raw, a: char, b: char, c: char, lost: Visit, again: Visit)
    requires src.cfg.watchMode == Changes && 0 < src.cfg.minChangeChars <= 2 && ReadsLetters(src, {a, b, c})
    requires a != b && a != c && b != c && KeepsHtml(src, Letters(a, b)) && raw == StateOf(src, a, b)
    requires lost == Visit(Letters(c, b), lost.now, EntryOnly)
    requires again == Visit(Letters(c, b), again.now, EntryAndState)
    ensures Told(Crawl(src, raw, again)) == Told(Crawl(src, raw, lost)) && NeverSwallows(src, raw, [lost, again])
    ensures Compared(src, Run(src, raw, [lost, again])).Some?
    ensures Bag(src, Run(src, raw, [lost, again])) == multiset{Html(c), Html(b)}
    ensures Replay(src, raw, [lost, again], multiset{Html(a), Html(b)}) != multiset{Html(c), Html(b)}
  {
    ReplacementIsTold(src, raw, a, b, c, again);
    SameTold(src, raw, again, lost);
    ToldChange(src, raw, again);
    LostStateMisleadsIff(src, raw, lost, again);
    LostThenSaved(src, raw, lost, again, Bag(src, raw));
    SavedPageIsCompared(src, c, b);
    NewKeyIsNotForgiven(a, b, c);
  }

  lemma ReplacementIsTold(src: Source, raw: Raw, a: char, b: char, c: char, v: Visit)
    requires src.cfg.watchMode == Changes && 0 < src.cfg.minChangeChars <= 2 && ReadsLetters(src, {a, b, c})
    requires a != b && a != c && b != c && KeepsHtml(src, Letters(a, b))
    requires raw == StateOf(src, a, b) && v == Visit(Letters(c, b), v.now, EntryAndState)
    ensures Compared(src, raw).Some? && Bag(src, raw) == multiset{Html(a), Html(b)}
    ensures Told(Crawl(src, raw, v)) != NONE && After(src, raw, v) == StateOf(src, c, b)
  {
    OneOfTwoMoves(a, b, c);
    assert {a, b, c, b} == {a, b, c};
    LettersAreJudged(src, a, b, c, b, v.now);
    SavedPageIsCompared(src, a, b);
    ItemsTell(src, raw, v);
  }

  lemma NewKeyIsNotForgiven(a: char, b: char, c: char)
    requires a != c && b != c
    ensures
      var start, end := multiset{Html(a), Html(b)}, multiset{Html(c), Html(b)};
      !Forgiven(start[Html(c)], end[Html(c)], end[Html(c)])
  {
    LettersDiffer(a, c);
    LettersDiffer(b, c);
  }

  lemma SavedPageIsCompared(src: Source, c: char, d: char)
    requires ReadsLetters(src, {c, d})
    ensures Compared(src, StateOf(src, c, d)).Some? && Bag(src, StateOf(src, c, d)) == multiset{Html(c), Html(d)}
    ensures multiset(KeysOf(src, Letters(c, d))) == multiset{Html(c), Html(d)}
  {
    LetterKeys(src, c, d);
    NewStateIsBaseline(src.f, src.cfg, Letters(c, d));
  }

  lemma ItemsTell(src: Source, raw: Raw, v: Visit)
    requires Compared(src, raw).Some? && src.cfg.watchMode == Changes
    requires Crawl(src, raw, v).Ok? && Crawl(src, raw, v).value.items != []
    ensures Told(Crawl(src, raw, v)) != NONE
  {
    ItemIffKeysChanged(src.f, src.cfg, src.link, raw, v.page, v.now);
    ToldOrSwallowed(src, raw, v);
    BetweenAccounts(Bag(src, raw), multiset(KeysOf(src, v.page)));
  }
}
