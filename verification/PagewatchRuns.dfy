/** Page watching over whole sequences of crawls, any of which may fail to write its entry or its state. */
module PagewatchRuns {
  import opened Wrappers
  import opened Positions
  import opened PagewatchState
  import opened PagewatchExtract

  /** How far the crawler got with its writes: the entry goes first, the new state second. */
  datatype Writes = Nothing | EntryOnly | EntryAndState

  /** One crawl of the page. */
  datatype Visit = Visit(page: seq<Block>, now: Time, writes: Writes) {

    /** The item, if there is one, reaches the reader. */
    predicate Delivered() { !writes.Nothing? }

    predicate Saved() { writes.EntryAndState? }
  }

  /** A source being watched: everything that stays the same from crawl to crawl. */
  datatype Source = Source(f: Foreign, cfg: Config, link: string)

  function Crawl(src: Source, raw: Raw, v: Visit): Result<Outcome, Failure> {
    Extract(src.f, src.cfg, src.link, raw, v.page, v.now)
  }

  function After(src: Source, raw: Raw, v: Visit): Raw {
    match Crawl(src, raw, v)
    case Err(_) => raw
    case Ok(o) => if o.state.Some? && v.Saved() then Stored(o.state.value) else raw
  }

  function Run(src: Source, raw: Raw, visits: seq<Visit>): Raw {
    if visits == [] then raw
    else After(src, Run(src, raw, visits[..|visits| - 1]), visits[|visits| - 1])
  }

  /** The last page that had blocks and whose state, if it called for one, was written. */
  function LastPage(visits: seq<Visit>): Option<seq<Block>> {
    if visits == [] then None
    else
      var n := |visits| - 1;
      if visits[n].Saved() && visits[n].page != [] then Some(visits[n].page) else LastPage(visits[..n])
  }

  function KeysOf(src: Source, page: seq<Block>): seq<Key> { PageKeys(src.f, src.cfg, page) }

  function Compared(src: Source, raw: Raw): Option<seq<StateBlock>> { Baseline(src.f, src.cfg, raw) }

  /** The next crawl will be compared with keys that hash like those of `page`. */
  predicate Watches(src: Source, raw: Raw, page: seq<Block>) {
    var b := Compared(src, raw);
    b.Some? && ContentHash(StoredKeys(b.value)) == ContentHash(KeysOf(src, page))
  }

  lemma SavedCrawlWatches(src: Source, raw: Raw, v: Visit)
    requires v.Saved() && v.page != []
    ensures Watches(src, After(src, raw, v), v.page)
  {
    NewStateIsBaseline(src.f, src.cfg, v.page);
  }

  /** From any state at all, missing, corrupt or outdated: the stored state follows the last page. */
  lemma {:induction false} StateFollowsLastPage(src: Source, raw: Raw, visits: seq<Visit>)
    ensures
      var last := LastPage(visits);
      last.Some? ==> last.value != [] && Watches(src, Run(src, raw, visits), last.value)
  {
    if visits != [] {
      var n := |visits| - 1;
      var v := visits[n];
      StateFollowsLastPage(src, raw, visits[..n]);
      if v.Saved() && v.page != [] {
        SavedCrawlWatches(src, Run(src, raw, visits[..n]), v);
      }
    }
  }

  /** Polling an unchanged page again reports nothing and leaves the state alone. */
  lemma RepollIsSilent(src: Source, raw: Raw, visits: seq<Visit>, now: Time)
    requires LastPage(visits).Some?
    ensures
      var again := Visit(LastPage(visits).value, now, EntryAndState);
      Crawl(src, Run(src, raw, visits), again) == Ok(Outcome([], None))
  {
    StateFollowsLastPage(src, raw, visits);
  }

  /** The crawl is silent, leaving even the state alone, exactly when the hashes agree. */
  lemma SilentIffHashesAgree(src: Source, raw: Raw, v: Visit)
    requires v.page != [] && Compared(src, raw).Some?
    ensures Crawl(src, raw, v) == Ok(Outcome([], None)) <==>
            ContentHash(StoredKeys(Compared(src, raw).value)) == ContentHash(KeysOf(src, v.page))
  {
  }

  /**
   * After any run, the next page passes as unchanged exactly when its keys, joined line by line,
   * give the text the last page's keys gave.
   */
  lemma PassesAsUnchangedIff(src: Source, raw: Raw, visits: seq<Visit>, v: Visit)
    requires LastPage(visits).Some? && v.page != []
    ensures Crawl(src, Run(src, raw, visits), v) == Ok(Outcome([], None)) <==>
            Join(KeysOf(src, LastPage(visits).value)) == Join(KeysOf(src, v.page))
  {
    StateFollowsLastPage(src, raw, visits);
    SilentIffHashesAgree(src, Run(src, raw, visits), v);
  }

  /** An ignore pattern that eats the tags around two paragraphs makes their merging invisible. */
  lemma MergedParagraphsPassUnseen(src: Source, raw: Raw, now: Time)
    requires src.cfg.patterns == ["</?p>"]
    requires src.f.mask("<p>a\nb</p>", ["</?p>"]) == "a\nb" && src.f.strip("a\nb") == "a\nb"
    requires src.f.mask("<p>a</p>", ["</?p>"]) == "a" && src.f.strip("a") == "a"
    requires src.f.mask("<p>b</p>", ["</?p>"]) == "b" && src.f.strip("b") == "b"
    ensures
      var one := [Paragraph("<p>a\nb</p>", "a b")];
      var two := [Paragraph("<p>a</p>", "a"), Paragraph("<p>b</p>", "b")];
      && KeysOf(src, one) == ["a\nb"] && KeysOf(src, two) == ["a", "b"]
      && Crawl(src, Run(src, raw, [Visit(one, now, EntryAndState)]), Visit(two, now, EntryAndState)) ==
         Ok(Outcome([], None))
  {
    var ab, a, b := Paragraph("<p>a\nb</p>", "a b"), Paragraph("<p>a</p>", "a"), Paragraph("<p>b</p>", "b");
    KeysOfOne(src, ab, "a\nb");
    KeysOfTwo(src, a, "a", b, "b");
    NewlinesCollide();
    assert LastPage([Visit([ab], now, EntryAndState)]) == Some([ab]);
    PassesAsUnchangedIff(src, raw, [Visit([ab], now, EntryAndState)], Visit([a, b], now, EntryAndState));
  }

  /** A paragraph as the page is split into blocks. */
  function Paragraph(html: string, text: string): Block { Block(html, text, html, "", "") }

  lemma KeysOfOne(src: Source, b: Block, key: Key)
    requires src.f.mask(b.html, src.cfg.patterns) == key && src.f.strip(key) != ""
    ensures MaskAndFilter(src.f, [b], src.cfg.patterns) == [b.(key := key)]
    ensures KeysOf(src, [b]) == [key]
  {
    assert [b][..0] == [];
  }

  lemma KeysOfTwo(src: Source, b: Block, k: Key, c: Block, l: Key)
    requires src.f.mask(b.html, src.cfg.patterns) == k && src.f.strip(k) != ""
    requires src.f.mask(c.html, src.cfg.patterns) == l && src.f.strip(l) != ""
    ensures MaskAndFilter(src.f, [b, c], src.cfg.patterns) == [b.(key := k), c.(key := l)]
    ensures KeysOf(src, [b, c]) == [k, l]
  {
    KeysOfOne(src, b, k);
    assert [b, c][..1] == [b];
    assert MaskAndFilter(src.f, [b, c], src.cfg.patterns) == [b.(key := k)] + [c.(key := l)];
  }

  // ---------------------------------------------------------------- pages over separable keys

  predicate PageOver(src: Source, page: seq<Block>, keys: set<Key>) { DrawnFrom(KeysOf(src, page), keys) }

  predicate StateOver(src: Source, raw: Raw, keys: set<Key>) {
    var b := Compared(src, raw);
    b.Some? ==> DrawnFrom(StoredKeys(b.value), keys)
  }

  predicate VisitsOver(src: Source, visits: seq<Visit>, keys: set<Key>) {
    forall i :: 0 <= i < |visits| ==> PageOver(src, visits[i].page, keys)
  }

  lemma CrawlStaysOver(src: Source, raw: Raw, v: Visit, keys: set<Key>)
    requires StateOver(src, raw, keys) && PageOver(src, v.page, keys)
    ensures StateOver(src, After(src, raw, v), keys)
  {
    NewStateIsBaseline(src.f, src.cfg, v.page);
  }

  lemma {:induction false} RunStaysOver(src: Source, raw: Raw, visits: seq<Visit>, keys: set<Key>)
    requires StateOver(src, raw, keys) && VisitsOver(src, visits, keys)
    ensures StateOver(src, Run(src, raw, visits), keys)
  {
    if visits != [] {
      var n := |visits| - 1;
      RunStaysOver(src, raw, visits[..n], keys);
      CrawlStaysOver(src, Run(src, raw, visits[..n]), visits[n], keys);
    }
  }

  /** The stored keys are the last page's keys, even after its HTML was given up for size. */
  lemma StateCarriesLastPage(src: Source, raw: Raw, visits: seq<Visit>, keys: set<Key>)
    requires Separable(keys) && StateOver(src, raw, keys) && VisitsOver(src, visits, keys) && LastPage(visits).Some?
    ensures
      var b := Compared(src, Run(src, raw, visits));
      b.Some? && StoredKeys(b.value) == KeysOf(src, LastPage(visits).value)
  {
    StateFollowsLastPage(src, raw, visits);
    RunStaysOver(src, raw, visits, keys);
    LastPageIsOver(src, visits, keys);
    var b := Compared(src, Run(src, raw, visits)).value;
    HashSeesEveryKey(StoredKeys(b), KeysOf(src, LastPage(visits).value), keys);
  }

  lemma {:induction false} LastPageIsOver(src: Source, visits: seq<Visit>, keys: set<Key>)
    requires VisitsOver(src, visits, keys) && LastPage(visits).Some?
    ensures PageOver(src, LastPage(visits).value, keys)
  {
    var n := |visits| - 1;
    if !(visits[n].Saved() && visits[n].page != []) {
      LastPageIsOver(src, visits[..n], keys);
    }
  }

  function DiffOf(src: Source, raw: Raw, v: Visit): Diff
    requires Compared(src, raw).Some?
  {
    BlockDiffOf(src.f, Compared(src, raw).value, Comparable(src.f, src.cfg, v.page))
  }

  /** The change has too little text to be reported. */
  predicate Under(src: Source, raw: Raw, v: Visit) {
    Compared(src, raw).Some? && TooSmall(src.cfg, DiffOf(src, raw, v))
  }

  /** `after` is reported against `before` exactly if there is something to report, and enough of it. */
  ghost predicate ReportsChange(
    cfg: Config, before: multiset<Key>, after: multiset<Key>, small: bool, items: seq<Item>)
  {
    && Reports(cfg, before, after, items)
    && (items != [] <==> WorthReporting(cfg, before, after) && !small)
  }

  lemma CrawlReports(src: Source, raw: Raw, v: Visit, before: seq<Key>, keys: set<Key>)
    requires Compared(src, raw).Some? && StoredKeys(Compared(src, raw).value) == before
    requires Separable(keys) && DrawnFrom(before, keys) && PageOver(src, v.page, keys) && v.page != []
    ensures ReportsChange(src.cfg, multiset(before), multiset(KeysOf(src, v.page)), Under(src, raw, v),
                          Crawl(src, raw, v).value.items)
  {
    ItemIffKeysChanged(src.f, src.cfg, src.link, raw, v.page, v.now);
    HashSeesEveryKey(before, KeysOf(src, v.page), keys);
  }

  /**
   * After any run, a crawl reports the bag difference between the last page and this one, and does so
   * exactly when something of it is reportable and its text reaches the threshold.
   */
  lemma ItemsCompareConsecutivePages(src: Source, raw: Raw, visits: seq<Visit>, v: Visit, keys: set<Key>)
    requires Separable(keys) && StateOver(src, raw, keys) && VisitsOver(src, visits, keys)
    requires LastPage(visits).Some? && PageOver(src, v.page, keys) && v.page != []
    ensures
      var now := Run(src, raw, visits);
      var before, after := KeysOf(src, LastPage(visits).value), KeysOf(src, v.page);
      ReportsChange(src.cfg, multiset(before), multiset(after), Under(src, now, v), Crawl(src, now, v).value.items)
  {
    StateCarriesLastPage(src, raw, visits, keys);
    LastPageIsOver(src, visits, keys);
    CrawlReports(src, Run(src, raw, visits), v, KeysOf(src, LastPage(visits).value), keys);
  }

  // ---------------------------------------------------------------- identities and changed patterns

  lemma ItemGuid(src: Source, raw: Raw, v: Visit)
    requires Crawl(src, raw, v).Ok? && Crawl(src, raw, v).value.items != []
    ensures
      var hash := ContentHash(KeysOf(src, v.page));
      Crawl(src, raw, v).value.items[0].guid == EntryGuid(src.cfg, src.link, v.now, hash)
  {
  }

  /** Content GUIDs depend on the keys alone: a page that returns to an earlier content updates that entry. */
  lemma ContentGuidsFollowTheKeys(src: Source, raw: Raw, v: Visit, raw': Raw, v': Visit, keys: set<Key>)
    requires src.cfg.guidMode == ContentGuids && Separable(keys)
    requires Crawl(src, raw, v).Ok? && Crawl(src, raw, v).value.items != []
    requires Crawl(src, raw', v').Ok? && Crawl(src, raw', v').value.items != []
    requires PageOver(src, v.page, keys) && PageOver(src, v'.page, keys)
    ensures
      Crawl(src, raw, v).value.items[0].guid == Crawl(src, raw', v').value.items[0].guid <==>
      KeysOf(src, v.page) == KeysOf(src, v'.page)
  {
    ItemGuid(src, raw, v);
    ItemGuid(src, raw', v');
    HashSeesEveryKey(KeysOf(src, v.page), KeysOf(src, v'.page), keys);
  }

  /** Revision GUIDs tell crawls apart by their time, whatever the pages say, and sources by their link. */
  lemma RevisionGuidsFollowTheClock(src: Source, raw: Raw, v: Visit, src': Source, raw': Raw, v': Visit)
    requires src.cfg.guidMode == RevisionGuids && src'.cfg.guidMode == RevisionGuids
    requires Crawl(src, raw, v).Ok? && Crawl(src, raw, v).value.items != []
    requires Crawl(src', raw', v').Ok? && Crawl(src', raw', v').value.items != []
    ensures
      Crawl(src, raw, v).value.items[0].guid == Crawl(src', raw', v').value.items[0].guid <==>
      v.now == v'.now && src.link == src'.link
  {
    ItemGuid(src, raw, v);
    ItemGuid(src', raw', v');
  }

  /** What is saved of the page still has its HTML. */
  predicate KeepsHtml(src: Source, page: seq<Block>) {
    AllHaveHtml(NewState(src.f, src.cfg, page).blocks)
  }

  lemma KeepsHtmlIff(src: Source, page: seq<Block>)
    ensures KeepsHtml(src, page) <==>
            || Comparable(src.f, src.cfg, page) == []
            || (&& src.f.size(WholeState(src.f, src.cfg, page)) <= MAX_STATE_BYTES
                && ShownHaveHtml(src.f, Capped(page), src.cfg.patterns))
  {
    SavedHaveHtmlIff(src.f, Capped(page), src.cfg.patterns);
    var saved := NewState(src.f, src.cfg, page).blocks;
    if Comparable(src.f, src.cfg, page) != [] && src.f.size(WholeState(src.f, src.cfg, page)) > MAX_STATE_BYTES {
      assert saved[0] in saved;
    }
  }

  lemma KeptHtmlIsThePage(src: Source, page: seq<Block>)
    requires KeepsHtml(src, page)
    ensures NewState(src.f, src.cfg, page).blocks == ToStateBlocks(Comparable(src.f, src.cfg, page))
    ensures ShownHaveHtml(src.f, Capped(page), src.cfg.patterns)
  {
    KeepsHtmlIff(src, page);
    SavedHaveHtmlIff(src.f, Capped(page), src.cfg.patterns);
  }

  /** Other patterns take over; stripping tags makes no text up. */
  predicate PatternsChange(src: Source, cfg: Config, page: seq<Block>) {
    page != [] && src.cfg.patterns != cfg.patterns && src.f.strip("") == ""
  }

  /** What a crawl of `page` under new patterns compares with. */
  lemma RemaskedState(src: Source, cfg: Config, page: seq<Block>)
    requires PatternsChange(src, cfg, page) && KeepsHtml(src, page)
    ensures
      var out := Baseline(src.f, cfg, Stored(NewState(src.f, src.cfg, page)));
      && out == Remask(src.f, ToStateBlocks(MaskAndFilter(src.f, Capped(page), src.cfg.patterns)), cfg.patterns)
      && Accounts(out, Comparable(src.f, cfg, page), Uncovered(src, cfg, page))
  {
    KeptHtmlIsThePage(src, page);
    UncoveredAccount(src.f, Capped(page), src.cfg.patterns, cfg.patterns);
  }

  /** Once HTML was dropped, the saved blocks cannot be compared with under other patterns. */
  lemma DroppedHtmlCannotServe(src: Source, cfg: Config, page: seq<Block>)
    requires PatternsChange(src, cfg, page) && !KeepsHtml(src, page)
    ensures Baseline(src.f, cfg, Stored(NewState(src.f, src.cfg, page))).None?
  {
    var blocks := NewState(src.f, src.cfg, page).blocks;
    RemaskFailsIff(src.f, blocks, cfg.patterns);
    var b :| b in blocks && b.html == "";
    var i :| 0 <= i < |blocks| && blocks[i] == b;
  }

  /** The masked texts of the blocks that the old patterns hid and the new ones show. */
  function Uncovered(src: Source, cfg: Config, page: seq<Block>): seq<Key> {
    UncoveredKeys(src.f, Capped(page), src.cfg.patterns, cfg.patterns)
  }

  /**
   * New ignore patterns on an unchanged page: silent exactly when the saved HTML was kept and they
   * uncover no block that the old ones hid.
   */
  lemma PatternChangeIsSilentIff(src: Source, cfg: Config, v: Visit)
    requires PatternsChange(src, cfg, v.page)
    ensures
      Crawl(src.(cfg := cfg), Stored(NewState(src.f, src.cfg, v.page)), v) == Ok(Outcome([], None))
      <==> KeepsHtml(src, v.page) && NothingUncovered(src.f, Capped(v.page), src.cfg.patterns, cfg.patterns)
  {
    if KeepsHtml(src, v.page) {
      KeptHtmlIsSilentIff(src, cfg, v);
    } else {
      DroppedHtmlCannotServe(src, cfg, v.page);
    }
  }

  lemma KeptHtmlIsSilentIff(src: Source, cfg: Config, v: Visit)
    requires PatternsChange(src, cfg, v.page) && KeepsHtml(src, v.page)
    ensures
      Crawl(src.(cfg := cfg), Stored(NewState(src.f, src.cfg, v.page)), v) == Ok(Outcome([], None))
      <==> NothingUncovered(src.f, Capped(v.page), src.cfg.patterns, cfg.patterns)
  {
    var changed, raw := src.(cfg := cfg), Stored(NewState(src.f, src.cfg, v.page));
    RemaskedState(src, cfg, v.page);
    KeptHtmlIsThePage(src, v.page);
    UncoveredIff(src.f, Capped(v.page), src.cfg.patterns, cfg.patterns);
    SilentIffHashesAgree(changed, raw, v);
    var stored := StoredKeys(Compared(changed, raw).value);
    if NothingUncovered(src.f, Capped(v.page), src.cfg.patterns, cfg.patterns) {
      RemaskMatchesPageIff(src.f, Capped(v.page), src.cfg.patterns, cfg.patterns);
      assert StoredKeys(ToStateBlocks(Comparable(src.f, cfg, v.page))) == KeysOf(changed, v.page);
    } else {
      UncoveredAreNotEmpty(src.f, Capped(v.page), src.cfg.patterns, cfg.patterns);
      GrownTextDiffers(KeysOf(changed, v.page), stored, Uncovered(src, cfg, v.page));
    }
  }

  lemma GrownBag(before: multiset<Key>, after: multiset<Key>, grown: seq<Key>)
    requires after == before + multiset(grown) && grown != []
    ensures !(after <= before) && after - before == multiset(grown) && before - after == multiset{}
  {
    assert grown[0] in multiset(grown);
    assert after[grown[0]] > before[grown[0]];
  }

  /** The diff against the remasked blocks is what got uncovered, and nothing else. */
  lemma UncoveredIsTheDiff(src: Source, cfg: Config, v: Visit)
    requires PatternsChange(src, cfg, v.page) && KeepsHtml(src, v.page)
    requires !NothingUncovered(src.f, Capped(v.page), src.cfg.patterns, cfg.patterns)
    ensures
      var changed, raw := src.(cfg := cfg), Stored(NewState(src.f, src.cfg, v.page));
      && Compared(changed, raw).Some?
      && ContentHash(StoredKeys(Compared(changed, raw).value)) != ContentHash(KeysOf(changed, v.page))
      && multiset(Keys(DiffOf(changed, raw, v).added)) == multiset(Uncovered(src, cfg, v.page))
      && DiffOf(changed, raw, v).added != [] && DiffOf(changed, raw, v).removed == []
  {
    var changed, raw := src.(cfg := cfg), Stored(NewState(src.f, src.cfg, v.page));
    RemaskedState(src, cfg, v.page);
    UncoveredIff(src.f, Capped(v.page), src.cfg.patterns, cfg.patterns);
    UncoveredAreNotEmpty(src.f, Capped(v.page), src.cfg.patterns, cfg.patterns);
    var stored := Compared(changed, raw).value;
    var before, after := multiset(StoredKeys(stored)), multiset(KeysOf(changed, v.page));
    GrownTextDiffers(KeysOf(changed, v.page), StoredKeys(stored), Uncovered(src, cfg, v.page));
    GrownBag(before, after, Uncovered(src, cfg, v.page));
    DiffIsBagDifference(src.f, stored, Comparable(src.f, cfg, v.page));
    NothingLostIff(DiffOf(changed, raw, v).added, after, before);
    NothingLostIff(DiffOf(changed, raw, v).removed, before, after);
  }

  /**
   * Otherwise the state is written anew. If the saved HTML had been dropped that is all; if not, one
   * item reports exactly the uncovered blocks as added, although the page is the same, unless their
   * text is under the threshold.
   */
  lemma PatternChangeReportsUncovered(src: Source, cfg: Config, v: Visit)
    requires PatternsChange(src, cfg, v.page)
    requires KeepsHtml(src, v.page) ==> !NothingUncovered(src.f, Capped(v.page), src.cfg.patterns, cfg.patterns)
    ensures
      var changed, raw := src.(cfg := cfg), Stored(NewState(src.f, src.cfg, v.page));
      var r := Crawl(changed, raw, v);
      && r.Ok? && r.value.state == Some(NewState(src.f, cfg, v.page))
      && (r.value.items == [] <==> !KeepsHtml(src, v.page) || Under(changed, raw, v))
      && forall i :: i in r.value.items ==>
          && |r.value.items| == 1 && !i.initial && i.removed == []
          && multiset(Keys(i.added)) == multiset(Uncovered(src, cfg, v.page))
  {
    if KeepsHtml(src, v.page) {
      UncoveredIsTheDiff(src, cfg, v);
    } else {
      DroppedHtmlCannotServe(src, cfg, v.page);
    }
  }

  const HALF_HIDDEN := [Paragraph("<p>x</p>", "x"), Paragraph("<p>ad</p>", "ad")]

  /** Dropping a pattern brings a paragraph to light that was on the page all along. */
  lemma HiddenParagraphIsReported(src: Source, cfg: Config, now: Time)
    requires src.cfg.patterns == ["ad"] && cfg.patterns == [] && cfg.minChangeChars <= 0 && src.f.strip("") == ""
    requires src.f.mask("<p>x</p>", ["ad"]) == "<p>x</p>" && src.f.mask("<p>ad</p>", ["ad"]) == "<p></p>"
    requires src.f.mask("<p>x</p>", []) == "<p>x</p>" && src.f.mask("<p>ad</p>", []) == "<p>ad</p>"
    requires src.f.strip("<p>x</p>") == "x" && src.f.strip("<p></p>") == "" && src.f.strip("<p>ad</p>") == "ad"
    requires src.f.size(WholeState(src.f, src.cfg, HALF_HIDDEN)) <= MAX_STATE_BYTES
    ensures
      var v := Visit(HALF_HIDDEN, now, EntryAndState);
      var r := Crawl(src.(cfg := cfg), Stored(NewState(src.f, src.cfg, HALF_HIDDEN)), v);
      r.Ok? && |r.value.items| == 1 && multiset(Keys(r.value.items[0].added)) == multiset{"<p>ad</p>"}
  {
    var x, ad := HALF_HIDDEN[0], HALF_HIDDEN[1];
    var v := Visit(HALF_HIDDEN, now, EntryAndState);
    assert HALF_HIDDEN[..1] == [x] && [x][..0] == [];
    SavedHaveHtmlIff(src.f, HALF_HIDDEN, ["ad"]);
    assert Shows(src.f, ad.html, []) && !Shows(src.f, ad.html, ["ad"]);
    assert !NothingUncovered(src.f, HALF_HIDDEN, ["ad"], []);
    assert UncoveredKeys(src.f, [x], ["ad"], []) == [];
    assert Uncovered(src, cfg, HALF_HIDDEN) == ["<p>ad</p>"];
    PatternChangeReportsUncovered(src, cfg, v);
    var r := Crawl(src.(cfg := cfg), Stored(NewState(src.f, src.cfg, HALF_HIDDEN)), v);
    assert r.value.items[0] in r.value.items;
  }
}
