/**
 * `Extract` of internal/extract/pagewatch/pagewatch.go as one step of a state machine over page fetches.
 *
 * Main results: one crawl reports exactly the bag difference of the saved blocks and the page, or
 * nothing; and the state it writes is what the next crawl compares with.
 */
module PagewatchExtract {
  import opened Wrappers
  import opened Positions
  import opened BlockDiff
  import opened BlockDiffLoops
  import opened PagewatchState

  const MAX_BLOCKS := 5000

  datatype WatchMode = Additions | Changes

  datatype GuidMode = ContentGuids | RevisionGuids

  datatype Config = Config(patterns: Patterns, minChangeChars: int, watchMode: WatchMode, guidMode: GuidMode)

  type Time = int

  datatype Guid = OfContent(hash: Digest) | OfRevision(link: string, now: Time)

  datatype Item = Item(guid: Guid, initial: bool, added: seq<Block>, removed: seq<Block>, now: Time)

  /** The feed's items, and the state to persist; no state means the stored one is left alone. */
  datatype Outcome = Outcome(items: seq<Item>, state: Option<State>)

  datatype Failure = NoContentBlocks

  // ---------------------------------------------------------------- the diff of two pages

  datatype Diff = Diff(added: seq<Block>, removed: seq<Block>)

  /** A removed block comes back from the state, so its text is derived from the saved HTML. */
  function Restored(f: Foreign, b: StateBlock): Block {
    Block(b.html, f.strip(b.html), b.key, b.anchor, b.head)
  }

  function BlocksAt(blocks: seq<Block>, idx: seq<nat>): seq<Block>
    requires Within(idx, 0, |blocks|)
  {
    seq(|idx|, p requires 0 <= p < |idx| => blocks[idx[p]])
  }

  function RestoredAt(f: Foreign, blocks: seq<StateBlock>, idx: seq<nat>): seq<Block>
    requires Within(idx, 0, |blocks|)
  {
    seq(|idx|, p requires 0 <= p < |idx| => Restored(f, blocks[idx[p]]))
  }

  function BlockDiffOf(f: Foreign, prev: seq<StateBlock>, curr: seq<Block>): Diff {
    BranchesAgree(StoredKeys(prev), Keys(curr));
    var d := DiffIndices(StoredKeys(prev), Keys(curr));
    Diff(BlocksAt(curr, d.added), RestoredAt(f, prev, d.removed))
  }

  lemma AddedKeys(blocks: seq<Block>, idx: seq<nat>)
    requires Within(idx, 0, |blocks|)
    ensures Keys(BlocksAt(blocks, idx)) == KeysAt(Keys(blocks), idx)
  {
  }

  lemma RemovedKeys(f: Foreign, blocks: seq<StateBlock>, idx: seq<nat>)
    requires Within(idx, 0, |blocks|)
    ensures Keys(RestoredAt(f, blocks, idx)) == KeysAt(StoredKeys(blocks), idx)
  {
  }

  /** The reported blocks carry exactly the keys gained and the keys lost. */
  lemma DiffIsBagDifference(f: Foreign, prev: seq<StateBlock>, curr: seq<Block>)
    ensures
      var d := BlockDiffOf(f, prev, curr);
      && multiset(Keys(d.added)) == multiset(Keys(curr)) - multiset(StoredKeys(prev))
      && multiset(Keys(d.removed)) == multiset(StoredKeys(prev)) - multiset(Keys(curr))
  {
    var p, c := StoredKeys(prev), Keys(curr);
    BranchesAgree(p, c);
    AddedKeys(curr, DiffIndices(p, c).added);
    RemovedKeys(f, prev, DiffIndices(p, c).removed);
  }

  /**
   * An added block is a block of the page as it stands there; a removed one is a block of the state,
   * its text read off the saved HTML. Both come in document order.
   */
  lemma DiffBlocksAre(f: Foreign, prev: seq<StateBlock>, curr: seq<Block>) returns (gained: seq<nat>, lost: seq<nat>)
    ensures Within(gained, 0, |curr|) && Within(lost, 0, |prev|)
    ensures
      var d := BlockDiffOf(f, prev, curr);
      && |d.added| == |gained| && (forall p :: 0 <= p < |gained| ==> d.added[p] == curr[gained[p]])
      && |d.removed| == |lost| && (forall p :: 0 <= p < |lost| ==>
            && d.removed[p].html == prev[lost[p]].html && d.removed[p].text == f.strip(prev[lost[p]].html)
            && d.removed[p].key == prev[lost[p]].key && d.removed[p].anchor == prev[lost[p]].anchor
            && d.removed[p].head == prev[lost[p]].head)
  {
    BranchesAgree(StoredKeys(prev), Keys(curr));
    var d := DiffIndices(StoredKeys(prev), Keys(curr));
    gained, lost := d.added, d.removed;
  }

  method CollectAdded(curr: seq<Block>, idx: seq<nat>) returns (added: seq<Block>)
    requires Within(idx, 0, |curr|)
    ensures added == BlocksAt(curr, idx)
  {
    added := [];
    for i := 0 to |idx|
      invariant |added| == i && forall p :: 0 <= p < i ==> added[p] == curr[idx[p]]
    {
      added := added + [curr[idx[i]]];
    }
  }

  method CollectRemoved(f: Foreign, prev: seq<StateBlock>, idx: seq<nat>) returns (removed: seq<Block>)
    requires Within(idx, 0, |prev|)
    ensures removed == RestoredAt(f, prev, idx)
  {
    removed := [];
    for i := 0 to |idx|
      invariant |removed| == i && forall p :: 0 <= p < i ==> removed[p] == Restored(f, prev[idx[p]])
    {
      removed := removed + [Restored(f, prev[idx[i]])];
    }
  }

  method ComputeDiff(f: Foreign, prev: seq<StateBlock>, curr: seq<Block>) returns (d: Diff)
    ensures d == BlockDiffOf(f, prev, curr)
  {
    var at := ComputeDiffIdx(StoredKeys(prev), Keys(curr));
    var added := CollectAdded(curr, at.added);
    var removed := CollectRemoved(f, prev, at.removed);
    d := Diff(added, removed);
  }

  function TextLength(blocks: seq<Block>): nat {
    if blocks == [] then 0 else TextLength(blocks[..|blocks| - 1]) + |blocks[|blocks| - 1].text|
  }

  /** The texts of some blocks, one after the other. */
  function AllText(blocks: seq<Block>): string {
    if blocks == [] then "" else blocks[0].text + AllText(blocks[1..])
  }

  lemma {:induction false} AllTextSnoc(blocks: seq<Block>)
    requires blocks != []
    ensures AllText(blocks) == AllText(blocks[..|blocks| - 1]) + blocks[|blocks| - 1].text
  {
    if |blocks| > 1 {
      var rest := blocks[1..];
      AllTextSnoc(rest);
      assert blocks[..|blocks| - 1][1..] == rest[..|rest| - 1];
    }
  }

  lemma {:induction false} TextIsMeasured(blocks: seq<Block>)
    ensures TextLength(blocks) == |AllText(blocks)|
  {
    if blocks != [] {
      AllTextSnoc(blocks);
      TextIsMeasured(blocks[..|blocks| - 1]);
    }
  }

  function ChangeChars(d: Diff): nat { TextLength(d.added) + TextLength(d.removed) }

  /** The size of a change, which the threshold is held against, is the length of all its text. */
  lemma ChangeIsMeasured(d: Diff)
    ensures ChangeChars(d) == |AllText(d.added) + AllText(d.removed)|
    ensures forall cfg: Config :: TooSmall(cfg, d) <==>
      0 < cfg.minChangeChars && |AllText(d.added) + AllText(d.removed)| < cfg.minChangeChars
  {
    TextIsMeasured(d.added);
    TextIsMeasured(d.removed);
  }

  method AddTextLengths(start: nat, blocks: seq<Block>) returns (n: nat)
    ensures n == start + TextLength(blocks)
  {
    n := start;
    for i := 0 to |blocks|
      invariant n == start + TextLength(blocks[..i])
    {
      assert blocks[..i + 1][..i] == blocks[..i];
      n := n + |blocks[i].text|;
    }
    assert blocks[..|blocks|] == blocks;
  }

  method ChangeCharCount(d: Diff) returns (n: nat)
    ensures n == ChangeChars(d)
  {
    n := AddTextLengths(0, d.added);
    n := AddTextLengths(n, d.removed);
  }

  // ---------------------------------------------------------------- one crawl

  function Capped(blocks: seq<Block>): seq<Block> {
    if |blocks| > MAX_BLOCKS then blocks[..MAX_BLOCKS] else blocks
  }

  /** The blocks that take part in comparisons. */
  function Comparable(f: Foreign, cfg: Config, page: seq<Block>): seq<Block> {
    MaskAndFilter(f, Capped(page), cfg.patterns)
  }

  function PageKeys(f: Foreign, cfg: Config, page: seq<Block>): seq<Key> {
    Keys(Comparable(f, cfg, page))
  }

  /** The state to save, before anything is given up for its size. */
  function WholeState(f: Foreign, cfg: Config, page: seq<Block>): State {
    var comparable := Comparable(f, cfg, page);
    State(CURRENT_STATE_VERSION, CURRENT_RULES_VERSION, ConfigHash(cfg.patterns),
          ContentHash(Keys(comparable)), |page| > MAX_BLOCKS, ToStateBlocks(comparable))
  }

  function NewState(f: Foreign, cfg: Config, page: seq<Block>): State { Marshal(f, WholeState(f, cfg, page)) }

  function EntryGuid(cfg: Config, link: string, now: Time, hash: Digest): Guid {
    if cfg.guidMode == RevisionGuids then OfRevision(link, now) else OfContent(hash)
  }

  /** What the fetched page is compared with, if the stored state can still serve. */
  function Baseline(f: Foreign, cfg: Config, raw: Raw): Option<seq<StateBlock>> {
    match ParseState(raw)
    case None => None
    case Some(st) =>
      if st.rulesVersion != CURRENT_RULES_VERSION then None
      else if st.configHash == ConfigHash(cfg.patterns) then Some(st.blocks)
      else Remask(f, st.blocks, cfg.patterns)
  }

  /** In additions mode what disappeared is not reported. */
  function Reportable(cfg: Config, d: Diff): Diff {
    if cfg.watchMode == Additions then d.(removed := []) else d
  }

  predicate TooSmall(cfg: Config, d: Diff) {
    cfg.minChangeChars > 0 && ChangeChars(d) < cfg.minChangeChars
  }

  /** What is reported once the content hash has moved. */
  function ChangeItems(f: Foreign, cfg: Config, guid: Guid, prev: seq<StateBlock>, curr: seq<Block>, now: Time)
    : seq<Item>
  {
    var d := BlockDiffOf(f, prev, curr);
    var shown := Reportable(cfg, d);
    if TooSmall(cfg, d) || (shown.added == [] && shown.removed == []) then []
    else [Item(guid, false, shown.added, shown.removed, now)]
  }

  function Extract(f: Foreign, cfg: Config, link: string, raw: Raw, page: seq<Block>, now: Time)
    : Result<Outcome, Failure>
  {
    if page == [] then Err(NoContentBlocks)
    else
      var comparable := Comparable(f, cfg, page);
      var hash := ContentHash(Keys(comparable));
      var state := Some(NewState(f, cfg, page));
      var guid := EntryGuid(cfg, link, now, hash);
      if raw.Missing? then Ok(Outcome([Item(guid, true, [], [], now)], state))
      else
        match Baseline(f, cfg, raw)
        case None => Ok(Outcome([], state))
        case Some(prev) =>
          if ContentHash(StoredKeys(prev)) == hash then Ok(Outcome([], None))
          else Ok(Outcome(ChangeItems(f, cfg, guid, prev, comparable, now), state))
  }

  /** The same decisions in the order the program takes them. */
  method ExtractPage(f: Foreign, cfg: Config, link: string, raw: Raw, page: seq<Block>, now: Time)
    returns (r: Result<Outcome, Failure>)
    ensures r == Extract(f, cfg, link, raw, page, now)
  {
    var blocks, truncated := page, false;
    if |blocks| > MAX_BLOCKS {
      blocks, truncated := blocks[..MAX_BLOCKS], true;
    }
    if blocks == [] {
      return Err(NoContentBlocks);
    }
    var comparable := MaskAndFilterLoop(f, blocks, cfg.patterns);
    var hash := ContentHash(Keys(comparable));
    var saved := BlocksToStateBlocks(comparable);
    var state := MarshalLoop(f, State(CURRENT_STATE_VERSION, CURRENT_RULES_VERSION, ConfigHash(cfg.patterns),
                                      hash, truncated, saved));
    var guid := EntryGuid(cfg, link, now, hash);
    if raw.Missing? {
      return Ok(Outcome([Item(guid, true, [], [], now)], Some(state)));
    }
    var parsed := ParseState(raw);
    if parsed.None? || parsed.value.rulesVersion != CURRENT_RULES_VERSION {
      return Ok(Outcome([], Some(state)));
    }
    var prev := parsed.value.blocks;
    if parsed.value.configHash != ConfigHash(cfg.patterns) {
      var recomputed := RecomputeStateBlocks(f, prev, cfg.patterns);
      if recomputed.None? {
        return Ok(Outcome([], Some(state)));
      }
      prev := recomputed.value;
    }
    if ContentHash(StoredKeys(prev)) == hash {
      return Ok(Outcome([], None));
    }
    var d := ComputeDiff(f, prev, comparable);
    if cfg.minChangeChars > 0 {
      var n := ChangeCharCount(d);
      if n < cfg.minChangeChars {
        return Ok(Outcome([], Some(state)));
      }
    }
    if cfg.watchMode == Additions {
      d := d.(removed := []);
    }
    if d.added == [] && d.removed == [] {
      return Ok(Outcome([], Some(state)));
    }
    r := Ok(Outcome([Item(guid, false, d.added, d.removed, now)], Some(state)));
  }

  /** A new state is what the next crawl will be compared with, HTML dropped or not. */
  lemma NewStateIsBaseline(f: Foreign, cfg: Config, page: seq<Block>)
    ensures
      var b := Baseline(f, cfg, Stored(NewState(f, cfg, page)));
      b.Some? && StoredKeys(b.value) == PageKeys(f, cfg, page)
  {
    var blocks := ToStateBlocks(Comparable(f, cfg, page));
    assert StoredKeys(blocks) == PageKeys(f, cfg, page);
    KeysOutliveHtml(f, WholeState(f, cfg, page));
  }

  lemma NothingLostIff(blocks: seq<Block>, whole: multiset<Key>, part: multiset<Key>)
    requires multiset(Keys(blocks)) == whole - part
    ensures blocks == [] <==> whole <= part
  {
    if blocks == [] {
      forall k ensures whole[k] <= part[k] {
        assert (whole - part)[k] == 0;
      }
    } else {
      assert Keys(blocks)[0] in multiset(Keys(blocks));
    }
  }

  /** Something to report: in additions mode a key gained, otherwise any difference. */
  ghost predicate WorthReporting(cfg: Config, before: multiset<Key>, after: multiset<Key>) {
    if cfg.watchMode == Changes then before != after else !(after <= before)
  }

  lemma ReportableIsTheDifference(f: Foreign, cfg: Config, prev: seq<StateBlock>, curr: seq<Block>)
    ensures
      var shown := Reportable(cfg, BlockDiffOf(f, prev, curr));
      var before, after := multiset(StoredKeys(prev)), multiset(Keys(curr));
      && multiset(Keys(shown.added)) == after - before
      && multiset(Keys(shown.removed)) == (if cfg.watchMode == Changes then before - after else multiset{})
      && (shown.added == [] && shown.removed == [] <==> !WorthReporting(cfg, before, after))
  {
    var d := BlockDiffOf(f, prev, curr);
    var before, after := multiset(StoredKeys(prev)), multiset(Keys(curr));
    DiffIsBagDifference(f, prev, curr);
    NothingLostIff(d.added, after, before);
    NothingLostIff(d.removed, before, after);
  }

  /** At most one item, no first-run notice, and in it exactly the bag difference. */
  ghost predicate Reports(cfg: Config, before: multiset<Key>, after: multiset<Key>, items: seq<Item>) {
    && |items| <= 1
    && forall i :: i in items ==>
        && !i.initial
        && multiset(Keys(i.added)) == after - before
        && multiset(Keys(i.removed)) == if cfg.watchMode == Changes then before - after else multiset{}
  }

  lemma ChangeItemsReport(f: Foreign, cfg: Config, guid: Guid, prev: seq<StateBlock>, curr: seq<Block>, now: Time)
    ensures
      var items := ChangeItems(f, cfg, guid, prev, curr, now);
      var before, after := multiset(StoredKeys(prev)), multiset(Keys(curr));
      && Reports(cfg, before, after, items)
      && (items != [] <==> !TooSmall(cfg, BlockDiffOf(f, prev, curr)) && WorthReporting(cfg, before, after))
  {
    ReportableIsTheDifference(f, cfg, prev, curr);
  }

  lemma ComparedOutcome(f: Foreign, cfg: Config, link: string, raw: Raw, page: seq<Block>, now: Time)
    requires page != [] && Baseline(f, cfg, raw).Some?
    ensures
      var prev, curr := Baseline(f, cfg, raw).value, Comparable(f, cfg, page);
      var hash := ContentHash(Keys(curr));
      Extract(f, cfg, link, raw, page, now).value.items ==
      if ContentHash(StoredKeys(prev)) == hash then []
      else ChangeItems(f, cfg, EntryGuid(cfg, link, now, hash), prev, curr, now)
  {
  }

  /**
   * A crawl reports an item exactly when the content hash moved, a reportable key was gained or
   * lost, and enough text with it.
   */
  lemma ItemIffKeysChanged(f: Foreign, cfg: Config, link: string, raw: Raw, page: seq<Block>, now: Time)
    requires page != [] && Baseline(f, cfg, raw).Some?
    ensures
      var prev := Baseline(f, cfg, raw).value;
      var before, after := StoredKeys(prev), PageKeys(f, cfg, page);
      var items := Extract(f, cfg, link, raw, page, now).value.items;
      && Reports(cfg, multiset(before), multiset(after), items)
      && (items != [] <==>
          && ContentHash(before) != ContentHash(after)
          && !TooSmall(cfg, BlockDiffOf(f, prev, Comparable(f, cfg, page)))
          && WorthReporting(cfg, multiset(before), multiset(after)))
  {
    var curr := Comparable(f, cfg, page);
    var guid := EntryGuid(cfg, link, now, ContentHash(Keys(curr)));
    ComparedOutcome(f, cfg, link, raw, page, now);
    ChangeItemsReport(f, cfg, guid, Baseline(f, cfg, raw).value, curr, now);
  }

  /** The state a crawl of this page saves. */
  ghost predicate SavesPage(f: Foreign, cfg: Config, page: seq<Block>, s: State) {
    && s.version == 1 && s.rulesVersion == 1
    && s.configHash == PatternDigest(cfg.patterns)
    && s.contentHash == TextDigest(Join(PageKeys(f, cfg, page)))
    && s.truncated == (|page| > 5000)
    && StoredKeys(s.blocks) == PageKeys(f, cfg, page)
  }

  lemma NewStateSaves(f: Foreign, cfg: Config, page: seq<Block>)
    ensures SavesPage(f, cfg, page, NewState(f, cfg, page))
  {
    NewStateIsBaseline(f, cfg, page);
    KeysOutliveHtml(f, WholeState(f, cfg, page));
  }

  /**
   * A page without blocks is an error. The first crawl announces the page once and shows no
   * change; a state that cannot be read, or was written under other rules, is replaced in silence;
   * and the state is written unless nothing changed under the same patterns.
   */
  lemma EveryCrawlDoes(f: Foreign, cfg: Config, link: string, raw: Raw, page: seq<Block>, now: Time)
    ensures
      var r := Extract(f, cfg, link, raw, page, now);
      && (r.Err? <==> page == [])
      && (r.Ok? && r.value.state.Some? ==> SavesPage(f, cfg, page, r.value.state.value))
      && (r.Ok? ==> forall i :: i in r.value.items ==> i.now == now && (i.initial <==> raw.Missing?))
      && (r.Ok? && raw.Missing? ==>
            && |r.value.items| == 1 && r.value.items[0].added == [] && r.value.items[0].removed == []
            && r.value.state.Some?)
      && (r.Ok? && (raw.Corrupt? || (raw.Stored? && (raw.state.version != 1 || raw.state.rulesVersion != 1))) ==>
            r.value.items == [] && r.value.state.Some?)
      && (r.Ok? && raw.Stored? && raw.state.version == 1 && raw.state.rulesVersion == 1
          && raw.state.configHash == PatternDigest(cfg.patterns) ==>
            (r.value.state.None? <==> Join(StoredKeys(raw.state.blocks)) == Join(PageKeys(f, cfg, page))))
  {
    NewStateSaves(f, cfg, page);
  }
}
