/**
 * What a reader of a watched page learns from its items. A change whose text is under
 * `min_change_chars` is saved but not reported: the crawl swallows it. An item whose state write
 * fails afterwards is told in vain: the next crawl compares with the old state once more. What the
 * items tell, what is swallowed and what is told in vain are accounted for separately.
 */
module PagewatchReplay {
  import opened Wrappers
  import opened Positions
  import opened PagewatchState
  import opened PagewatchExtract
  import opened PagewatchRuns

  function Bag(src: Source, raw: Raw): multiset<Key>
    requires Compared(src, raw).Some?
  {
    multiset(StoredKeys(Compared(src, raw).value))
  }

  predicate HashMoved(src: Source, raw: Raw, v: Visit)
    requires Compared(src, raw).Some?
  {
    ContentHash(StoredKeys(Compared(src, raw).value)) != ContentHash(KeysOf(src, v.page))
  }

  /** The crawl finds something to report, drops it for its size, and lets the state move on. */
  ghost predicate Swallows(src: Source, raw: Raw, v: Visit) {
    && v.page != [] && Under(src, raw, v) && HashMoved(src, raw, v)
    && WorthReporting(src.cfg, Bag(src, raw), multiset(KeysOf(src, v.page)))
  }

  ghost predicate NeverSwallows(src: Source, raw: Raw, visits: seq<Visit>) {
    forall i :: 0 <= i < |visits| && visits[i].Saved() ==> !Swallows(src, Run(src, raw, visits[..i]), visits[i])
  }

  lemma NoThresholdSwallowsNothing(src: Source, raw: Raw, visits: seq<Visit>)
    requires src.cfg.minChangeChars <= 0
    ensures NeverSwallows(src, raw, visits)
  {
  }

  // ---------------------------------------------------------------- one crawl

  /** A saved crawl of a page: nothing moved, or the page becomes what is compared with next. */
  lemma SavedCrawlMoves(src: Source, raw: Raw, v: Visit)
    requires Compared(src, raw).Some? && v.Saved() && v.page != []
    ensures
      var next := After(src, raw, v);
      if !HashMoved(src, raw, v) then next == raw else
        Compared(src, next).Some? && Bag(src, next) == multiset(KeysOf(src, v.page))
  {
    NewStateIsBaseline(src.f, src.cfg, v.page);
  }

  lemma ComparedStays(src: Source, raw: Raw, v: Visit)
    requires Compared(src, raw).Some?
    ensures Compared(src, After(src, raw, v)).Some?
  {
    NewStateIsBaseline(src.f, src.cfg, v.page);
  }

  lemma {:induction false} ComparedThroughout(src: Source, raw: Raw, visits: seq<Visit>)
    requires Compared(src, raw).Some?
    ensures Compared(src, Run(src, raw, visits)).Some?
  {
    if visits != [] {
      var n := |visits| - 1;
      ComparedThroughout(src, raw, visits[..n]);
      ComparedStays(src, Run(src, raw, visits[..n]), visits[n]);
    }
  }

  /** Keys that came, and keys that went. */
  datatype Moves = Moves(gained: multiset<Key>, lost: multiset<Key>)

  const NONE := Moves(multiset{}, multiset{})

  function Plus(a: Moves, b: Moves): Moves { Moves(a.gained + b.gained, a.lost + b.lost) }

  function Between(before: multiset<Key>, after: multiset<Key>): Moves { Moves(after - before, before - after) }

  function Told(r: Result<Outcome, Failure>): Moves {
    if r.Err? || r.value.items == [] then NONE
    else Moves(multiset(Keys(r.value.items[0].added)), multiset(Keys(r.value.items[0].removed)))
  }

  ghost function SwallowedBy(src: Source, raw: Raw, v: Visit): Moves {
    if Swallows(src, raw, v) then Between(Bag(src, raw), multiset(KeysOf(src, v.page))) else NONE
  }

  /** All that the delivered items told, each delivery counted. */
  function Reported(src: Source, raw: Raw, visits: seq<Visit>): Moves {
    if visits == [] then NONE
    else
      var n := |visits| - 1;
      Plus(Reported(src, raw, visits[..n]),
           if visits[n].Delivered() then Told(Crawl(src, Run(src, raw, visits[..n]), visits[n])) else NONE)
  }

  /** What a crawl tells before its state write fails. */
  function VainlyTold(src: Source, raw: Raw, v: Visit): Moves {
    if v.Delivered() && !v.Saved() then Told(Crawl(src, raw, v)) else NONE
  }

  /** All that was told by crawls whose state was lost. */
  function ToldInVain(src: Source, raw: Raw, visits: seq<Visit>): Moves {
    if visits == [] then NONE
    else
      var n := |visits| - 1;
      Plus(ToldInVain(src, raw, visits[..n]), VainlyTold(src, Run(src, raw, visits[..n]), visits[n]))
  }

  /** Every crawl that lost its state had nothing to tell. */
  ghost predicate NothingInVain(src: Source, raw: Raw, visits: seq<Visit>) {
    forall i :: 0 <= i < |visits| ==> VainlyTold(src, Run(src, raw, visits[..i]), visits[i]) == NONE
  }

  /** All that saved crawls let pass for its size. */
  ghost function Swallowed(src: Source, raw: Raw, visits: seq<Visit>): Moves {
    if visits == [] then NONE
    else
      var n := |visits| - 1;
      Plus(Swallowed(src, raw, visits[..n]),
           if visits[n].Saved() then SwallowedBy(src, Run(src, raw, visits[..n]), visits[n]) else NONE)
  }

  lemma BetweenAccounts(before: multiset<Key>, after: multiset<Key>)
    ensures after + Between(before, after).lost == before + Between(before, after).gained
    ensures before - (before - after) + (after - before) == after
  {
  }

  /** What a crawl that is worth an item tells, and what it swallows otherwise. */
  lemma ToldOrSwallowed(src: Source, raw: Raw, v: Visit)
    requires Compared(src, raw).Some? && v.page != []
    ensures
      var before, after := Bag(src, raw), multiset(KeysOf(src, v.page));
      var told, swallowed := Told(Crawl(src, raw, v)), SwallowedBy(src, raw, v);
      var worth := HashMoved(src, raw, v) && WorthReporting(src.cfg, before, after);
      && (told != NONE ==> swallowed == NONE && worth)
      && (swallowed == (if worth && Under(src, raw, v) then Between(before, after) else NONE))
      && (told.gained == if worth && !Under(src, raw, v) then after - before else multiset{})
      && (told.lost ==
          if worth && !Under(src, raw, v) && src.cfg.watchMode == Changes then before - after else multiset{})
  {
    ItemIffKeysChanged(src.f, src.cfg, src.link, raw, v.page, v.now);
    var items := Crawl(src, raw, v).value.items;
    if items != [] { assert items[0] in items; }
  }

  /** One step of the account. */
  lemma CrawlAccount(src: Source, raw: Raw, v: Visit)
    requires Compared(src, raw).Some? && v.Saved()
    ensures
      var next := After(src, raw, v);
      var told, swallowed := Told(Crawl(src, raw, v)), SwallowedBy(src, raw, v);
      && Compared(src, next).Some?
      && (src.cfg.watchMode == Changes ==>
          Bag(src, next) + told.lost + swallowed.lost == Bag(src, raw) + told.gained + swallowed.gained)
      && (src.cfg.watchMode == Additions ==>
          told.lost == multiset{} && Bag(src, next) <= Bag(src, raw) + told.gained + swallowed.gained)
  {
    if v.page != [] {
      ToldOrSwallowed(src, raw, v);
      SavedCrawlMoves(src, raw, v);
      StepAccount(src.cfg.watchMode, Bag(src, raw), multiset(KeysOf(src, v.page)), Bag(src, After(src, raw, v)),
                  Told(Crawl(src, raw, v)), SwallowedBy(src, raw, v), HashMoved(src, raw, v), Under(src, raw, v));
    } else {
      assert Crawl(src, raw, v).Err?;
    }
  }

  /** The same in terms of bags alone. */
  lemma StepAccount(mode: WatchMode, before: multiset<Key>, page: multiset<Key>, next: multiset<Key>, told: Moves,
                    swallowed: Moves, moved: bool, under: bool)
    requires next == if moved then page else before
    requires
      var worth := moved && if mode == Changes then before != page else !(page <= before);
      && swallowed == (if worth && under then Between(before, page) else NONE)
      && told.gained == (if worth && !under then page - before else multiset{})
      && told.lost == (if worth && !under && mode == Changes then before - page else multiset{})
    ensures mode == Changes ==> next + told.lost + swallowed.lost == before + told.gained + swallowed.gained
    ensures mode == Additions ==> told.lost == multiset{} && next <= before + told.gained + swallowed.gained
  {
    BetweenAccounts(before, page);
  }

  // ---------------------------------------------------------------- the account of a run

  lemma NothingMore(m: Moves)
    ensures Plus(m, NONE) == m
  {
  }

  lemma AddUp(b0: multiset<Key>, b1: multiset<Key>, b2: multiset<Key>, r: Moves, s: Moves, r': Moves, s': Moves)
    requires b1 + r.lost + s.lost == b0 + r.gained + s.gained
    requires b2 + r'.lost + s'.lost == b1 + r'.gained + s'.gained
    ensures b2 + Plus(r, r').lost + Plus(s, s').lost == b0 + Plus(r, r').gained + Plus(s, s').gained
  {
    forall k: Key
      ensures (b2 + Plus(r, r').lost + Plus(s, s').lost)[k] == (b0 + Plus(r, r').gained + Plus(s, s').gained)[k]
    {
      assert (b1 + r.lost + s.lost)[k] == (b0 + r.gained + s.gained)[k];
      assert (b2 + r'.lost + s'.lost)[k] == (b1 + r'.gained + s'.gained)[k];
    }
  }

  /** What happened the other way round. */
  function Reverse(m: Moves): Moves { Moves(m.lost, m.gained) }

  /** What is missing from the items after some crawls: what was swallowed, less what was told in vain. */
  ghost function Untold(src: Source, raw: Raw, visits: seq<Visit>): Moves {
    Plus(Swallowed(src, raw, visits), Reverse(ToldInVain(src, raw, visits)))
  }

  lemma Regroup(a: Moves, b: Moves, c: Moves, d: Moves)
    ensures Plus(Plus(a, b), Reverse(Plus(c, d))) == Plus(Plus(a, Reverse(c)), Plus(b, Reverse(d)))
  {
  }

  /** One step of the account, whatever was written. */
  lemma VisitAccount(src: Source, raw: Raw, v: Visit)
    requires Compared(src, raw).Some? && src.cfg.watchMode == Changes
    ensures
      var next := After(src, raw, v);
      var told := if v.Delivered() then Told(Crawl(src, raw, v)) else NONE;
      var swallowed := if v.Saved() then SwallowedBy(src, raw, v) else NONE;
      var untold := Plus(swallowed, Reverse(VainlyTold(src, raw, v)));
      && Compared(src, next).Some?
      && Bag(src, next) + told.lost + untold.lost == Bag(src, raw) + told.gained + untold.gained
  {
    if v.Saved() {
      CrawlAccount(src, raw, v);
      NothingMore(SwallowedBy(src, raw, v));
    }
  }

  lemma BalanceAt(end: multiset<Key>, start: multiset<Key>, r: Moves, s: Moves, k: Key)
    requires end + r.lost + s.lost == start + r.gained + s.gained
    ensures (end + r.lost)[k] + s.lost[k] == (start + r.gained)[k] + s.gained[k]
  {
    assert (end + r.lost + s.lost)[k] == (start + r.gained + s.gained)[k];
  }

  /** What was told balances alone exactly when what was left untold cancels out. */
  lemma Balance(end: multiset<Key>, start: multiset<Key>, r: Moves, s: Moves)
    requires end + r.lost + s.lost == start + r.gained + s.gained
    ensures end + r.lost == start + r.gained <==> s.gained == s.lost
  {
    forall k: Key ensures (end + r.lost)[k] == (start + r.gained)[k] <==> s.gained[k] == s.lost[k] {
      BalanceAt(end, start, r, s, k);
    }
  }

  lemma {:induction false} AccountWithUntold(src: Source, raw: Raw, visits: seq<Visit>)
    requires Compared(src, raw).Some? && src.cfg.watchMode == Changes
    ensures Compared(src, Run(src, raw, visits)).Some?
    ensures
      var told, untold := Reported(src, raw, visits), Untold(src, raw, visits);
      Bag(src, Run(src, raw, visits)) + told.lost + untold.lost == Bag(src, raw) + told.gained + untold.gained
  {
    if visits != [] {
      var n := |visits| - 1;
      var before, v := Run(src, raw, visits[..n]), visits[n];
      AccountWithUntold(src, raw, visits[..n]);
      VisitAccount(src, before, v);
      var told := if v.Delivered() then Told(Crawl(src, before, v)) else NONE;
      var swallowed := if v.Saved() then SwallowedBy(src, before, v) else NONE;
      var vain := VainlyTold(src, before, v);
      Regroup(Swallowed(src, raw, visits[..n]), swallowed, ToldInVain(src, raw, visits[..n]), vain);
      AddUp(Bag(src, raw), Bag(src, before), Bag(src, After(src, before, v)),
            Reported(src, raw, visits[..n]), Untold(src, raw, visits[..n]), told, Plus(swallowed, Reverse(vain)));
    }
  }

  /**
   * In changes mode, whatever the threshold and whichever writes fail: the bag compared with now is
   * the first one, with all that was told and swallowed booked to it and all that was told in vain
   * taken back. So the items alone are right exactly when the rest cancels out.
   */
  lemma AccountIsExact(src: Source, raw: Raw, visits: seq<Visit>)
    requires Compared(src, raw).Some? && src.cfg.watchMode == Changes
    ensures Compared(src, Run(src, raw, visits)).Some?
    ensures
      var start, end := Bag(src, raw), Bag(src, Run(src, raw, visits));
      var told, vain := Reported(src, raw, visits), ToldInVain(src, raw, visits);
      var swallowed := Swallowed(src, raw, visits);
      && end + told.lost + (swallowed.lost + vain.gained) == start + told.gained + (swallowed.gained + vain.lost)
      && (end + told.lost == start + told.gained <==> swallowed.gained + vain.lost == swallowed.lost + vain.gained)
  {
    AccountWithUntold(src, raw, visits);
    Balance(Bag(src, Run(src, raw, visits)), Bag(src, raw), Reported(src, raw, visits), Untold(src, raw, visits));
  }

  // ---------------------------------------------------------------- replaying the items

  /** What a reader who holds `shown` believes after one more crawl's items. */
  function Believe(shown: multiset<Key>, r: Result<Outcome, Failure>): multiset<Key> {
    shown - Told(r).lost + Told(r).gained
  }

  function Replay(src: Source, raw: Raw, visits: seq<Visit>, shown: multiset<Key>): multiset<Key> {
    if visits == [] then shown
    else
      var n := |visits| - 1;
      var before := Replay(src, raw, visits[..n], shown);
      if visits[n].Delivered() then Believe(before, Crawl(src, Run(src, raw, visits[..n]), visits[n])) else before
  }

  lemma ReplayUpTo(src: Source, raw: Raw, visits: seq<Visit>, i: nat, shown: multiset<Key>)
    requires i < |visits|
    ensures
      var before, so := Run(src, raw, visits[..i]), Replay(src, raw, visits[..i], shown);
      && Run(src, raw, visits[..i + 1]) == After(src, before, visits[i])
      && Replay(src, raw, visits[..i + 1], shown) ==
         if visits[i].Delivered() then Believe(so, Crawl(src, before, visits[i])) else so
  {
    assert visits[..i + 1][..i] == visits[..i];
  }

  lemma BeliefIsRightIff(before: multiset<Key>, page: multiset<Key>, next: multiset<Key>, told: Moves,
                         moved: bool, under: bool)
    requires next == if moved then page else before
    requires
      var worth := moved && before != page;
      && told.gained == (if worth && !under then page - before else multiset{})
      && told.lost == (if worth && !under then before - page else multiset{})
    ensures before - told.lost + told.gained == next <==> !(moved && before != page && under)
  {
    BetweenAccounts(before, page);
  }

  /** A reader who was right stays right after a saved crawl exactly when it swallows nothing. */
  lemma SavedBeliefIsRightIff(src: Source, raw: Raw, v: Visit)
    requires Compared(src, raw).Some? && v.Saved() && src.cfg.watchMode == Changes
    ensures
      var next := After(src, raw, v);
      && Compared(src, next).Some?
      && (Believe(Bag(src, raw), Crawl(src, raw, v)) == Bag(src, next) <==> !Swallows(src, raw, v))
  {
    if v.page != [] {
      ToldOrSwallowed(src, raw, v);
      SavedCrawlMoves(src, raw, v);
      BeliefIsRightIff(Bag(src, raw), multiset(KeysOf(src, v.page)), Bag(src, After(src, raw, v)),
                       Told(Crawl(src, raw, v)), HashMoved(src, raw, v), Under(src, raw, v));
    } else {
      assert Crawl(src, raw, v).Err?;
    }
  }

  /** What a crawl with something to tell tells. */
  lemma ToldChange(src: Source, raw: Raw, v: Visit)
    requires Compared(src, raw).Some? && src.cfg.watchMode == Changes && Told(Crawl(src, raw, v)) != NONE
    ensures v.page != [] && !Swallows(src, raw, v)
    ensures Told(Crawl(src, raw, v)) == Between(Bag(src, raw), multiset(KeysOf(src, v.page)))
  {
    if v.page != [] { ToldOrSwallowed(src, raw, v); }
  }

  lemma TellingMovesBelief(before: multiset<Key>, page: multiset<Key>)
    ensures
      before - Between(before, page).lost + Between(before, page).gained == before ==> Between(before, page) == NONE
  {
    BetweenAccounts(before, page);
  }

  /** After one whose state was lost, exactly when it had nothing to tell. */
  lemma VainBeliefIsRightIff(src: Source, raw: Raw, v: Visit)
    requires Compared(src, raw).Some? && v.writes.EntryOnly? && src.cfg.watchMode == Changes
    ensures Believe(Bag(src, raw), Crawl(src, raw, v)) == Bag(src, raw) <==> VainlyTold(src, raw, v) == NONE
  {
    if Told(Crawl(src, raw, v)) != NONE {
      ToldChange(src, raw, v);
      TellingMovesBelief(Bag(src, raw), multiset(KeysOf(src, v.page)));
    }
  }

  /** The crawl that makes a reader's belief part from what the source compares with. */
  ghost predicate Misleads(src: Source, raw: Raw, v: Visit) {
    (v.Saved() && Swallows(src, raw, v)) || VainlyTold(src, raw, v) != NONE
  }

  lemma BelieveIsRightIff(src: Source, raw: Raw, v: Visit)
    requires Compared(src, raw).Some? && src.cfg.watchMode == Changes
    ensures
      var next := After(src, raw, v);
      var believed := if v.Delivered() then Believe(Bag(src, raw), Crawl(src, raw, v)) else Bag(src, raw);
      && Compared(src, next).Some?
      && (believed == Bag(src, next) <==> !Misleads(src, raw, v))
  {
    if v.Saved() {
      SavedBeliefIsRightIff(src, raw, v);
    } else if v.Delivered() {
      VainBeliefIsRightIff(src, raw, v);
    }
  }

  /**
   * In changes mode, if no crawl swallows anything or loses its state after telling something, the
   * items rebuild what the page shows now from what it showed at the start.
   */
  lemma {:induction false} ItemsRebuildThePage(src: Source, raw: Raw, visits: seq<Visit>)
    requires Compared(src, raw).Some? && src.cfg.watchMode == Changes
    requires NeverSwallows(src, raw, visits) && NothingInVain(src, raw, visits)
    ensures Compared(src, Run(src, raw, visits)).Some?
    ensures Replay(src, raw, visits, Bag(src, raw)) == Bag(src, Run(src, raw, visits))
  {
    if visits != [] {
      var n := |visits| - 1;
      EarlierSwallowsNothing(src, raw, visits, n);
      EarlierNothingInVain(src, raw, visits, n);
      ItemsRebuildThePage(src, raw, visits[..n]);
      BelieveIsRightIff(src, Run(src, raw, visits[..n]), visits[n]);
    }
  }

  lemma EarlierSwallowsNothing(src: Source, raw: Raw, visits: seq<Visit>, n: nat)
    requires n <= |visits| && NeverSwallows(src, raw, visits)
    ensures NeverSwallows(src, raw, visits[..n])
  {
    forall i | 0 <= i < n && visits[i].Saved() ensures !Swallows(src, Run(src, raw, visits[..n][..i]), visits[i]) {
      assert visits[..n][..i] == visits[..i];
    }
  }

  lemma EarlierNothingInVain(src: Source, raw: Raw, visits: seq<Visit>, n: nat)
    requires n <= |visits| && NothingInVain(src, raw, visits)
    ensures NothingInVain(src, raw, visits[..n])
  {
    forall i | 0 <= i < n ensures VainlyTold(src, Run(src, raw, visits[..n][..i]), visits[i]) == NONE {
      assert visits[..n][..i] == visits[..i];
    }
  }

  /** The reader knows the page after the first `n` crawls. */
  ghost predicate RightAfter(src: Source, raw: Raw, visits: seq<Visit>, n: nat)
    requires Compared(src, raw).Some? && n <= |visits|
  {
    var now := Run(src, raw, visits[..n]);
    Compared(src, now).Some? && Replay(src, raw, visits[..n], Bag(src, raw)) == Bag(src, now)
  }

  lemma RightAfterNext(src: Source, raw: Raw, visits: seq<Visit>, i: nat, next: Raw)
    requires Compared(src, raw).Some? && i < |visits| && RightAfter(src, raw, visits, i)
    requires next == After(src, Run(src, raw, visits[..i]), visits[i]) && Compared(src, next).Some?
    ensures
      var before := Run(src, raw, visits[..i]);
      var believed :=
        if visits[i].Delivered() then Believe(Bag(src, before), Crawl(src, before, visits[i])) else Bag(src, before);
      RightAfter(src, raw, visits, i + 1) <==> believed == Bag(src, next)
  {
    ReplayUpTo(src, raw, visits, i, Bag(src, raw));
  }

  lemma MisledIsNotKnown(src: Source, raw: Raw, visits: seq<Visit>, i: nat)
    requires Compared(src, raw).Some? && src.cfg.watchMode == Changes
    requires i < |visits| && Misleads(src, Run(src, raw, visits[..i]), visits[i])
    ensures !RightAfter(src, raw, visits, i) || !RightAfter(src, raw, visits, i + 1)
  {
    if RightAfter(src, raw, visits, i) {
      BelieveIsRightIff(src, Run(src, raw, visits[..i]), visits[i]);
      RightAfterNext(src, raw, visits, i, After(src, Run(src, raw, visits[..i]), visits[i]));
    }
  }

  /**
   * Replaying is right after every crawl exactly when no saved crawl swallows a change and no crawl
   * loses its state after telling one.
   */
  lemma RightThroughoutIff(src: Source, raw: Raw, visits: seq<Visit>)
    requires Compared(src, raw).Some? && src.cfg.watchMode == Changes
    ensures (forall n :: 0 <= n <= |visits| ==> RightAfter(src, raw, visits, n)) <==>
            NeverSwallows(src, raw, visits) && NothingInVain(src, raw, visits)
  {
    if NeverSwallows(src, raw, visits) && NothingInVain(src, raw, visits) {
      forall n | 0 <= n <= |visits| ensures RightAfter(src, raw, visits, n) {
        EarlierSwallowsNothing(src, raw, visits, n);
        EarlierNothingInVain(src, raw, visits, n);
        ItemsRebuildThePage(src, raw, visits[..n]);
      }
    } else {
      var i :| 0 <= i < |visits| && Misleads(src, Run(src, raw, visits[..i]), visits[i]);
      MisledIsNotKnown(src, raw, visits, i);
    }
  }

  /** In additions mode a replay only ever adds. */
  lemma CoverMore(past: multiset<Key>, next: multiset<Key>, shown: multiset<Key>, told: multiset<Key>,
                  swallowed: multiset<Key>, more: multiset<Key>)
    requires past <= shown + swallowed && next <= past + told + more
    ensures next <= shown + told + (swallowed + more)
  {
    forall k: Key ensures next[k] <= (shown + told + (swallowed + more))[k] {
      assert past[k] <= (shown + swallowed)[k] && next[k] <= (past + told + more)[k];
    }
  }

  /**
   * In additions mode, whatever the threshold and whichever writes fail: every key the page is
   * compared with was there at the start, was reported, or came with a change that was swallowed.
   */
  lemma {:induction false} AdditionsCoverThePage(src: Source, raw: Raw, visits: seq<Visit>)
    requires Compared(src, raw).Some? && src.cfg.watchMode == Additions
    ensures Compared(src, Run(src, raw, visits)).Some?
    ensures Bag(src, Run(src, raw, visits)) <=
            Replay(src, raw, visits, Bag(src, raw)) + Swallowed(src, raw, visits).gained
  {
    if visits != [] {
      var n := |visits| - 1;
      var before := Run(src, raw, visits[..n]);
      AdditionsCoverThePage(src, raw, visits[..n]);
      var shown, r := Replay(src, raw, visits[..n], Bag(src, raw)), Crawl(src, before, visits[n]);
      if visits[n].Delivered() { AdditionsOnlyAdd(src, before, visits[n], shown); }
      if visits[n].Saved() {
        CrawlAccount(src, before, visits[n]);
        CoverMore(Bag(src, before), Bag(src, Run(src, raw, visits)), shown, Told(r).gained,
                  Swallowed(src, raw, visits[..n]).gained, SwallowedBy(src, before, visits[n]).gained);
      } else {
        NothingMore(Swallowed(src, raw, visits[..n]));
      }
    }
  }

  lemma AdditionsOnlyAdd(src: Source, raw: Raw, v: Visit, shown: multiset<Key>)
    requires Compared(src, raw).Some? && src.cfg.watchMode == Additions
    ensures Believe(shown, Crawl(src, raw, v)) == shown + Told(Crawl(src, raw, v)).gained
  {
    if v.page != [] { ToldOrSwallowed(src, raw, v); }
  }

  lemma {:induction false} NothingSwallowed(src: Source, raw: Raw, visits: seq<Visit>)
    requires NeverSwallows(src, raw, visits)
    ensures Swallowed(src, raw, visits) == NONE
  {
    if visits != [] {
      var n := |visits| - 1;
      EarlierSwallowsNothing(src, raw, visits, n);
      NothingSwallowed(src, raw, visits[..n]);
      NothingMore(NONE);
      assert visits[n].Saved() ==> SwallowedBy(src, Run(src, raw, visits[..n]), visits[n]) == NONE;
    }
  }

  // ---------------------------------------------------------------- a watch from its first crawl

  lemma FirstCrawlWatches(src: Source, first: Visit)
    requires first.Saved() && first.page != []
    ensures
      var b := Compared(src, After(src, Missing, first));
      b.Some? && StoredKeys(b.value) == KeysOf(src, first.page)
  {
    NewStateIsBaseline(src.f, src.cfg, first.page);
  }

  /**
   * The first page's keys, the items, what was swallowed and what was told in vain account for the
   * last page's keys; without the latter two, a reader who replays the items holds the last page.
   */
  lemma WatchTellsTheWholeStory(src: Source, first: Visit, visits: seq<Visit>, keys: set<Key>)
    requires src.cfg.watchMode == Changes
    requires first.Saved() && first.page != [] && Separable(keys) && PageOver(src, first.page, keys)
    requires VisitsOver(src, visits, keys) && LastPage(visits).Some?
    ensures
      var raw := After(src, Missing, first);
      var start, end := multiset(KeysOf(src, first.page)), multiset(KeysOf(src, LastPage(visits).value));
      var told, vain := Reported(src, raw, visits), ToldInVain(src, raw, visits);
      var swallowed := Swallowed(src, raw, visits);
      && end + told.lost + (swallowed.lost + vain.gained) == start + told.gained + (swallowed.gained + vain.lost)
      && (NeverSwallows(src, raw, visits) && NothingInVain(src, raw, visits) ==>
          Replay(src, raw, visits, start) == end)
  {
    var raw := After(src, Missing, first);
    FirstCrawlWatches(src, first);
    AccountIsExact(src, raw, visits);
    StateCarriesLastPage(src, raw, visits, keys);
    if NeverSwallows(src, raw, visits) && NothingInVain(src, raw, visits) {
      ItemsRebuildThePage(src, raw, visits);
    }
  }

  /** In additions mode: every key of the last page was on the first, was reported, or was swallowed. */
  lemma AdditionsTellEveryKey(src: Source, first: Visit, visits: seq<Visit>, keys: set<Key>)
    requires src.cfg.watchMode == Additions
    requires first.Saved() && first.page != [] && Separable(keys) && PageOver(src, first.page, keys)
    requires VisitsOver(src, visits, keys) && LastPage(visits).Some?
    ensures
      var raw := After(src, Missing, first);
      var start, end := multiset(KeysOf(src, first.page)), multiset(KeysOf(src, LastPage(visits).value));
      && end <= Replay(src, raw, visits, start) + Swallowed(src, raw, visits).gained
      && (NeverSwallows(src, raw, visits) ==> end <= Replay(src, raw, visits, start))
  {
    var raw := After(src, Missing, first);
    FirstCrawlWatches(src, first);
    AdditionsCoverThePage(src, raw, visits);
    StateCarriesLastPage(src, raw, visits, keys);
    if NeverSwallows(src, raw, visits) {
      NothingSwallowed(src, raw, visits);
      var r := Replay(src, raw, visits, multiset(KeysOf(src, first.page)));
      assert r + multiset{} == r;
    }
  }

  // ---------------------------------------------------------------- drift

  ghost predicate AlwaysUnder(src: Source, raw: Raw, visits: seq<Visit>) {
    forall i :: 0 <= i < |visits| && visits[i].Delivered() ==> Under(src, Run(src, raw, visits[..i]), visits[i])
  }

  lemma UnderEarlier(src: Source, raw: Raw, visits: seq<Visit>, n: nat)
    requires n <= |visits| && AlwaysUnder(src, raw, visits)
    ensures AlwaysUnder(src, raw, visits[..n])
  {
    forall i | 0 <= i < n && visits[i].Delivered() ensures Under(src, Run(src, raw, visits[..n][..i]), visits[i]) {
      assert visits[..n][..i] == visits[..i];
    }
  }

  /** A crawl under the threshold tells nothing. */
  lemma UnderTellsNothing(src: Source, raw: Raw, v: Visit, shown: multiset<Key>)
    requires Under(src, raw, v)
    ensures Told(Crawl(src, raw, v)) == NONE && Believe(shown, Crawl(src, raw, v)) == shown
  {
    if v.page != [] {
      ToldOrSwallowed(src, raw, v);
    }
  }

  /** While every change is under the threshold a reader learns nothing, however far the page drifts. */
  lemma {:induction false} SmallChangesAreNeverTold(src: Source, raw: Raw, visits: seq<Visit>, shown: multiset<Key>)
    requires AlwaysUnder(src, raw, visits) && Compared(src, raw).Some?
    ensures Replay(src, raw, visits, shown) == shown && Reported(src, raw, visits) == NONE
    ensures LastPage(visits).Some? ==> Watches(src, Run(src, raw, visits), LastPage(visits).value)
  {
    StateFollowsLastPage(src, raw, visits);
    if visits != [] {
      var n := |visits| - 1;
      var before := Run(src, raw, visits[..n]);
      UnderEarlier(src, raw, visits, n);
      SmallChangesAreNeverTold(src, raw, visits[..n], shown);
      NothingMore(NONE);
      if visits[n].Delivered() {
        UnderTellsNothing(src, before, visits[n], shown);
      }
    }
  }
}
