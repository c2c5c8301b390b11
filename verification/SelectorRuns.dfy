/** Whole runs of a selector source: how many crawls and article fetches an unchanging page costs. */
module SelectorRuns {
  import opened Wrappers
  import opened DistinctLists
  import opened Decimal
  import Ranks
  import opened SelectorState
  import opened SelectorCrawl

  /** The state after a crawl that gets to write it. */
  function Next(raw: Raw, page: Page, cfg: Config, outcome: Outcomes): Raw {
    match ExtractSelectorPage(raw, page, cfg, outcome)
    case Ok(Crawl(_, Some(st))) => Stored(st)
    case _ => raw
  }

  function Remaining(raw: Raw, page: Page): seq<string> {
    Without(Candidates(page), History(raw))
  }

  // ---------------------------------------------------------------- any sequence of pages

  /** What the articles of one crawl do, and whether its state gets written in the end. */
  datatype Try = Try(outcome: Outcomes, saved: bool)

  function After(raw: Raw, page: Page, cfg: Config, t: Try): Raw {
    if t.saved then Next(raw, page, cfg, t.outcome) else raw
  }

  datatype Visit = Visit(page: Page, cfg: Config, attempt: Try)

  function AfterVisits(raw: Raw, visits: seq<Visit>): Raw
    decreases |visits|
  {
    if visits == [] then raw
    else AfterVisits(After(raw, visits[0].page, visits[0].cfg, visits[0].attempt), visits[1..])
  }

  /**
   * Whatever pages a source serves and whichever writes fail, it never holds a URL both seen and
   * pending, or failed three times.
   */
  lemma {:induction false} VisitsKeepHealthy(raw: Raw, visits: seq<Visit>)
    requires HealthyRaw(raw)
    ensures HealthyRaw(AfterVisits(raw, visits))
    decreases |visits|
  {
    if visits != [] {
      var v := visits[0];
      CrawlKeepsHealthy(raw, v.page, v.cfg, v.attempt.outcome);
      VisitsKeepHealthy(After(raw, v.page, v.cfg, v.attempt), visits[1..]);
    }
  }

  // ---------------------------------------------------------------- one crawl

  lemma ExtractsRemaining(raw: Raw, page: Page, cfg: Config)
    requires !raw.Corrupt? && page.links != []
    ensures Extract(raw, page, cfg) == Ok(Unseen(Remaining(raw, page)))
  {
  }

  lemma CrawlCommits(raw: Raw, page: Page, cfg: Config, outcome: Outcomes, unseen: seq<string>)
    requires Extract(raw, page, cfg) == Ok(Unseen(unseen)) && unseen != []
    ensures
      var rep := Report(raw, unseen, cfg, outcome);
      ExtractSelectorPage(raw, page, cfg, outcome) == Ok(Crawl(rep.imported, Some(Commit(Parse(raw), rep))))
  {
  }

  lemma NextIsCommit(raw: Raw, page: Page, cfg: Config, outcome: Outcomes)
    requires !raw.Corrupt? && page.links != [] && Remaining(raw, page) != []
    ensures Next(raw, page, cfg, outcome)
      == Stored(Commit(Parse(raw), Report(raw, Remaining(raw, page), cfg, outcome)))
  {
    ExtractsRemaining(raw, page, cfg);
    CrawlCommits(raw, page, cfg, outcome, Remaining(raw, page));
  }

  lemma RemainingAreCandidates(raw: Raw, page: Page)
    ensures Elements(Remaining(raw, page)) <= Elements(Candidates(page))
    ensures forall u :: u in Remaining(raw, page) <==> u in Candidates(page) && u !in History(raw)
  {
    WithoutMembers(Candidates(page), History(raw));
  }

  lemma CrawlFailures(raw: Raw, page: Page, cfg: Config, outcome: Outcomes, u: string)
    requires HealthyRaw(raw) && !raw.Corrupt? && u in Remaining(raw, page)
    ensures
      var rep := Report(raw, Remaining(raw, page), cfg, outcome);
      var next := Stored(Commit(Parse(raw), rep));
      if u in rep.imported then u in History(next)
      else Count(Pending(next), u) == Count(Pending(raw), u) + if u in rep.fetchFailed then 1 else 0
  {
    var rep := Report(raw, Remaining(raw, page), cfg, outcome);
    ReportIsSound(raw, page, cfg, outcome);
    if u in rep.imported {
      CommitKeepsHealthy(Parse(raw), rep);
    } else {
      CommitPending(Parse(raw), rep, u);
    }
  }

  /** Every processed URL was either imported or has one more failure. */
  lemma Processed(raw: Raw, page: Page, cfg: Config, outcome: Outcomes, u: string)
    requires u in ToProcess(Remaining(raw, page), cfg)
    ensures
      var rep := Report(raw, Remaining(raw, page), cfg, outcome);
      (u in rep.imported) != (u in rep.fetchFailed) && u in Remaining(raw, page)
  {
    var urls := ToProcess(Remaining(raw, page), cfg);
    WithoutMembers(urls, RetriedOf(urls, cfg, Pending(raw), outcome));
    WithoutMembers(urls, ImportedOf(urls, cfg, Pending(raw), outcome));
  }

  /** What was not processed cannot have failed. */
  lemma Unprocessed(raw: Raw, page: Page, cfg: Config, outcome: Outcomes, u: string)
    requires u !in ToProcess(Remaining(raw, page), cfg)
    ensures u !in Report(raw, Remaining(raw, page), cfg, outcome).fetchFailed
  {
    var urls := ToProcess(Remaining(raw, page), cfg);
    WithoutMembers(urls, RetriedOf(urls, cfg, Pending(raw), outcome));
    WithoutMembers(urls, ImportedOf(urls, cfg, Pending(raw), outcome));
  }

  lemma ProcessedAreRemaining(unseen: seq<string>, cfg: Config, u: string)
    ensures u in ToProcess(unseen, cfg) ==> u in unseen
  {
  }

  lemma PendingBound(raw: Raw, u: string)
    requires HealthyRaw(raw)
    ensures Count(Pending(raw), u) < MAX_ARTICLE_RETRIES
  {
  }

  /** A URL still unseen: imported, which ends it, or left with what its failures leave it. */
  lemma UnseenOutcome(raw: Raw, page: Page, cfg: Config, outcome: Outcomes, u: string)
    requires HealthyRaw(raw) && !raw.Corrupt? && page.links != [] && u in Remaining(raw, page)
    ensures
      var next := Next(raw, page, cfg, outcome);
      var tried := u in ToProcess(Remaining(raw, page), cfg);
      u in History(next) || Count(Pending(next), u) == Count(Pending(raw), u) + if tried then 1 else 0
  {
    NextIsCommit(raw, page, cfg, outcome);
    CrawlFailures(raw, page, cfg, outcome, u);
    if u in ToProcess(Remaining(raw, page), cfg) {
      Processed(raw, page, cfg, outcome, u);
    } else {
      Unprocessed(raw, page, cfg, outcome, u);
    }
  }

  lemma NothingNewChangesNothing(raw: Raw, page: Page, cfg: Config, outcome: Outcomes)
    requires page.links == [] || (!raw.Corrupt? && Remaining(raw, page) == [])
    ensures Next(raw, page, cfg, outcome) == raw
  {
  }

  lemma NoLinksNothingRemains(raw: Raw, page: Page)
    requires page.links == []
    ensures Remaining(raw, page) == []
  {
  }

  // ---------------------------------------------------------------- a page that stays the same

  /** What one crawl puts into the history. */
  function Gained(raw: Raw, page: Page, cfg: Config, outcome: Outcomes): set<string> {
    History(Next(raw, page, cfg, outcome)) - History(raw)
  }

  /** `added` is exactly what the end of the history holds. */
  predicate EndsIn(seen: seq<string>, added: set<string>) {
    |added| <= |seen| && Elements(seen[|seen| - |added|..]) == added
  }

  /**
   * The URLs added since some earlier crawl of this page are the youngest of the history. There
   * are at most 500 of them, so none has reached the end that eviction takes from.
   */
  ghost predicate Youngest(raw: Raw, page: Page, added: set<string>) {
    && added <= Elements(Candidates(page))
    && if raw.Stored? then EndsIn(raw.state.seen, added) else added == {}
  }

  lemma GainedByImport(raw: Raw, page: Page, cfg: Config, outcome: Outcomes)
    requires HealthyRaw(raw) && raw.Stored? && page.links != [] && Remaining(raw, page) != []
    ensures
      var rep := Report(raw, Remaining(raw, page), cfg, outcome);
      && Reported(Some(raw.state), rep)
      && Next(raw, page, cfg, outcome) == Stored(Commit(Some(raw.state), rep))
      && Gained(raw, page, cfg, outcome) == Elements(rep.imported)
      && Elements(rep.imported) <= Elements(Candidates(page))
  {
    var rep := Report(raw, Remaining(raw, page), cfg, outcome);
    var next := Commit(Some(raw.state), rep);
    ReportIsSound(raw, page, cfg, outcome);
    NextIsCommit(raw, page, cfg, outcome);
    RemainingAreCandidates(raw, page);
    CommitKeepsHealthy(Some(raw.state), rep);
    forall u ensures u in next.seen && u !in raw.state.seen <==> u in rep.imported {
      if u in next.seen { SeenComesFrom(Some(raw.state), rep, u); }
    }
  }

  lemma AppendedTail(seen: seq<string>, n: nat, added: set<string>, imported: seq<string>)
    requires EndsIn(seen, added) && n + |added| <= |seen|
    requires Distinct(imported) && Elements(imported) !! added
    ensures EndsIn((seen + imported)[n..], added + Elements(imported))
  {
    DistinctSize(imported);
    var next, all := (seen + imported)[n..], added + Elements(imported);
    assert |all| == |added| + |imported|;
    assert next[|next| - |all|..] == seen[|seen| - |added|..] + imported;
  }

  /** Earlier additions and new imports are different URLs of one page, so together they are few. */
  lemma AddedFit(st: State, rep: CommitInput, added: set<string>, all: set<string>)
    requires Reported(Some(st), rep) && added <= all && Elements(rep.imported) <= all && EndsIn(st.seen, added)
    ensures Elements(rep.imported) !! added && |added| + |rep.imported| <= |all|
  {
    forall u | u in added ensures u in st.seen {
      assert u in Elements(st.seen[|st.seen| - |added|..]);
    }
    DistinctSize(rep.imported);
    Ranks.SubsetSize(added + Elements(rep.imported), all);
  }

  lemma CommitEndsIn(st: State, rep: CommitInput, added: set<string>, all: set<string>)
    requires Healthy(st) && Reported(Some(st), rep) && EndsIn(st.seen, added)
    requires added <= all && Elements(rep.imported) <= all && |all| <= MAX_CANDIDATES
    ensures EndsIn(Commit(Some(st), rep).seen, added + Elements(rep.imported))
  {
    CommitForgetsOnlyOldest(st, rep);
    AddedFit(st, rep, added, all);
    AppendedTail(st.seen, Excess(st, rep), added, rep.imported);
  }

  lemma YoungestGrows(raw: Raw, page: Page, cfg: Config, outcome: Outcomes, added: set<string>)
    requires HealthyRaw(raw) && raw.Stored? && page.links != [] && Remaining(raw, page) != []
    requires Youngest(raw, page, added)
    ensures Youngest(Next(raw, page, cfg, outcome), page, added + Gained(raw, page, cfg, outcome))
  {
    var rep := Report(raw, Remaining(raw, page), cfg, outcome);
    GainedByImport(raw, page, cfg, outcome);
    CandidatesBounded(page);
    DistinctSize(Candidates(page));
    CommitEndsIn(raw.state, rep, added, Elements(Candidates(page)));
  }

  /** From nothing, or from an unreadable state, everything seen afterwards is new. */
  lemma YoungestStarts(raw: Raw, page: Page, cfg: Config, outcome: Outcomes)
    requires !raw.Stored? && page.links != []
    ensures Youngest(Next(raw, page, cfg, outcome), page, Gained(raw, page, cfg, outcome))
  {
    CandidatesBounded(page);
    var next := Next(raw, page, cfg, outcome);
    if raw.Missing? && Remaining(raw, page) != [] {
      var rep := Report(raw, Remaining(raw, page), cfg, outcome);
      NextIsCommit(raw, page, cfg, outcome);
      ReportIsSound(raw, page, cfg, outcome);
      FirstCommitForgetsNothing(rep);
      RemainingAreCandidates(raw, page);
      forall u | u in next.state.seen ensures u in Candidates(page) { SeenComesFrom(None, rep, u); }
    }
    if next.Stored? {
      DistinctSize(next.state.seen);
      assert next.state.seen[0..] == next.state.seen;
    }
  }

  lemma YoungestStays(raw: Raw, page: Page, cfg: Config, outcome: Outcomes, added: set<string>)
    requires HealthyRaw(raw) && Youngest(raw, page, added)
    ensures Youngest(Next(raw, page, cfg, outcome), page, added + Gained(raw, page, cfg, outcome))
  {
    if page.links == [] || (raw.Stored? && Remaining(raw, page) == []) {
      NothingNewChangesNothing(raw, page, cfg, outcome);
      assert added + Gained(raw, page, cfg, outcome) == added;
    } else if raw.Stored? {
      YoungestGrows(raw, page, cfg, outcome, added);
    } else {
      YoungestStarts(raw, page, cfg, outcome);
      assert added + Gained(raw, page, cfg, outcome) == Gained(raw, page, cfg, outcome);
    }
  }

  /** Fetch attempts a listed URL may still cost: none once added, else three minus its failures. */
  function Rank(raw: Raw, added: set<string>, u: string): nat {
    if u in added || Count(Pending(raw), u) >= MAX_ARTICLE_RETRIES then 0
    else MAX_ARTICLE_RETRIES - Count(Pending(raw), u)
  }

  /** Is an article fetch spent on `u` by one crawl? An unreadable state costs none. */
  predicate FetchedBy(raw: Raw, page: Page, cfg: Config, outcome: Outcomes, u: string) {
    !raw.Corrupt? && u in ToProcess(Remaining(raw, page), cfg) && Attempted(u, cfg, outcome)
  }

  /** Was `u` among the URLs a crawl worked on? */
  predicate Tried(raw: Raw, page: Page, cfg: Config, u: string) {
    u in ToProcess(Remaining(raw, page), cfg)
  }

  lemma NotPendingOnceSeen(raw: Raw, u: string)
    requires HealthyRaw(raw) && u in History(raw)
    ensures Count(Pending(raw), u) == 0
  {
  }

  lemma AddedAreSeen(raw: Raw, page: Page, added: set<string>, u: string)
    requires Youngest(raw, page, added) && u in added
    ensures u in History(raw)
  {
    assert u in Elements(raw.state.seen[|raw.state.seen| - |added|..]);
  }

  /** Each crawl lowers the rank of every URL it tries, and raises none. */
  lemma RankStep(raw: Raw, page: Page, cfg: Config, outcome: Outcomes, added: set<string>, u: string)
    requires HealthyRaw(raw) && Youngest(raw, page, added) && page.links != [] && u in Candidates(page)
    ensures
      var next, more := Next(raw, page, cfg, outcome), added + Gained(raw, page, cfg, outcome);
      Rank(next, more, u) + (if Tried(raw, page, cfg, u) then 1 else 0) <= Rank(raw, added, u)
  {
    RemainingAreCandidates(raw, page);
    ProcessedAreRemaining(Remaining(raw, page), cfg, u);
    CrawlKeepsHealthy(raw, page, cfg, outcome);
    PendingBound(raw, u);
    if u in added {
      AddedAreSeen(raw, page, added, u);
    } else if u in History(raw) {
      NotPendingOnceSeen(raw, u);
    } else if !raw.Corrupt? {
      UnseenOutcome(raw, page, cfg, outcome, u);
    } else {
      assert u in History(Next(raw, page, cfg, outcome)) by { ResyncSeesAll(page, cfg, outcome); }
    }
  }

  lemma ResyncSeesAll(page: Page, cfg: Config, outcome: Outcomes)
    requires page.links != []
    ensures History(Next(Corrupt, page, cfg, outcome)) == Elements(Candidates(page))
  {
    CandidatesBounded(page);
  }

  function TotalRank(raw: Raw, added: set<string>, urls: seq<string>): nat {
    if urls == [] then 0
    else TotalRank(raw, added, urls[..|urls| - 1]) + Rank(raw, added, urls[|urls| - 1])
  }

  lemma {:induction false} TotalStep(
    raw: Raw, added: set<string>, next: Raw, more: set<string>, urls: seq<string>, w: string)
    requires forall u :: u in urls ==> Rank(next, more, u) <= Rank(raw, added, u)
    ensures TotalRank(next, more, urls) <= TotalRank(raw, added, urls)
    ensures w in urls && Rank(next, more, w) < Rank(raw, added, w) ==>
      TotalRank(next, more, urls) < TotalRank(raw, added, urls)
  {
    if urls != [] {
      var init, last := urls[..|urls| - 1], urls[|urls| - 1];
      assert urls == init + [last];
      assert last in urls;
      TotalStep(raw, added, next, more, init, w);
    }
  }

  lemma {:induction false} TotalBound(raw: Raw, added: set<string>, urls: seq<string>)
    ensures TotalRank(raw, added, urls) <= MAX_ARTICLE_RETRIES * |urls|
  {
    if urls != [] { TotalBound(raw, added, urls[..|urls| - 1]); }
  }

  /** A crawl that finds anything new lowers the total, however full the history is. */
  lemma NonEmptyCrawlSpends(raw: Raw, page: Page, cfg: Config, outcome: Outcomes, added: set<string>)
    requires HealthyRaw(raw) && Youngest(raw, page, added) && Remaining(raw, page) != []
    ensures
      var next, more := Next(raw, page, cfg, outcome), added + Gained(raw, page, cfg, outcome);
      TotalRank(next, more, Candidates(page)) < TotalRank(raw, added, Candidates(page))
  {
    var next, more := Next(raw, page, cfg, outcome), added + Gained(raw, page, cfg, outcome);
    var w := Remaining(raw, page)[0];
    assert w == ToProcess(Remaining(raw, page), cfg)[0];
    RemainingAreCandidates(raw, page);
    assert w in Remaining(raw, page);
    forall u | u in Candidates(page) ensures Rank(next, more, u) <= Rank(raw, added, u) {
      RankStep(raw, page, cfg, outcome, added, u);
    }
    RankStep(raw, page, cfg, outcome, added, w);
    TotalStep(raw, added, next, more, Candidates(page), w);
  }

  lemma BudgetStep(raw: Raw, page: Page, cfg: Config, outcome: Outcomes, u: string)
    requires HealthyRaw(raw) && page.links != [] && u in Candidates(page)
    requires History(raw) <= History(Next(raw, page, cfg, outcome))
    ensures
      var next := Next(raw, page, cfg, outcome);
      Rank(next, History(next), u) + (if Tried(raw, page, cfg, u) then 1 else 0) <= Rank(raw, History(raw), u)
  {
    RemainingAreCandidates(raw, page);
    ProcessedAreRemaining(Remaining(raw, page), cfg, u);
    PendingBound(raw, u);
    if u !in History(raw) {
      if raw.Corrupt? {
        ResyncSeesAll(page, cfg, outcome);
      } else {
        UnseenOutcome(raw, page, cfg, outcome, u);
      }
    }
  }

  /**
   * As long as nothing is forgotten, the plain sum over the URLs still to do, three minus their
   * failures, falls with every crawl that finds anything new.
   */
  lemma RemainingBudgetFalls(raw: Raw, page: Page, cfg: Config, outcome: Outcomes)
    requires HealthyRaw(raw) && Remaining(raw, page) != []
    requires History(raw) <= History(Next(raw, page, cfg, outcome))
    ensures
      var next := Next(raw, page, cfg, outcome);
      TotalRank(next, History(next), Candidates(page)) < TotalRank(raw, History(raw), Candidates(page))
  {
    var next, w := Next(raw, page, cfg, outcome), Remaining(raw, page)[0];
    assert w == ToProcess(Remaining(raw, page), cfg)[0];
    RemainingAreCandidates(raw, page);
    assert w in Remaining(raw, page);
    forall u | u in Candidates(page) ensures Rank(next, History(next), u) <= Rank(raw, History(raw), u) {
      BudgetStep(raw, page, cfg, outcome, u);
    }
    BudgetStep(raw, page, cfg, outcome, w);
    TotalStep(raw, History(raw), next, History(next), Candidates(page), w);
  }

  // ---------------------------------------------------------------- runs over that page

  type Oracle = nat -> Try

  /** `n` crawls of the same page; what happens to each is arbitrary. */
  function AfterCrawls(raw: Raw, page: Page, cfg: Config, oracle: Oracle, n: nat): Raw {
    if n == 0 then raw else After(AfterCrawls(raw, page, cfg, oracle, n - 1), page, cfg, oracle(n - 1))
  }

  /** What one crawl adds to the history that is stored. */
  function Kept(raw: Raw, page: Page, cfg: Config, t: Try): set<string> {
    if t.saved then Gained(raw, page, cfg, t.outcome) else {}
  }

  /** What those crawls added to the history. */
  function AddedBy(raw: Raw, page: Page, cfg: Config, oracle: Oracle, n: nat): set<string> {
    if n == 0 then {}
    else AddedBy(raw, page, cfg, oracle, n - 1)
         + Kept(AfterCrawls(raw, page, cfg, oracle, n - 1), page, cfg, oracle(n - 1))
  }

  /** How many of them wrote their state. */
  function Saves(oracle: Oracle, n: nat): (k: nat)
    ensures k <= n
  {
    if n == 0 then 0 else Saves(oracle, n - 1) + if oracle(n - 1).saved then 1 else 0
  }

  /** Article fetches of `u` during those crawls. */
  function Fetches(raw: Raw, page: Page, cfg: Config, oracle: Oracle, n: nat, u: string): nat {
    if n == 0 then 0
    else Fetches(raw, page, cfg, oracle, n - 1, u)
         + if FetchedBy(AfterCrawls(raw, page, cfg, oracle, n - 1), page, cfg, oracle(n - 1).outcome, u) then 1 else 0
  }

  /** Those of them whose outcome was never recorded, because the state write failed. */
  function Wasted(raw: Raw, page: Page, cfg: Config, oracle: Oracle, n: nat, u: string): (k: nat)
    ensures k <= n - Saves(oracle, n)
  {
    if n == 0 then 0
    else
      var r := AfterCrawls(raw, page, cfg, oracle, n - 1);
      Wasted(raw, page, cfg, oracle, n - 1, u)
      + if !oracle(n - 1).saved && FetchedBy(r, page, cfg, oracle(n - 1).outcome, u) then 1 else 0
  }

  /** One more crawl, in every account kept of them. */
  lemma OneMoreCrawl(raw: Raw, page: Page, cfg: Config, oracle: Oracle, n: nat)
    requires n > 0
    ensures
      var r, t := AfterCrawls(raw, page, cfg, oracle, n - 1), oracle(n - 1);
      && AfterCrawls(raw, page, cfg, oracle, n) == After(r, page, cfg, t)
      && AddedBy(raw, page, cfg, oracle, n) == AddedBy(raw, page, cfg, oracle, n - 1) + Kept(r, page, cfg, t)
      && Saves(oracle, n) == Saves(oracle, n - 1) + (if t.saved then 1 else 0)
  {
  }

  lemma OneMoreFetch(raw: Raw, page: Page, cfg: Config, oracle: Oracle, n: nat, u: string)
    requires n > 0
    ensures
      var r, t := AfterCrawls(raw, page, cfg, oracle, n - 1), oracle(n - 1);
      var cost := if FetchedBy(r, page, cfg, t.outcome, u) then 1 else 0;
      && Fetches(raw, page, cfg, oracle, n, u) == Fetches(raw, page, cfg, oracle, n - 1, u) + cost
      && Wasted(raw, page, cfg, oracle, n, u) ==
         Wasted(raw, page, cfg, oracle, n - 1, u) + (if t.saved then 0 else cost)
  {
  }

  lemma {:induction false} RunInvariant(raw: Raw, page: Page, cfg: Config, oracle: Oracle, n: nat)
    requires HealthyRaw(raw)
    ensures HealthyRaw(AfterCrawls(raw, page, cfg, oracle, n))
    ensures Youngest(AfterCrawls(raw, page, cfg, oracle, n), page, AddedBy(raw, page, cfg, oracle, n))
  {
    if n > 0 {
      OneMoreCrawl(raw, page, cfg, oracle, n);
      RunInvariant(raw, page, cfg, oracle, n - 1);
      StepInvariant(AfterCrawls(raw, page, cfg, oracle, n - 1), page, cfg, oracle(n - 1),
                    AddedBy(raw, page, cfg, oracle, n - 1));
    } else if raw.Stored? {
      assert raw.state.seen[|raw.state.seen|..] == [];
    }
  }

  lemma StepInvariant(raw: Raw, page: Page, cfg: Config, t: Try, added: set<string>)
    requires HealthyRaw(raw) && Youngest(raw, page, added)
    ensures HealthyRaw(After(raw, page, cfg, t))
    ensures Youngest(After(raw, page, cfg, t), page, added + Kept(raw, page, cfg, t))
  {
    if t.saved {
      CrawlKeepsHealthy(raw, page, cfg, t.outcome);
      YoungestStays(raw, page, cfg, t.outcome, added);
    } else {
      assert added + {} == added;
    }
  }

  /** Once nothing is new, nothing ever is. */
  lemma DoneStays(raw: Raw, page: Page, cfg: Config, outcome: Outcomes)
    requires Remaining(raw, page) == []
    ensures Remaining(Next(raw, page, cfg, outcome), page) == []
  {
    if raw.Corrupt? && page.links != [] {
      ResyncSealsThePage(page, cfg, outcome);
    } else {
      NothingNewChangesNothing(raw, page, cfg, outcome);
    }
  }

  /** Nothing is left to do, or every crawl so far has lowered the total. */
  predicate PaidFor(raw: Raw, page: Page, added: set<string>, n: nat) {
    || Remaining(raw, page) == []
    || TotalRank(raw, added, Candidates(page)) + n <= MAX_ARTICLE_RETRIES * |Candidates(page)|
  }

  lemma PaysOnce(raw: Raw, page: Page, cfg: Config, outcome: Outcomes, added: set<string>, n: nat)
    requires HealthyRaw(raw) && Youngest(raw, page, added) && PaidFor(raw, page, added, n)
    ensures PaidFor(Next(raw, page, cfg, outcome), page, added + Gained(raw, page, cfg, outcome), n + 1)
  {
    if Remaining(raw, page) == [] {
      DoneStays(raw, page, cfg, outcome);
    } else {
      NonEmptyCrawlSpends(raw, page, cfg, outcome, added);
    }
  }

  lemma PaysIfSaved(raw: Raw, page: Page, cfg: Config, t: Try, added: set<string>, n: nat)
    requires HealthyRaw(raw) && Youngest(raw, page, added) && PaidFor(raw, page, added, n)
    ensures PaidFor(After(raw, page, cfg, t), page, added + Kept(raw, page, cfg, t), n + if t.saved then 1 else 0)
  {
    if t.saved {
      PaysOnce(raw, page, cfg, t.outcome, added, n);
    } else {
      assert added + {} == added;
    }
  }

  /** Every saved crawl among the first `n` has been paid for. */
  predicate Paid(raw: Raw, page: Page, cfg: Config, oracle: Oracle, n: nat) {
    PaidFor(AfterCrawls(raw, page, cfg, oracle, n), page, AddedBy(raw, page, cfg, oracle, n), Saves(oracle, n))
  }

  lemma PaidStep(raw: Raw, page: Page, cfg: Config, oracle: Oracle, n: nat)
    requires HealthyRaw(raw) && n > 0 && Paid(raw, page, cfg, oracle, n - 1)
    ensures Paid(raw, page, cfg, oracle, n)
  {
    var r, added := AfterCrawls(raw, page, cfg, oracle, n - 1), AddedBy(raw, page, cfg, oracle, n - 1);
    OneMoreCrawl(raw, page, cfg, oracle, n);
    RunInvariant(raw, page, cfg, oracle, n - 1);
    PaysIfSaved(r, page, cfg, oracle(n - 1), added, Saves(oracle, n - 1));
  }

  lemma {:induction false} RanksFall(raw: Raw, page: Page, cfg: Config, oracle: Oracle, n: nat)
    requires HealthyRaw(raw)
    ensures Paid(raw, page, cfg, oracle, n)
  {
    if n == 0 {
      TotalBound(raw, {}, Candidates(page));
    } else {
      RanksFall(raw, page, cfg, oracle, n - 1);
      PaidStep(raw, page, cfg, oracle, n);
    }
  }

  /**
   * A page that stops changing runs out of new URLs, whatever state the source is in, however full
   * its history and whichever writes fail: after three saved crawls per candidate nothing remains.
   */
  lemma UnchangingPageRunsOut(raw: Raw, page: Page, cfg: Config, oracle: Oracle, n: nat)
    requires HealthyRaw(raw) && Saves(oracle, n) >= MAX_ARTICLE_RETRIES * |Candidates(page)|
    ensures Remaining(AfterCrawls(raw, page, cfg, oracle, n), page) == []
  {
    var r, added := AfterCrawls(raw, page, cfg, oracle, n), AddedBy(raw, page, cfg, oracle, n);
    RanksFall(raw, page, cfg, oracle, n);
    RunInvariant(raw, page, cfg, oracle, n);
    if Remaining(r, page) != [] {
      NonEmptyCrawlSpends(r, page, cfg, oracle(n).outcome, added);
    }
  }

  /** Fetches so far and what is left of the rank stay within `limit`; an unlisted URL costs nothing. */
  predicate Affordable(raw: Raw, page: Page, added: set<string>, u: string, spent: nat, limit: nat) {
    if u in Candidates(page) then spent + Rank(raw, added, u) <= limit else spent == 0
  }

  lemma FetchStep(
    raw: Raw, page: Page, cfg: Config, outcome: Outcomes, added: set<string>, u: string, spent: nat, limit: nat)
    requires HealthyRaw(raw) && Youngest(raw, page, added) && Affordable(raw, page, added, u, spent, limit)
    ensures
      var cost := if FetchedBy(raw, page, cfg, outcome, u) then 1 else 0;
      Affordable(Next(raw, page, cfg, outcome), page, added + Gained(raw, page, cfg, outcome), u, spent + cost, limit)
  {
    RemainingAreCandidates(raw, page);
    ProcessedAreRemaining(Remaining(raw, page), cfg, u);
    if page.links == [] {
      NoLinksNothingRemains(raw, page);
    } else if u in Candidates(page) {
      RankStep(raw, page, cfg, outcome, added, u);
    }
  }

  /** A crawl whose state is lost costs its fetch, and leaves everything else as it was. */
  lemma FetchIfSaved(
    raw: Raw, page: Page, cfg: Config, t: Try, added: set<string>, u: string, spent: nat, limit: nat)
    requires HealthyRaw(raw) && Youngest(raw, page, added) && Affordable(raw, page, added, u, spent, limit)
    ensures
      var cost := if FetchedBy(raw, page, cfg, t.outcome, u) then 1 else 0;
      Affordable(After(raw, page, cfg, t), page, added + Kept(raw, page, cfg, t), u, spent + cost,
                 if t.saved then limit else limit + cost)
  {
    if t.saved {
      FetchStep(raw, page, cfg, t.outcome, added, u, spent, limit);
    } else {
      RemainingAreCandidates(raw, page);
      ProcessedAreRemaining(Remaining(raw, page), cfg, u);
      assert added + {} == added;
    }
  }

  /** What has been spent on `u` after some crawls, against what it may cost and what was wasted. */
  predicate Within(raw: Raw, page: Page, cfg: Config, oracle: Oracle, n: nat, u: string) {
    Affordable(AfterCrawls(raw, page, cfg, oracle, n), page, AddedBy(raw, page, cfg, oracle, n), u,
               Fetches(raw, page, cfg, oracle, n, u), Rank(raw, {}, u) + Wasted(raw, page, cfg, oracle, n, u))
  }

  lemma WithinStep(raw: Raw, page: Page, cfg: Config, oracle: Oracle, n: nat, u: string)
    requires HealthyRaw(raw) && n > 0 && Within(raw, page, cfg, oracle, n - 1, u)
    ensures Within(raw, page, cfg, oracle, n, u)
  {
    var r, added := AfterCrawls(raw, page, cfg, oracle, n - 1), AddedBy(raw, page, cfg, oracle, n - 1);
    OneMoreCrawl(raw, page, cfg, oracle, n);
    OneMoreFetch(raw, page, cfg, oracle, n, u);
    RunInvariant(raw, page, cfg, oracle, n - 1);
    FetchIfSaved(r, page, cfg, oracle(n - 1), added, u, Fetches(raw, page, cfg, oracle, n - 1, u),
                 Rank(raw, {}, u) + Wasted(raw, page, cfg, oracle, n - 1, u));
  }

  lemma {:induction false} FetchesAndRank(raw: Raw, page: Page, cfg: Config, oracle: Oracle, n: nat, u: string)
    requires HealthyRaw(raw)
    ensures Within(raw, page, cfg, oracle, n, u)
  {
    if n > 0 {
      FetchesAndRank(raw, page, cfg, oracle, n - 1, u);
      WithinStep(raw, page, cfg, oracle, n, u);
    }
  }

  /**
   * No article is fetched more than three times in the process, fewer if it failed before, and once
   * more for each lost state write of a crawl that fetched it.
   */
  lemma AtMostThreeFetches(raw: Raw, page: Page, cfg: Config, oracle: Oracle, n: nat, u: string)
    requires HealthyRaw(raw)
    ensures Fetches(raw, page, cfg, oracle, n, u) <=
            MAX_ARTICLE_RETRIES - Count(Pending(raw), u) + Wasted(raw, page, cfg, oracle, n, u)
    ensures Wasted(raw, page, cfg, oracle, n, u) <= n - Saves(oracle, n)
  {
    FetchesAndRank(raw, page, cfg, oracle, n, u);
    PendingBound(raw, u);
  }

  /** There is no bound without the lost writes: while none succeeds, the same article is fetched every time. */
  lemma {:induction false} NothingSavedNothingLearned(
    raw: Raw, page: Page, cfg: Config, oracle: Oracle, n: nat, u: string)
    requires forall i :: 0 <= i < n ==> !oracle(i).saved && FetchedBy(raw, page, cfg, oracle(i).outcome, u)
    ensures AfterCrawls(raw, page, cfg, oracle, n) == raw && Fetches(raw, page, cfg, oracle, n, u) == n
  {
    if n > 0 {
      NothingSavedNothingLearned(raw, page, cfg, oracle, n - 1, u);
    }
  }

  // ---------------------------------------------------------------- what a full history forgets

  /** A listed URL is offered again exactly when it is among the oldest that the imports push out. */
  lemma OfferedAgainIff(raw: Raw, page: Page, cfg: Config, outcome: Outcomes, i: nat)
    requires HealthyRaw(raw) && raw.Stored? && Remaining(raw, page) != []
    requires i < |raw.state.seen| && raw.state.seen[i] in Candidates(page)
    ensures
      var rep := Report(raw, Remaining(raw, page), cfg, outcome);
      raw.state.seen[i] in Remaining(Next(raw, page, cfg, outcome), page) <==>
      i + MAX_SEEN < |raw.state.seen| + |rep.imported|
  {
    var rep := Report(raw, Remaining(raw, page), cfg, outcome);
    if page.links == [] { NoLinksNothingRemains(raw, page); }
    GainedByImport(raw, page, cfg, outcome);
    ForgottenIff(raw.state, rep, i);
    RemainingAreCandidates(Next(raw, page, cfg, outcome), page);
  }

  /** A crawl of an established source forgets nothing exactly when its imports still fit. */
  lemma CrawlForgetsNothingIff(raw: Raw, page: Page, cfg: Config, outcome: Outcomes)
    requires HealthyRaw(raw) && raw.Stored? && Remaining(raw, page) != []
    ensures History(raw) <= History(Next(raw, page, cfg, outcome)) <==>
      |raw.state.seen| + |Report(raw, Remaining(raw, page), cfg, outcome).imported| <= MAX_SEEN
  {
    if page.links == [] { NoLinksNothingRemains(raw, page); }
    GainedByImport(raw, page, cfg, outcome);
    ForgetsNothingIff(raw.state, Report(raw, Remaining(raw, page), cfg, outcome));
  }

  const ORIGIN := "http://a.example/"

  function Numbered(i: nat): string { ORIGIN + Print(i) }

  /** A full history of numbered URLs. */
  function FullHistory(): (seen: seq<string>)
    ensures |seen| == MAX_SEEN && forall i :: 0 <= i < MAX_SEEN ==> seen[i] == Numbered(i)
  {
    seq(MAX_SEEN, i requires 0 <= i < MAX_SEEN => Numbered(i))
  }

  lemma AfterOrigin(s: string)
    ensures (ORIGIN + s)[|ORIGIN|..] == s
  {
  }

  lemma FullHistoryIsHealthy()
    ensures Healthy(State(FullHistory(), map[], false, ""))
  {
    forall i, j | 0 <= i < j < MAX_SEEN ensures FullHistory()[i] != FullHistory()[j] {
      PrintInjective(i, j);
      AfterOrigin(Print(i));
      AfterOrigin(Print(j));
    }
  }

  lemma NotNumbered(s: string, i: nat)
    requires s != "" && !IsDigit(s[0])
    ensures Numbered(i) != ORIGIN + s
  {
    AfterOrigin(Print(i));
    AfterOrigin(s);
    assert AllDigits(Print(i));
  }

  lemma UsableSnoc(links: seq<Option<string>>, u: string, self: string)
    requires u != self
    ensures Usable(links + [Some(u)], self) == Usable(links, self) + [u]
  {
    assert (links + [Some(u)])[..|links|] == links;
  }

  lemma AddAllSnoc(urls: seq<string>, u: string)
    requires u !in AddAll([], urls)
    ensures AddAll([], urls + [u]) == AddAll([], urls) + [u]
  {
    assert (urls + [u])[..|urls|] == urls;
  }

  lemma UsableTwo(u: string, v: string, self: string)
    requires self !in [u, v]
    ensures Usable([Some(u), Some(v)], self) == [u, v]
  {
    UsableSnoc([], u, self);
    UsableSnoc([Some(u)], v, self);
    assert [] + [Some(u)] == [Some(u)] && [Some(u)] + [Some(v)] == [Some(u), Some(v)];
    assert [] + [u] == [u] && [u] + [v] == [u, v];
  }

  lemma AddAllTwo(u: string, v: string)
    requires u != v
    ensures AddAll([], [u, v]) == [u, v]
  {
    AddAllSnoc([], u);
    assert [] + [u] == [u];
    AddAllSnoc([u], v);
    assert [u] + [v] == [u, v];
  }

  lemma ListedAndNew(page: Page, u: string, v: string)
    requires page.links == [Some(u), Some(v)] && page.self !in [u, v] && u != v
    ensures Candidates(page) == [u, v]
  {
    UsableTwo(u, v, page.self);
    AddAllTwo(u, v);
  }

  lemma OnlyNewRemains(raw: Raw, page: Page, u: string, v: string)
    requires Candidates(page) == [u, v]
    requires u in History(raw) && v !in History(raw)
    ensures Remaining(raw, page) == [v]
  {
    WithoutSnoc([], u, History(raw));
    WithoutSnoc([u], v, History(raw));
    assert [] + [u] == [u] && [u] + [v] == [u, v];
  }

  lemma NewIsImported(raw: Raw, cfg: Config, outcome: Outcomes, v: string)
    requires !cfg.fulltext
    ensures Report(raw, [v], cfg, outcome).imported == [v]
  {
    WithoutSnoc([], v, RetriedOf([v], cfg, Pending(raw), outcome));
    assert [] + [v] == [v];
  }

  /** One new link on a page that still lists the oldest URL of a full history: that URL is offered again. */
  lemma ListedUrlOfferedAgain(cfg: Config, outcome: Outcomes)
    requires !cfg.fulltext
    ensures
      var raw := Stored(State(FullHistory(), map[], false, ""));
      var u, v := Numbered(0), ORIGIN + "new";
      var page := Page([Some(u), Some(v)], ORIGIN);
      && u in Candidates(page) && u in History(raw)
      && u in Remaining(Next(raw, page, cfg, outcome), page)
  {
    var raw := Stored(State(FullHistory(), map[], false, ""));
    var u, v := Numbered(0), ORIGIN + "new";
    var page := Page([Some(u), Some(v)], ORIGIN);
    NotNumbered("new", 0);
    AfterOrigin("");
    AfterOrigin("new");
    AfterOrigin(Print(0));
    ListedAndNew(page, u, v);
    FullHistoryIsHealthy();
    assert raw.state.seen[0] == u;
    forall i | 0 <= i < MAX_SEEN ensures raw.state.seen[i] != v {
      NotNumbered("new", i);
    }
    OnlyNewRemains(raw, page, u, v);
    NewIsImported(raw, cfg, outcome, v);
    OfferedAgainIff(raw, page, cfg, outcome, 0);
  }

  // ---------------------------------------------------------------- first crawls and resyncs

  /** A source whose state became unreadable takes the whole page as known, fetching nothing. */
  lemma ResyncSealsThePage(page: Page, cfg: Config, outcome: Outcomes)
    requires page.links != []
    ensures
      var r := ExtractSelectorPage(Corrupt, page, cfg, outcome);
      && r.Ok? && r.value.items == []
      && Remaining(Next(Corrupt, page, cfg, outcome), page) == []
      && HealthyRaw(Next(Corrupt, page, cfg, outcome))
  {
    CandidatesBounded(page);
    ResyncSeesAll(page, cfg, outcome);
    WithoutAll(Candidates(page), Elements(Candidates(page)));
  }

  lemma UnsealedIsFailed(page: Page, cfg: Config, outcome: Outcomes, u: string)
    requires u in Candidates(page)
    ensures
      var rep := Report(Missing, Remaining(Missing, page), cfg, outcome);
      u !in Additions(rep) ==> u in rep.fetchFailed
  {
    RemainingAreCandidates(Missing, page);
    var rep := Report(Missing, Remaining(Missing, page), cfg, outcome);
    WithoutMembers(rep.candidates, Elements(rep.fetchFailed));
  }

  lemma FailedIsRetried(raw: Raw, page: Page, cfg: Config, outcome: Outcomes, u: string)
    requires u in Report(raw, Remaining(raw, page), cfg, outcome).fetchFailed
    ensures Retried(u, cfg, Pending(raw), outcome) && u in ToProcess(Remaining(raw, page), cfg)
  {
    var urls := ToProcess(Remaining(raw, page), cfg);
    WithoutMembers(urls, ImportedOf(urls, cfg, Pending(raw), outcome));
  }

  /** The first crawl seals what it does not attempt: only failures can come back later. */
  lemma FirstCrawlSealsTheBacklog(page: Page, cfg: Config, outcome: Outcomes, u: string)
    requires u in Remaining(Next(Missing, page, cfg, outcome), page)
    ensures Retried(u, cfg, map[], outcome) && u in ToProcess(Remaining(Missing, page), cfg)
  {
    RemainingAreCandidates(Next(Missing, page, cfg, outcome), page);
    RemainingAreCandidates(Missing, page);
    if page.links == [] { NoLinksNothingRemains(Missing, page); }
    NextIsCommit(Missing, page, cfg, outcome);
    ReportIsSound(Missing, page, cfg, outcome);
    FirstCommitForgetsNothing(Report(Missing, Remaining(Missing, page), cfg, outcome));
    UnsealedIsFailed(page, cfg, outcome, u);
    FailedIsRetried(Missing, page, cfg, outcome, u);
  }
}
