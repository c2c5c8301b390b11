/**
 * One crawl of a selector source: internal/extract/selector/selector.go (candidates and the
 * filter by history) and internal/crawler/scrape_selector.go (fetching, bounded retries).
 *
 * Fetching, robots.txt and HTML are not interpreted: a listing page is the list of links its
 * items carry, and each article URL has an outcome.
 */
module SelectorCrawl {
  import opened Wrappers
  import opened DistinctLists
  import opened SelectorState

  const DEFAULT_MAX_ITEMS := 20
  const MAX_MAX_ITEMS := 50

  datatype Config = Config(fulltext: bool, maxItems: int, hash: string)

  function MaxFetch(cfg: Config): (n: nat)
    ensures 1 <= n <= MAX_MAX_ITEMS
  {
    if cfg.maxItems <= 0 then DEFAULT_MAX_ITEMS
    else if cfg.maxItems > MAX_MAX_ITEMS then MAX_MAX_ITEMS
    else cfg.maxItems
  }

  /** What becomes of one article URL: robots.txt, the fetch, and decoding. */
  datatype Outcome = Disallowed | Article | Undecodable | FetchFails

  type Outcomes = string -> Outcome

  /** A listing page: for each matched item its normalized link, if it has an acceptable one. */
  datatype Page = Page(links: seq<Option<string>>, self: string)

  // ---------------------------------------------------------------- candidates

  function Considered(page: Page): seq<Option<string>> {
    if |page.links| > MAX_CANDIDATES then page.links[..MAX_CANDIDATES] else page.links
  }

  function Usable(links: seq<Option<string>>, self: string): seq<string> {
    if links == [] then []
    else
      var last := links[|links| - 1];
      Usable(links[..|links| - 1], self) + (if last.Some? && last.value != self then [last.value] else [])
  }

  /** Links in document order, without the page itself, first occurrence only. */
  function Candidates(page: Page): seq<string> {
    AddAll([], Usable(Considered(page), page.self))
  }

  method ExtractCandidates(page: Page) returns (cands: seq<string>)
    ensures cands == Candidates(page)
  {
    var items := if |page.links| > MAX_CANDIDATES then page.links[..MAX_CANDIDATES] else page.links;
    var seenUrls: set<string> := {};
    cands := [];
    var n := 0;
    while n < |items|
      invariant 0 <= n <= |items|
      invariant cands == AddAll([], Usable(items[..n], page.self)) && seenUrls == Elements(cands)
    {
      var link := items[n];
      CandidateStep(items, n, page.self);
      n := n + 1;
      if link.None? || link.value == page.self {
        continue;
      }
      if link.value in seenUrls {
        continue;
      }
      assert Elements(cands + [link.value]) == Elements(cands) + {link.value};
      seenUrls := seenUrls + {link.value};
      cands := cands + [link.value];
    }
    assert items[..n] == items;
  }

  lemma AddAllSnoc(urls: seq<string>, link: Option<string>, self: string)
    ensures AddAll([], urls + (if link.Some? && link.value != self then [link.value] else [])) ==
      if link.None? || link.value == self || link.value in AddAll([], urls) then AddAll([], urls)
      else AddAll([], urls) + [link.value]
  {
    assert urls + [] == urls;
    if link.Some? { assert (urls + [link.value])[..|urls|] == urls; }
  }

  lemma CandidateStep(items: seq<Option<string>>, n: nat, self: string)
    requires n < |items|
    ensures
      var before := AddAll([], Usable(items[..n], self));
      AddAll([], Usable(items[..n + 1], self)) ==
        if items[n].None? || items[n].value == self || items[n].value in before then before
        else before + [items[n].value]
  {
    assert items[..n + 1][..n] == items[..n];
    AddAllSnoc(Usable(items[..n], self), items[n], self);
  }

  lemma {:induction false} UsableSize(links: seq<Option<string>>, self: string)
    ensures |Usable(links, self)| <= |links|
  {
    if links != [] { UsableSize(links[..|links| - 1], self); }
  }

  lemma {:induction false} AddAllSize(order: seq<string>, urls: seq<string>)
    ensures |AddAll(order, urls)| <= |order| + |urls|
  {
    if urls != [] { AddAllSize(order, urls[..|urls| - 1]); }
  }

  /** Candidates are distinct and bounded, so what the crawler reports always fits the cap. */
  lemma CandidatesBounded(page: Page)
    ensures Distinct(Candidates(page)) && |Candidates(page)| <= MAX_CANDIDATES
  {
    AddAllFacts([], Usable(Considered(page), page.self));
    UsableSize(Considered(page), page.self);
    AddAllSize([], Usable(Considered(page), page.self));
  }

  /** What a listing page offers: the link of one of its first items, other than the page itself. */
  ghost predicate Offers(page: Page, n: nat, u: string) {
    n < |page.links| && n < MAX_CANDIDATES && page.links[n] == Some(u) && u != page.self
  }

  lemma {:induction false} UsableAt(links: seq<Option<string>>, self: string) returns (at: seq<nat>)
    ensures |at| == |Usable(links, self)|
    ensures forall i | 0 <= i < |at| ::
      at[i] < |links| && links[at[i]] == Some(Usable(links, self)[i]) && Usable(links, self)[i] != self
    ensures forall i, j | 0 <= i < j < |at| :: at[i] < at[j]
    ensures forall n | 0 <= n < |links| && links[n].Some? && links[n].value != self :: n in at
  {
    at := [];
    if links != [] {
      var n := |links| - 1;
      at := UsableAt(links[..n], self);
      if links[n].Some? && links[n].value != self {
        ghost var was := at;
        at := at + [n];
        assert at[|was|] == n;
      }
    }
  }

  /**
   * The candidates are exactly the links of the first 500 items other than the page itself, each
   * once, at the place where it first stood.
   */
  lemma CandidatesAre(page: Page) returns (at: seq<nat>)
    ensures |at| == |Candidates(page)|
    ensures forall i | 0 <= i < |at| :: Offers(page, at[i], Candidates(page)[i])
    ensures forall i, n | 0 <= i < |at| && 0 <= n < at[i] :: !Offers(page, n, Candidates(page)[i])
    ensures forall i, j | 0 <= i < j < |at| :: at[i] < at[j]
    ensures forall n, u | Offers(page, n, u) :: u in Candidates(page)
  {
    var links, self := Considered(page), page.self;
    var usable := Usable(links, self);
    var outer := UsableAt(links, self);
    assert PlacesUsable(page, outer);
    var inner := AddAllTakesFirst(usable);
    AddAllFacts([], usable);
    at := seq(|inner|, i requires 0 <= i < |inner| => outer[inner[i]]);
    forall n, u | Offers(page, n, u) ensures u in Candidates(page) {
      var m := UsedAt(page, outer, n, u);
      assert usable[m] in usable;
    }
    forall i, n: nat | 0 <= i < |at| && n < at[i] ensures !Offers(page, n, Candidates(page)[i]) {
      NotOfferedEarlier(page, outer, inner[i], n, Candidates(page)[i]);
    }
  }

  lemma NotOfferedEarlier(page: Page, outer: seq<nat>, m: nat, n: nat, u: string)
    requires PlacesUsable(page, outer) && FirstAt(Usable(Considered(page), page.self), m, u) && n < outer[m]
    ensures !Offers(page, n, u)
  {
    if Offers(page, n, u) {
      var k := UsedAt(page, outer, n, u);
      assert false;
    }
  }

  /** Where the usable links stand. */
  ghost predicate PlacesUsable(page: Page, at: seq<nat>) {
    var links, usable := Considered(page), Usable(Considered(page), page.self);
    && |at| == |usable|
    && (forall i | 0 <= i < |at| :: at[i] < |links| && links[at[i]] == Some(usable[i]) && usable[i] != page.self)
    && (forall i, j | 0 <= i < j < |at| :: at[i] < at[j])
    && (forall n | 0 <= n < |links| && links[n].Some? && links[n].value != page.self :: n in at)
  }

  lemma UsedAt(page: Page, outer: seq<nat>, n: nat, u: string) returns (m: nat)
    requires Offers(page, n, u) && PlacesUsable(page, outer)
    ensures m < |outer| && outer[m] == n && Usable(Considered(page), page.self)[m] == u
  {
    assert Considered(page)[n] == page.links[n];
    m :| 0 <= m < |outer| && outer[m] == n;
  }

  // ---------------------------------------------------------------- the extractor

  /** The persisted state column: empty, unreadable or of an unknown version, or a state. */
  datatype Raw = Missing | Corrupt | Stored(state: State)

  function Parse(raw: Raw): Option<State> {
    match raw case Stored(s) => Some(s) case _ => None
  }

  datatype Extracted = Resync(state: State) | Unseen(urls: seq<string>)

  datatype Error = NoMatch

  function History(raw: Raw): set<string> {
    match raw case Stored(s) => Elements(s.seen) case _ => {}
  }

  function Extract(raw: Raw, page: Page, cfg: Config): Result<Extracted, Error> {
    var cands := Candidates(page);
    if page.links == [] then Err(NoMatch)
    else if raw.Corrupt? then
      Ok(Resync(State(if |cands| > MAX_SEEN then cands[..MAX_SEEN] else cands, map[],
                      |page.links| > MAX_CANDIDATES, cfg.hash)))
    else Ok(Unseen(Without(cands, History(raw))))
  }

  // ---------------------------------------------------------------- the crawler

  function Pending(raw: Raw): map<string, nat> {
    match raw case Stored(s) => s.pending case _ => map[]
  }

  predicate GiveUp(prevFailures: nat) {
    prevFailures + 1 >= MAX_ARTICLE_RETRIES
  }

  /** Is `u` retried later rather than imported now? */
  predicate Retried(u: string, cfg: Config, pending: map<string, nat>, outcome: Outcomes) {
    cfg.fulltext && outcome(u).FetchFails? && !GiveUp(Count(pending, u))
  }

  /** Is an article fetch attempted for `u`? */
  predicate Attempted(u: string, cfg: Config, outcome: Outcomes) {
    cfg.fulltext && !outcome(u).Disallowed?
  }

  function RetriedOf(urls: seq<string>, cfg: Config, pending: map<string, nat>, outcome: Outcomes): set<string> {
    set u | u in urls && Retried(u, cfg, pending, outcome)
  }

  function ImportedOf(urls: seq<string>, cfg: Config, pending: map<string, nat>, outcome: Outcomes): set<string> {
    set u | u in urls && !Retried(u, cfg, pending, outcome)
  }

  /** The loop of `extractSelectorPage`. */
  method ProcessItems(toProcess: seq<string>, cfg: Config, pending: map<string, nat>, outcome: Outcomes)
    returns (imported: seq<string>, fetchFailed: seq<string>, ghost fetched: set<string>)
    ensures imported == Without(toProcess, RetriedOf(toProcess, cfg, pending, outcome))
    ensures fetchFailed == Without(toProcess, ImportedOf(toProcess, cfg, pending, outcome))
    ensures forall u :: u in fetchFailed <==>
      u in toProcess && cfg.fulltext && outcome(u).FetchFails? && Count(pending, u) + 1 < MAX_ARTICLE_RETRIES
    ensures forall u :: u in imported <==> u in toProcess && u !in fetchFailed
    ensures fetched == set u | u in toProcess && cfg.fulltext && !outcome(u).Disallowed?
  {
    imported, fetchFailed, fetched := [], [], {};
    var retried := RetriedOf(toProcess, cfg, pending, outcome);
    var others := ImportedOf(toProcess, cfg, pending, outcome);
    var n := 0;
    while n < |toProcess|
      invariant 0 <= n <= |toProcess|
      invariant imported == Without(toProcess[..n], retried)
      invariant fetchFailed == Without(toProcess[..n], others)
      invariant fetched == set u | u in toProcess[..n] && Attempted(u, cfg, outcome)
    {
      assert toProcess[..n + 1][..n] == toProcess[..n];
      var u := toProcess[n];
      n := n + 1;
      if !cfg.fulltext {
        imported := imported + [u];
        continue;
      }
      if outcome(u).Disallowed? {
        imported := imported + [u];
        continue;
      }
      fetched := fetched + {u};
      match outcome(u) {
        case FetchFails =>
          if GiveUp(Count(pending, u)) {
            imported := imported + [u];
          } else {
            fetchFailed := fetchFailed + [u];
          }
        case Undecodable => imported := imported + [u];
        case Article => imported := imported + [u];
      }
    }
    assert toProcess[..n] == toProcess;
    WithoutMembers(toProcess, retried);
    WithoutMembers(toProcess, others);
  }

  function ToProcess(unseen: seq<string>, cfg: Config): seq<string> {
    if |unseen| > MaxFetch(cfg) then unseen[..MaxFetch(cfg)] else unseen
  }

  /** What one crawl reports to `CommitState`. */
  function Report(raw: Raw, unseen: seq<string>, cfg: Config, outcome: Outcomes): CommitInput {
    var urls := ToProcess(unseen, cfg);
    CommitInput(unseen,
      Without(urls, RetriedOf(urls, cfg, Pending(raw), outcome)),
      Without(urls, ImportedOf(urls, cfg, Pending(raw), outcome)),
      raw.Missing?, |unseen| >= MAX_CANDIDATES, cfg.hash)
  }

  /** Entries to write, by GUID, and the state to write after them, if any. */
  datatype Crawl = Crawl(items: seq<string>, next: Option<State>)

  function ExtractSelectorPage(raw: Raw, page: Page, cfg: Config, outcome: Outcomes): Result<Crawl, Error> {
    match Extract(raw, page, cfg)
    case Err(e) => Err(e)
    case Ok(Resync(st)) => Ok(Crawl([], Some(st)))
    case Ok(Unseen(unseen)) =>
      if unseen == [] then Ok(Crawl([], None))
      else
        var r := Report(raw, unseen, cfg, outcome);
        Ok(Crawl(r.imported, Some(Commit(Parse(raw), r))))
  }

  ghost predicate HealthyRaw(raw: Raw) {
    raw.Stored? ==> Healthy(raw.state)
  }

  lemma {:induction false} PrefixDistinct(l: seq<string>, n: nat)
    requires Distinct(l) && n <= |l|
    ensures Distinct(l[..n]) && forall u :: u in l[..n] ==> u in l
  {
  }

  /** The crawler always reports what `CommitState` expects. */
  lemma ReportIsSound(raw: Raw, page: Page, cfg: Config, outcome: Outcomes)
    requires HealthyRaw(raw) && !raw.Corrupt?
    ensures
      var unseen := Without(Candidates(page), History(raw));
      Reported(Parse(raw), Report(raw, unseen, cfg, outcome))
  {
    CandidatesBounded(page);
    var cands := Candidates(page);
    var unseen := Without(cands, History(raw));
    WithoutMembers(cands, History(raw));
    var urls := ToProcess(unseen, cfg);
    PrefixDistinct(unseen, |urls|);
    WithoutMembers(urls, RetriedOf(urls, cfg, Pending(raw), outcome));
    WithoutMembers(urls, ImportedOf(urls, cfg, Pending(raw), outcome));
  }

  /**
   * Whatever the page and the outcomes, a crawl leaves a healthy state: in particular no URL
   * is ever pending with three failures, nor both pending and seen.
   */
  lemma CrawlKeepsHealthy(raw: Raw, page: Page, cfg: Config, outcome: Outcomes)
    requires HealthyRaw(raw)
    ensures
      var r := ExtractSelectorPage(raw, page, cfg, outcome);
      r.Ok? ==> |r.value.items| <= MAX_MAX_ITEMS && (r.value.next.Some? ==> Healthy(r.value.next.value))
  {
    CandidatesBounded(page);
    var unseen := Without(Candidates(page), History(raw));
    if page.links != [] && !raw.Corrupt? && unseen != [] {
      ReportIsSound(raw, page, cfg, outcome);
      CommitKeepsHealthy(Parse(raw), Report(raw, unseen, cfg, outcome));
      WithoutMembers(ToProcess(unseen, cfg), RetriedOf(ToProcess(unseen, cfg), cfg, Pending(raw), outcome));
    }
  }

  lemma TakenAre(raw: Raw, unseen: seq<string>, cfg: Config, outcome: Outcomes, u: string)
    ensures
      var r := Report(raw, unseen, cfg, outcome);
      var again := cfg.fulltext && outcome(u).FetchFails? && Count(Pending(raw), u) + 1 < MAX_ARTICLE_RETRIES;
      && (u in r.imported <==> u in ToProcess(unseen, cfg) && !again)
      && (u in r.fetchFailed <==> u in ToProcess(unseen, cfg) && again)
  {
    var urls := ToProcess(unseen, cfg);
    WithoutMembers(urls, RetriedOf(urls, cfg, Pending(raw), outcome));
    WithoutMembers(urls, ImportedOf(urls, cfg, Pending(raw), outcome));
  }

  /** What a crawl writes of one URL into the state, given what it did with it. */
  ghost predicate Recorded(raw: Raw, u: string, unseen: bool, taken: bool, again: bool, next: State) {
    if !unseen then u !in next.pending
    else if !taken then
      (u in next.seen <==> raw.Missing?) && Count(next.pending, u) == Count(Pending(raw), u)
    else if again then
      u !in next.seen && u in next.pending && next.pending[u] == Count(Pending(raw), u) + 1
    else
      u in next.seen && u !in next.pending
  }

  lemma RecordedByCommit(raw: Raw, page: Page, cfg: Config, outcome: Outcomes, u: string)
    requires HealthyRaw(raw) && !raw.Corrupt?
    ensures
      var unseen := Without(Candidates(page), History(raw));
      var r := Report(raw, unseen, cfg, outcome);
      Recorded(raw, u, u in unseen, u in ToProcess(unseen, cfg), u in r.fetchFailed, Commit(Parse(raw), r))
  {
    var unseen := Without(Candidates(page), History(raw));
    var r := Report(raw, unseen, cfg, outcome);
    var st := if raw.Stored? then raw.state else ZERO;
    var next := Commit(Parse(raw), r);
    ReportIsSound(raw, page, cfg, outcome);
    CommitKeepsHealthy(Parse(raw), r);
    TakenAre(raw, unseen, cfg, outcome, u);
    BumpAllFacts(Retained(st.pending, r), r.fetchFailed);
    WithoutMembers(Candidates(page), History(raw));
    if u in next.seen { SeenComesFrom(Parse(raw), r, u); }
    if raw.Missing? && u in unseen && u !in r.fetchFailed { SealedAtFirst(r, u); }
  }

  lemma SealedAtFirst(r: CommitInput, u: string)
    requires Reported(None, r) && r.initial && u in r.candidates && u !in r.fetchFailed
    ensures u in Commit(None, r).seen
  {
    FirstCommitForgetsNothing(r);
    WithoutMembers(r.candidates, Elements(r.fetchFailed));
    assert u in Elements(Additions(r));
  }

  /**
   * What one crawl does with a URL: the first `maxItems` unseen candidates (20 if unset, at most
   * 50) become entries, except those whose article could not be fetched for the first or second
   * time. These are counted in the state; the others are in its history and never fetched again.
   */
  lemma CrawlIsExact(raw: Raw, page: Page, cfg: Config, outcome: Outcomes, u: string)
    requires HealthyRaw(raw) && !raw.Corrupt? && page.links != []
    ensures
      var unseen := Without(Candidates(page), History(raw));
      var limit := if cfg.maxItems <= 0 then 20 else if cfg.maxItems > 50 then 50 else cfg.maxItems;
      var taken := exists i :: 0 <= i < |unseen| && i < limit && unseen[i] == u;
      var again := cfg.fulltext && outcome(u).FetchFails? && Count(Pending(raw), u) + 1 < MAX_ARTICLE_RETRIES;
      var r := ExtractSelectorPage(raw, page, cfg, outcome);
      && r.Ok?
      && (u in r.value.items <==> taken && !again)
      && (r.value.next.None? <==> unseen == [])
      && (r.value.next.Some? ==>
            && Recorded(raw, u, u in unseen, taken, again, r.value.next.value)
            && r.value.next.value.configHash == cfg.hash
            && r.value.next.value.truncated == (|unseen| >= MAX_CANDIDATES))
  {
    var unseen := Without(Candidates(page), History(raw));
    TakenAre(raw, unseen, cfg, outcome, u);
    RecordedByCommit(raw, page, cfg, outcome, u);
    FirstOf(unseen, cfg, u);
  }

  lemma FirstOf(unseen: seq<string>, cfg: Config, u: string)
    ensures
      var limit := if cfg.maxItems <= 0 then 20 else if cfg.maxItems > 50 then 50 else cfg.maxItems;
      u in ToProcess(unseen, cfg) <==> exists i :: 0 <= i < |unseen| && i < limit && unseen[i] == u
  {
    var limit := if cfg.maxItems <= 0 then 20 else if cfg.maxItems > 50 then 50 else cfg.maxItems;
    if i :| 0 <= i < |unseen| && i < limit && unseen[i] == u {
      assert ToProcess(unseen, cfg)[i] == u;
    }
  }

  /** Entries come in the order of the page. */
  lemma ItemsKeepOrder(raw: Raw, page: Page, cfg: Config, outcome: Outcomes) returns (at: seq<nat>)
    ensures
      var r := ExtractSelectorPage(raw, page, cfg, outcome);
      r.Ok? ==> InOrder(r.value.items, Candidates(page), at)
  {
    at := [];
    var cands := Candidates(page);
    if page.links != [] && !raw.Corrupt? {
      var unseen := Without(cands, History(raw));
      var urls := ToProcess(unseen, cfg);
      var outer := WithoutKeepsOrder(cands, History(raw));
      var inner := WithoutKeepsOrder(urls, RetriedOf(urls, cfg, Pending(raw), outcome));
      at := seq(|inner|, i requires 0 <= i < |inner| => outer[inner[i]]);
    }
  }

  /** A page without items is an error; an unreadable state is replaced and nothing is imported. */
  lemma OtherCrawlsAre(raw: Raw, page: Page, cfg: Config, outcome: Outcomes)
    ensures
      var r := ExtractSelectorPage(raw, page, cfg, outcome);
      && (r.Err? <==> page.links == [])
      && (page.links != [] && raw.Corrupt? ==>
            r.value == Crawl([], Some(State(Candidates(page), map[], |page.links| > 500, cfg.hash))))
  {
    CandidatesBounded(page);
  }
}
