/**
 * `crawlOne` of internal/crawler/crawler.go for a selector source: entries are written before
 * the state that records them as imported, and either write may fail.
 */
module CrawlWrites {
  import opened Wrappers
  import U = DistinctLists
  import S = SelectorState
  import L = Store
  import opened SelectorCrawl
  import opened Tables
  import opened Transactions
  import opened StoreInvariant
  import opened StoreMeaning
  import opened StoreEffects

  /** How a crawl is interrupted, if it is. */
  datatype Fault = NoFault | EntryWriteFails | StateWriteFails

  /** What survives between crawls: the tables, and the state column of one source. */
  datatype Site = Site(tables: Tables, raw: Raw)

  /** Turns an imported URL into an entry; selector items use the URL as GUID and carry a date. */
  type Renderer = string -> EntryInput

  ghost predicate RendersUrls(render: Renderer) {
    forall u :: render(u).guid == u && !render(u).dateMissing
  }

  function Inputs(items: seq<string>, render: Renderer): seq<EntryInput> {
    seq(|items|, i requires 0 <= i < |items| => render(items[i]))
  }

  datatype Request = Request(page: Page, cfg: Config, outcome: Outcomes, render: Renderer, now: int, fault: Fault)

  function CrawlOne(site: Site, like: Like, feed: Id, r: Request): Site {
    match ExtractSelectorPage(site.raw, r.page, r.cfg, r.outcome)
    case Err(_) => site
    case Ok(c) =>
      if r.fault.EntryWriteFails? then site
      else
        match UpsertEntries(site.tables, like, feed, Inputs(c.items, r.render), r.now)
        case Err(_) => site
        case Ok(written) =>
          if c.next.None? || r.fault.StateWriteFails? then Site(written.0, site.raw)
          else Site(written.0, Stored(c.next.value))
  }

  lemma InputGuids(items: seq<string>, render: Renderer)
    requires RendersUrls(render)
    ensures Guids(Inputs(items, render)) == U.Elements(items)
  {
    var es := Inputs(items, render);
    forall u ensures u in Guids(es) <==> u in items {
      if u in items {
        var i :| 0 <= i < |items| && items[i] == u;
        assert es[i] in es && es[i].guid == u;
      }
      if u in Guids(es) {
        var e :| e in es && e.guid == u;
        var i :| 0 <= i < |es| && es[i] == e;
        assert items[i] == u;
      }
    }
  }

  /** Writing entries makes exactly their GUIDs known. */
  lemma WritingKnows(t: Tables, like: Like, feed: Id, items: seq<string>, render: Renderer, now: int, u: string)
    requires RendersUrls(render) && (items == [] || feed in t.feeds)
    ensures
      var w := UpsertEntries(t, like, feed, Inputs(items, render), now);
      w.Ok? && (Known(w.value.0, feed, u) <==> Known(t, feed, u) || u in items)
  {
    var es := Inputs(items, render);
    InputGuids(items, render);
    BatchKnows(t, like, feed, es, FirstDateMissing(es), now, u);
    if items != [] {
      var (t1, n) := UpsertBatch(t, like, feed, es, FirstDateMissing(es), now);
      assert Known(RefreshFeeds(t1, {feed}), feed, u) <==> Known(t1, feed, u);
    } else {
      assert UpsertEntries(t, like, feed, es, now) == Ok((t, 0));
    }
  }

  /** What a crawl offers the entry table depends only on the state it starts from. */
  function Offered(raw: Raw, r: Request): seq<string> {
    match ExtractSelectorPage(raw, r.page, r.cfg, r.outcome) case Ok(c) => c.items case Err(_) => []
  }

  lemma CrawlTables(site: Site, like: Like, feed: Id, r: Request)
    requires r.fault.StateWriteFails? || r.fault.NoFault?
    ensures
      var w := UpsertEntries(site.tables, like, feed, Inputs(Offered(site.raw, r), r.render), r.now);
      CrawlOne(site, like, feed, r).tables == if w.Ok? then w.value.0 else site.tables
  {
    assert UpsertEntries(site.tables, like, feed, [], r.now) == Ok((site.tables, 0));
  }

  /** An entry holding what was rendered for the URL at this moment. */
  ghost predicate Stores(t: Tables, feed: Id, r: Request, u: string) {
    exists i :: i in t.entries && t.entries[i].feed == feed && t.entries[i].guid == u
      && t.entries[i].article == r.render(u).article
      && t.entries[i].updatedAt == r.render(u).updatedAt && t.entries[i].fetchedAt == r.now
  }

  lemma LastInputIs(items: seq<string>, render: Renderer, u: string) returns (l: nat)
    requires RendersUrls(render) && u in items
    ensures LastItem(Inputs(items, render), l, u) && Inputs(items, render)[l] == render(u)
  {
    var es := Inputs(items, render);
    var n :| 0 <= n < |items| && items[n] == u;
    assert es[n] in es && es[n].guid == u;
    LastItemExists(es, u);
    l :| LastItem(es, l, u);
    assert es[l] == render(items[l]) && items[l] == u;
  }

  lemma StoredAfter(t: Tables, cur: Entry, i: Id, feed: Id, es: seq<EntryInput>, now: int, l: nat)
    requires EntryAfter(t, cur, i, feed, es, now) && LastItem(es, l, cur.guid) && cur.feed == feed
    requires i in t.entries ==> t.entries[i].feed == feed && t.entries[i].guid == cur.guid
    ensures cur.article == es[l].article && cur.updatedAt == es[l].updatedAt && cur.fetchedAt == now
  {
  }

  lemma WritingStores(t: Tables, like: Like, feed: Id, items: seq<string>, r: Request, u: string)
    requires RendersUrls(r.render) && Valid(t) && feed in t.feeds && u in items
    ensures
      var w := UpsertEntries(t, like, feed, Inputs(items, r.render), r.now);
      w.Ok? && Stores(w.value.0, feed, r, u)
  {
    var es := Inputs(items, r.render);
    var w := UpsertEntries(t, like, feed, es, r.now).value.0;
    WritingKnows(t, like, feed, items, r.render, r.now, u);
    RefetchUndisturbed(t, like, feed, es, r.now);
    var i :| i in w.entries && w.entries[i].feed == feed && w.entries[i].guid == u;
    BatchEntries(t, like, feed, es, FirstDateMissing(es), r.now, i);
    var l := LastInputIs(items, r.render, u);
    StoredAfter(t, w.entries[i], i, feed, es, r.now, l);
  }

  /**
   * A crawl stores every entry it decided on unless that write fails, and its new state unless
   * either write fails.
   */
  lemma CrawlStores(site: Site, like: Like, feed: Id, r: Request, u: string)
    requires RendersUrls(r.render) && Valid(site.tables) && feed in site.tables.feeds
    ensures
      var c := ExtractSelectorPage(site.raw, r.page, r.cfg, r.outcome);
      var after := CrawlOne(site, like, feed, r);
      && (c.Err? || r.fault.EntryWriteFails? ==> after == site)
      && (c.Ok? && !r.fault.EntryWriteFails? && u in c.value.items ==> Stores(after.tables, feed, r, u))
      && (c.Ok? && r.fault.NoFault? && c.value.next.Some? ==> after.raw == Stored(c.value.next.value))
      && ((c.Ok? && c.value.next.None?) || r.fault.StateWriteFails? ==> after.raw == site.raw)
  {
    var c := ExtractSelectorPage(site.raw, r.page, r.cfg, r.outcome);
    if c.Ok? {
      WritingKnows(site.tables, like, feed, c.value.items, r.render, r.now, u);
      if u in c.value.items { WritingStores(site.tables, like, feed, c.value.items, r, u); }
    }
  }

  /** A crawl that changed the state column wrote its entries first, and that write succeeded. */
  lemma StateImpliesEntries(site: Site, like: Like, feed: Id, r: Request, u: string)
    requires RendersUrls(r.render) && CrawlOne(site, like, feed, r).raw != site.raw
    requires u in Offered(site.raw, r)
    ensures Known(CrawlOne(site, like, feed, r).tables, feed, u)
  {
    WritingKnows(site.tables, like, feed, Offered(site.raw, r), r.render, r.now, u);
  }

  /** Whatever state the source was in, a URL becomes seen by import only if its entry was written. */
  lemma SeenOnlyAfterWritten(site: Site, like: Like, feed: Id, r: Request, u: string)
    requires RendersUrls(r.render) && (site.raw.Stored? || u in Offered(site.raw, r))
    requires u in History(CrawlOne(site, like, feed, r).raw) && u !in History(site.raw)
    ensures Known(CrawlOne(site, like, feed, r).tables, feed, u)
  {
    if site.raw.Stored? {
      var unseen := U.Without(Candidates(r.page), History(site.raw));
      var rep := Report(site.raw, unseen, r.cfg, r.outcome);
      assert CrawlOne(site, like, feed, r).raw == Stored(S.Commit(Parse(site.raw), rep));
      S.SeenComesFrom(Parse(site.raw), rep, u);
      assert u in Offered(site.raw, r);
    }
    StateImpliesEntries(site, like, feed, r, u);
  }

  /**
   * What one crawl makes seen was written, or it was sealed: listed, but not imported, on a first
   * crawl or a resync.
   */
  lemma SeenIsWrittenOrSealed(site: Site, like: Like, feed: Id, r: Request, u: string)
    requires RendersUrls(r.render)
    requires u in History(CrawlOne(site, like, feed, r).raw) && u !in History(site.raw)
    ensures
      || Known(CrawlOne(site, like, feed, r).tables, feed, u)
      || (!site.raw.Stored? && u in Candidates(r.page) && u !in Offered(site.raw, r))
  {
    if site.raw.Stored? || u in Offered(site.raw, r) {
      SeenOnlyAfterWritten(site, like, feed, r, u);
    } else if site.raw.Missing? {
      var unseen := U.Without(Candidates(r.page), {});
      var rep := Report(site.raw, unseen, r.cfg, r.outcome);
      assert CrawlOne(site, like, feed, r).raw == Stored(S.Commit(None, rep));
      S.SeenComesFrom(None, rep, u);
      U.WithoutMembers(Candidates(r.page), {});
    }
  }

  /**
   * After a lost state write the next crawl re-offers the same URLs, and they land on the rows
   * already there: no second row, no change to anyone's read marks or counts, and the state
   * ends where it would have without the failure.
   */
  lemma LostStateWriteHeals(site: Site, like: Like, feed: Id, r: Request, now: int)
    requires RendersUrls(r.render) && feed in site.tables.feeds
    requires Valid(site.tables) && r.fault.NoFault?
    ensures
      var lost := CrawlOne(site, like, feed, r.(fault := StateWriteFails));
      var healed := CrawlOne(lost, like, feed, r.(now := now));
      && lost.raw == site.raw
      && healed.raw == CrawlOne(site, like, feed, r).raw
      && healed.tables.entries.Keys == lost.tables.entries.Keys
      && healed.tables.states == lost.tables.states
      && healed.tables.subs == lost.tables.subs
  {
    var lost := CrawlOne(site, like, feed, r.(fault := StateWriteFails));
    var again := r.(now := now);
    var items := Offered(site.raw, r);
    CrawlTables(site, like, feed, r.(fault := StateWriteFails));
    CrawlTables(lost, like, feed, again);
    KnownAfterWrite(site.tables, like, feed, items, r.render, r.now);
    RewriteAddsNothing(lost.tables, like, feed, items, r.render, now);
  }

  lemma KnownAfterWrite(t: Tables, like: Like, feed: Id, items: seq<string>, render: Renderer, now: int)
    requires RendersUrls(render) && Valid(t) && feed in t.feeds
    ensures
      var w := UpsertEntries(t, like, feed, Inputs(items, render), now);
      && w.Ok? && feed in w.value.0.feeds
      && forall u :: u in items ==> Known(w.value.0, feed, u)
  {
    var es := Inputs(items, render);
    BatchKeeps(t, like, feed, es, FirstDateMissing(es), now);
    forall u | u in items ensures Known(UpsertEntries(t, like, feed, es, now).value.0, feed, u) {
      WritingKnows(t, like, feed, items, render, now, u);
    }
  }

  lemma RewriteAddsNothing(t: Tables, like: Like, feed: Id, items: seq<string>, render: Renderer, now: int)
    requires RendersUrls(render) && feed in t.feeds
    requires forall u :: u in items ==> Known(t, feed, u)
    ensures
      var w := UpsertEntries(t, like, feed, Inputs(items, render), now);
      && w.Ok? && w.value.1 == 0
      && w.value.0.entries.Keys == t.entries.Keys
      && w.value.0.states == t.states && w.value.0.subs == t.subs
  {
    var es := Inputs(items, render);
    forall e | e in es ensures Known(t, feed, e.guid) {
      var i :| 0 <= i < |es| && es[i] == e;
      assert items[i] in items;
    }
    KnownBatchAddsNothing(t, like, feed, es, FirstDateMissing(es), now);
  }

  /**
   * The crawl after a lost state write, whatever page, configuration and fetch outcomes it meets:
   * entries already written keep their identity, their dates of publication and creation and their
   * readers, whatever is rewritten of their articles, and no URL written before gets a second entry.
   */
  lemma RetryNeverDuplicates(site: Site, like: Like, feed: Id, r: Request, retry: Request)
    requires RendersUrls(r.render) && RendersUrls(retry.render)
    requires Valid(site.tables) && feed in site.tables.feeds && r.fault.StateWriteFails?
    ensures
      var lost := CrawlOne(site, like, feed, r).tables;
      var next := CrawlOne(CrawlOne(site, like, feed, r), like, feed, retry).tables;
      && Undisturbed(lost, next)
      && (forall i :: i in next.entries && i !in lost.entries ==>
            && next.entries[i].feed == feed
            && next.entries[i].guid in Offered(site.raw, retry)
            && next.entries[i].guid !in Offered(site.raw, r))
  {
    var lost := CrawlOne(site, like, feed, r);
    CrawlTables(site, like, feed, r);
    KnownAfterWrite(site.tables, like, feed, Offered(site.raw, r), r.render, r.now);
    CrawlKeepsTablesValid(site, like, feed, r);
    if !retry.fault.EntryWriteFails? {
      CrawlTables(lost, like, feed, retry);
      var items := Offered(site.raw, retry);
      var es := Inputs(items, retry.render);
      RefetchUndisturbed(lost.tables, like, feed, es, retry.now);
      InputGuids(items, retry.render);
      var next := UpsertEntries(lost.tables, like, feed, es, retry.now).value.0;
      forall i | i in next.entries && i !in lost.tables.entries
        ensures next.entries[i].feed == feed && next.entries[i].guid in items
        ensures next.entries[i].guid !in Offered(site.raw, r)
      {
        NewEntriesAreNew(lost.tables, like, feed, es, FirstDateMissing(es), retry.now, i);
      }
    }
  }

  /** A retry that offers nothing but what was offered before adds no entry and changes no state row and no count. */
  lemma RetryOfWrittenChangesNothing(site: Site, like: Like, feed: Id, r: Request, retry: Request)
    requires RendersUrls(r.render) && RendersUrls(retry.render)
    requires Valid(site.tables) && feed in site.tables.feeds && r.fault.StateWriteFails?
    requires forall u :: u in Offered(site.raw, retry) ==> u in Offered(site.raw, r)
    ensures
      var lost := CrawlOne(site, like, feed, r).tables;
      var next := CrawlOne(CrawlOne(site, like, feed, r), like, feed, retry).tables;
      next.entries.Keys == lost.entries.Keys && next.states == lost.states && next.subs == lost.subs
  {
    var lost := CrawlOne(site, like, feed, r);
    CrawlTables(site, like, feed, r);
    KnownAfterWrite(site.tables, like, feed, Offered(site.raw, r), r.render, r.now);
    if !retry.fault.EntryWriteFails? {
      CrawlTables(lost, like, feed, retry);
      RewriteAddsNothing(lost.tables, like, feed, Offered(site.raw, retry), retry.render, retry.now);
    }
  }

  /** Whatever happens in between, a feed never has two rows for one URL. */
  lemma CrawlKeepsTablesValid(site: Site, like: Like, feed: Id, r: Request)
    requires Valid(site.tables)
    ensures Valid(CrawlOne(site, like, feed, r).tables)
  {
    UpsertEntriesKeeps(site.tables, like, feed, Inputs(Offered(site.raw, r), r.render), r.now);
    if !r.fault.EntryWriteFails? { CrawlTables(site, like, feed, r); }
  }

  // ---------------------------------------------------------------- any run, any faults

  function CrawlAll(site: Site, like: Like, feed: Id, rs: seq<Request>): Site {
    if rs == [] then site
    else CrawlOne(CrawlAll(site, like, feed, rs[..|rs| - 1]), like, feed, rs[|rs| - 1])
  }

  /** A crawl forgets no entry of its feed. */
  lemma CrawlRemembers(site: Site, like: Like, feed: Id, r: Request, u: string)
    requires RendersUrls(r.render) && Known(site.tables, feed, u)
    ensures Known(CrawlOne(site, like, feed, r).tables, feed, u)
  {
    var es := Inputs(Offered(site.raw, r), r.render);
    if !r.fault.EntryWriteFails? {
      CrawlTables(site, like, feed, r);
      if es != [] && feed in site.tables.feeds {
        BatchKnows(site.tables, like, feed, es, FirstDateMissing(es), r.now, u);
        var t1 := UpsertBatch(site.tables, like, feed, es, FirstDateMissing(es), r.now).0;
        assert Known(RefreshFeeds(t1, {feed}), feed, u) <==> Known(t1, feed, u);
      }
    }
  }

  /** The crawl that first stored a state sealed `u`: listed then, and not among its imports. */
  ghost predicate SealedBy(site: Site, like: Like, feed: Id, rs: seq<Request>, i: nat, u: string)
    requires i < |rs|
  {
    var before := CrawlAll(site, like, feed, rs[..i]);
    && !before.raw.Stored? && CrawlOne(before, like, feed, rs[i]).raw.Stored?
    && u in Candidates(rs[i].page) && u !in Offered(before.raw, rs[i])
  }

  lemma SealedEarlier(site: Site, like: Like, feed: Id, rs: seq<Request>, n: nat, i: nat, u: string)
    requires i < n <= |rs| && SealedBy(site, like, feed, rs[..n], i, u)
    ensures SealedBy(site, like, feed, rs, i, u)
  {
    assert rs[..n][..i] == rs[..i];
  }

  /**
   * Over any run of crawls, from any state, with any pages and any faults: a URL in the history
   * was there at the start, or its entry was written, or the first crawl to store a state sealed it.
   */
  lemma {:induction false} SeenOnlyIfWritten(site: Site, like: Like, feed: Id, rs: seq<Request>, u: string)
    requires forall r :: r in rs ==> RendersUrls(r.render)
    requires u in History(CrawlAll(site, like, feed, rs).raw)
    ensures
      || u in History(site.raw)
      || Known(CrawlAll(site, like, feed, rs).tables, feed, u)
      || (!site.raw.Stored? && exists i :: 0 <= i < |rs| && SealedBy(site, like, feed, rs, i, u))
  {
    if rs != [] {
      var n := |rs| - 1;
      assert rs[n] in rs && forall r :: r in rs[..n] ==> r in rs;
      var before := CrawlAll(site, like, feed, rs[..n]);
      if u in History(before.raw) {
        SeenOnlyIfWritten(site, like, feed, rs[..n], u);
        if Known(before.tables, feed, u) {
          CrawlRemembers(before, like, feed, rs[n], u);
        } else if u !in History(site.raw) {
          var i :| 0 <= i < n && SealedBy(site, like, feed, rs[..n], i, u);
          SealedEarlier(site, like, feed, rs, n, i, u);
        }
      } else {
        SeenIsWrittenOrSealed(before, like, feed, rs[n], u);
        if !before.raw.Stored? { UnstoredFromTheStart(site, like, feed, rs[..n]); }
        if !Known(CrawlOne(before, like, feed, rs[n]).tables, feed, u) {
          assert SealedBy(site, like, feed, rs, n, u);
        }
      }
    }
  }

  /** A state once stored stays stored. */
  lemma {:induction false} UnstoredFromTheStart(site: Site, like: Like, feed: Id, rs: seq<Request>)
    ensures !CrawlAll(site, like, feed, rs).raw.Stored? ==> !site.raw.Stored?
  {
    if rs != [] {
      UnstoredFromTheStart(site, like, feed, rs[..|rs| - 1]);
    }
  }

  // ---------------------------------------------------------------- failed entry writes

  function Succeeding(rs: seq<Request>): seq<Request> {
    if rs == [] then []
    else
      var n := |rs| - 1;
      Succeeding(rs[..n]) + if rs[n].fault.EntryWriteFails? then [] else [rs[n]]
  }

  /** Crawls whose entry write failed might as well not have happened, anywhere in a run. */
  lemma {:induction false} FailedCrawlsLeaveNoTrace(site: Site, like: Like, feed: Id, rs: seq<Request>)
    ensures CrawlAll(site, like, feed, rs) == CrawlAll(site, like, feed, Succeeding(rs))
  {
    if rs != [] {
      var n := |rs| - 1;
      FailedCrawlsLeaveNoTrace(site, like, feed, rs[..n]);
      if rs[n].fault.EntryWriteFails? {
        assert Succeeding(rs) == Succeeding(rs[..n]) + [] == Succeeding(rs[..n]);
      } else {
        assert Succeeding(rs)[..|Succeeding(rs)| - 1] == Succeeding(rs[..n]);
      }
    }
  }

  // ---------------------------------------------------------------- the writes on live objects

  /** The row of scrape_sources that holds a source's state. */
  class SourceRow {
    var raw: Raw

    constructor (raw: Raw)
      ensures this.raw == raw
    {
      this.raw := raw;
    }
  }

  /** What is on disk at some moment of a crawl can be trusted: nothing seen is missing its entry. */
  ghost predicate Trustworthy(start: Site, at: Site, feed: Id, r: Request) {
    forall u :: u in History(at.raw) && u !in History(start.raw) ==>
      || Known(at.tables, feed, u)
      || (!start.raw.Stored? && u in Candidates(r.page) && u !in Offered(start.raw, r))
  }

  /** Between two moments, either the tables or the state column changed, not both. */
  predicate OneWrite(a: Site, b: Site) { a.tables == b.tables || a.raw == b.raw }

  lemma AllTrustworthy(site: Site, like: Like, feed: Id, r: Request)
    requires RendersUrls(r.render)
    ensures Trustworthy(site, CrawlOne(site, like, feed, r), feed, r)
  {
    var end := CrawlOne(site, like, feed, r);
    forall u | u in History(end.raw) && u !in History(site.raw)
      ensures Known(end.tables, feed, u) || (!site.raw.Stored? && u in Candidates(r.page) && u !in Offered(site.raw, r))
    {
      SeenIsWrittenOrSealed(site, like, feed, r, u);
    }
  }

  /**
   * One crawl on a live store and source row. `moments` is what is on disk before, between and
   * after its writes: stopping the program at any of them leaves a trustworthy history.
   */
  method CrawlStep(st: L.Store, row: SourceRow, feed: Id, r: Request) returns (ghost moments: seq<Site>)
    requires RendersUrls(r.render)
    modifies st, row
    ensures Site(st.View(), row.raw) == CrawlOne(old(Site(st.View(), row.raw)), st.like, feed, r)
    ensures moments != [] && moments[0] == old(Site(st.View(), row.raw))
    ensures moments[|moments| - 1] == Site(st.View(), row.raw)
    ensures forall i :: 0 < i < |moments| ==> OneWrite(moments[i - 1], moments[i])
    ensures forall i :: 0 <= i < |moments| ==> Trustworthy(moments[0], moments[i], feed, r)
  {
    ghost var start := Site(st.View(), row.raw);
    moments := [start];
    AllTrustworthy(start, st.like, feed, r);
    var extracted := ExtractSelectorPage(row.raw, r.page, r.cfg, r.outcome);
    if extracted.Err? || r.fault.EntryWriteFails? {
      return;
    }
    var c := extracted.value;
    var written := st.UpsertEntries(feed, Inputs(c.items, r.render), r.now);
    if written.Err? {
      return;
    }
    moments := moments + [Site(st.View(), row.raw)];
    if c.next.Some? && !r.fault.StateWriteFails? {
      row.raw := Stored(c.next.value);
      moments := moments + [Site(st.View(), row.raw)];
    }
  }
}
