/**
 * Every write transaction of internal/store keeps the invariant of `Tables`, so every state
 * reachable by any interleaving of them satisfies it.
 */
module StoreInvariant {
  import opened Wrappers
  import opened Tables
  import opened Transactions
  import opened RowIds

  // ---------------------------------------------------------------- upserting entries

  /** What the batch loop keeps: everything but the counts of the feed being written. */
  ghost predicate ValidButCounts(t: Tables, stale: set<Id>) {
    FanOut(t) && CopiesExact(t) && CountsExactOutside(t, stale) && GuidsUnique(t) && References(t)
  }

  lemma RefreshCompletes(t: Tables, feeds: set<Id>)
    requires ValidButCounts(t, feeds)
    ensures Valid(RefreshFeeds(t, feeds))
    ensures RefreshFeeds(t, feeds) == RecountAll(t)
  {
    LocalRefreshSuffices(t, feeds);
    RecountAllIsExact(t);
  }

  /** Which rows a fan-out adds: one for each subscriber, keyed by the fresh entry. */
  lemma FanOutRowsAre(t: Tables, like: Like, feed: Id, id: Id, e: EntryInput, readAt: Option<int>, now: int)
    ensures
      var rows := FanOutRows(t, like, feed, id, e, readAt, now);
      && (forall k :: k in rows <==> k.entry == id && UserFeed(k.user, feed) in t.subs)
      && (forall k :: k in rows ==>
            rows[k].feed == feed && rows[k].publishedAt == e.publishedAt && rows[k].createdAt == now)
  {
    var rows := FanOutRows(t, like, feed, id, e, readAt, now);
    forall k ensures k in rows <==> k.entry == id && UserFeed(k.user, feed) in t.subs {
      if k.entry == id && UserFeed(k.user, feed) in t.subs {
        var f := UserFeed(k.user, feed);
        assert f in t.subs && f.feed == feed && UserEntry(f.user, id) == k;
      }
    }
  }

  lemma InsertKeepsFanOut(t: Tables, like: Like, feed: Id, e: EntryInput, readAt: Option<int>, now: int)
    requires FanOut(t) && CopiesExact(t)
    ensures FanOut(InsertEntry(t, like, feed, e, readAt, now))
    ensures CopiesExact(InsertEntry(t, like, feed, e, readAt, now))
  {
    FanOutRowsAre(t, like, feed, NextId(t.entries.Keys), e, readAt, now);
  }

  lemma InsertKeepsCounts(t: Tables, like: Like, feed: Id, e: EntryInput, readAt: Option<int>, now: int)
    requires FanOut(t) && CountsExactOutside(t, {feed})
    ensures CountsExactOutside(InsertEntry(t, like, feed, e, readAt, now), {feed})
  {
    var r := InsertEntry(t, like, feed, e, readAt, now);
    var id := NextId(t.entries.Keys);
    FanOutRowsAre(t, like, feed, id, e, readAt, now);
    forall k | k in r.subs && k.feed != feed ensures CountExact(r, k) {
      assert CountExact(t, k);
      forall x | x in t.states ensures x in r.states && r.states[x] == t.states[x] {
        assert x.entry != id;
      }
      SameRowsSameCount(t.states, r.states, k.user, k.feed);
    }
  }

  lemma InsertKeeps(t: Tables, like: Like, feed: Id, e: EntryInput, readAt: Option<int>, now: int)
    requires ValidButCounts(t, {feed}) && feed in t.feeds && !Known(t, feed, e.guid)
    ensures ValidButCounts(InsertEntry(t, like, feed, e, readAt, now), {feed})
  {
    InsertKeepsFanOut(t, like, feed, e, readAt, now);
    InsertKeepsCounts(t, like, feed, e, readAt, now);
  }

  lemma UpdateKeepsCount(t: Tables, feed: Id, e: EntryInput, now: int, k: UserFeed)
    requires k in t.subs && CountExact(t, k)
    ensures CountExact(UpdateEntry(t, feed, e, now), k)
  {
  }

  lemma UpdateKeepsRows(t: Tables, feed: Id, e: EntryInput, now: int)
    requires FanOut(t) && CopiesExact(t) && GuidsUnique(t) && References(t)
    ensures
      var r := UpdateEntry(t, feed, e, now);
      FanOut(r) && CopiesExact(r) && GuidsUnique(r) && References(r)
  {
    assert UpdateEntry(t, feed, e, now).entries.Keys == t.entries.Keys;
  }

  lemma UpdateKeeps(t: Tables, feed: Id, e: EntryInput, now: int)
    requires ValidButCounts(t, {feed})
    ensures ValidButCounts(UpdateEntry(t, feed, e, now), {feed})
    ensures CountsExact(t) ==> CountsExact(UpdateEntry(t, feed, e, now))
  {
    UpdateKeepsRows(t, feed, e, now);
    forall k | k in t.subs && CountExact(t, k) ensures CountExact(UpdateEntry(t, feed, e, now), k) {
      UpdateKeepsCount(t, feed, e, now, k);
    }
  }

  lemma {:induction false} BatchKeeps(t: Tables, like: Like, feed: Id, es: seq<EntryInput>, first: string, now: int)
    requires Valid(t) && feed in t.feeds
    ensures
      var (r, n) := UpsertBatch(t, like, feed, es, first, now);
      && ValidButCounts(r, {feed}) && (n == 0 ==> CountsExact(r))
      && r.feeds == t.feeds && r.subs == t.subs && r.words == t.words && r.pins == t.pins
  {
    if es != [] {
      var init, e := es[..|es| - 1], es[|es| - 1];
      BatchKeeps(t, like, feed, init, first, now);
      var (t1, n) := UpsertBatch(t, like, feed, init, first, now);
      if Known(t1, feed, e.guid) {
        UpdateKeeps(t1, feed, e, now);
      } else {
        InsertKeeps(t1, like, feed, e, InitialReadAt(e, first, now), now);
      }
    }
  }

  lemma UpsertEntriesKeeps(t: Tables, like: Like, feed: Id, es: seq<EntryInput>, now: int)
    requires Valid(t)
    ensures var r := UpsertEntries(t, like, feed, es, now);
      r.Ok? ==> Valid(r.value.0)
  {
    if es != [] && feed in t.feeds {
      BatchKeeps(t, like, feed, es, FirstDateMissing(es), now);
      var (t1, n) := UpsertBatch(t, like, feed, es, FirstDateMissing(es), now);
      if n > 0 { RefreshCompletes(t1, {feed}); }
    }
  }

  // ---------------------------------------------------------------- marking read

  lemma MarkKeepsRows(t: Tables, rows: set<UserEntry>, now: int)
    requires FanOut(t) && CopiesExact(t)
    ensures
      var r := t.(states := MarkRows(t.states, rows, now));
      FanOut(r) && CopiesExact(r)
  {
    var r := t.(states := MarkRows(t.states, rows, now));
    assert r.states.Keys == t.states.Keys;
    forall k: UserEntry
      ensures k in r.states <==> k.entry in r.entries && UserFeed(k.user, r.entries[k.entry].feed) in r.subs
    {
      assert k in r.states <==> k in t.states;
    }
  }

  lemma MarkKeepsCounts(t: Tables, rows: set<UserEntry>, now: int, feeds: set<Id>)
    requires CountsExact(t) && FeedsOf(t.states, rows) <= feeds
    ensures CountsExactOutside(t.(states := MarkRows(t.states, rows, now)), feeds)
  {
    var r := t.(states := MarkRows(t.states, rows, now));
    forall k | k in r.subs && k.feed !in feeds ensures CountExact(r, k) {
      assert CountExact(t, k);
      forall x | x in t.states && t.states[x].feed == k.feed ensures x !in rows {
        assert t.states[x].feed !in feeds;
      }
      SameRowsSameCount(t.states, r.states, k.user, k.feed);
    }
  }

  lemma MarkKeeps(t: Tables, rows: set<UserEntry>, now: int, feeds: set<Id>)
    requires Valid(t) && FeedsOf(t.states, rows) <= feeds
    ensures ValidButCounts(t.(states := MarkRows(t.states, rows, now)), feeds)
    ensures Valid(RefreshFeeds(t.(states := MarkRows(t.states, rows, now)), feeds))
  {
    MarkKeepsRows(t, rows, now);
    MarkKeepsCounts(t, rows, now, feeds);
    RefreshCompletes(t.(states := MarkRows(t.states, rows, now)), feeds);
  }

  lemma MarkReadKeeps(t: Tables, user: Id, ids: seq<Id>, now: int)
    requires Valid(t)
    ensures Valid(MarkEntriesRead(t, user, ids, now).0)
    ensures Valid(MarkAllEntriesRead(t, user, now).0)
  {
    var rows := RowsToRead(t, user, set i | i in ids);
    MarkKeeps(t, rows, now, FeedsOf(t.states, rows));
    var all := AllRowsToRead(t, user);
    MarkKeeps(t, all, now, FeedsOf(t.states, all));
  }

  lemma MarkNothing(states: map<UserEntry, EntryState>, now: int)
    ensures MarkRows(states, {}, now) == states
  {
  }

  lemma FeedRowsAreInFeed(t: Tables, user: Id, feed: Id, before: int)
    ensures FeedsOf(t.states, FeedRowsToRead(t, user, feed, before)) <= {feed}
  {
  }

  lemma MarkFeedReadKeeps(t: Tables, user: Id, feed: Id, before: int, now: int)
    requires Valid(t)
    ensures Valid(MarkFeedReadBefore(t, user, feed, before, now).0)
  {
    var rows := FeedRowsToRead(t, user, feed, before);
    if rows == {} {
      MarkNothing(t.states, now);
      assert MarkFeedReadBefore(t, user, feed, before, now).0 == t;
    } else {
      FeedRowsAreInFeed(t, user, feed, before);
      MarkKeeps(t, rows, now, {feed});
    }
  }

  // ---------------------------------------------------------------- subscriptions

  lemma BacklogIs(t: Tables, like: Like, user: Id, feed: Id)
    ensures
      var rows := Backlog(t, like, user, feed);
      && (forall k :: k in rows <==> k.user == user && k.entry in t.entries && t.entries[k.entry].feed == feed)
      && (forall k :: k in rows ==>
            && rows[k].feed == feed && rows[k].publishedAt == t.entries[k.entry].publishedAt
            && rows[k].createdAt == t.entries[k.entry].createdAt)
  {
    var rows := Backlog(t, like, user, feed);
    forall k ensures k in rows <==> k.user == user && k.entry in t.entries && t.entries[k.entry].feed == feed {
      if k.user == user && k.entry in t.entries && t.entries[k.entry].feed == feed {
        assert UserEntry(user, k.entry) == k;
      }
    }
  }

  function Subscribed(t: Tables, like: Like, user: Id, feed: Id, sub: Subscription): Tables {
    t.(subs := t.subs[UserFeed(user, feed) := sub], states := Backlog(t, like, user, feed) + t.states)
  }

  lemma SubscribeKeepsFanOut(t: Tables, like: Like, user: Id, feed: Id, sub: Subscription)
    requires FanOut(t) && CopiesExact(t)
    ensures FanOut(Subscribed(t, like, user, feed, sub)) && CopiesExact(Subscribed(t, like, user, feed, sub))
  {
    BacklogIs(t, like, user, feed);
    var r := Subscribed(t, like, user, feed, sub);
    forall k: UserEntry
      ensures k in r.states <==> k.entry in r.entries && UserFeed(k.user, r.entries[k.entry].feed) in r.subs
    {
      assert k in r.states <==> k in Backlog(t, like, user, feed) || k in t.states;
    }
  }

  lemma SubscribeKeepsCounts(t: Tables, like: Like, user: Id, feed: Id, sub: Subscription)
    requires CountsExactOutside(t, {feed})
    ensures CountsExactOutside(Subscribed(t, like, user, feed, sub), {feed})
  {
    BacklogIs(t, like, user, feed);
    var r := Subscribed(t, like, user, feed, sub);
    forall k | k in r.subs && k.feed != feed ensures CountExact(r, k) {
      assert CountExact(t, k);
      SameRowsSameCount(t.states, r.states, k.user, k.feed);
    }
  }

  lemma SubscribeKeepsReferences(t: Tables, like: Like, user: Id, feed: Id, sub: Subscription)
    requires References(t) && GuidsUnique(t) && feed in t.feeds
    ensures References(Subscribed(t, like, user, feed, sub)) && GuidsUnique(Subscribed(t, like, user, feed, sub))
  {
  }

  lemma ExactOutside(t: Tables, feeds: set<Id>)
    requires CountsExact(t)
    ensures CountsExactOutside(t, feeds)
  {
  }

  lemma SubscribedIsValidButCounts(t: Tables, like: Like, user: Id, feed: Id, sub: Subscription)
    requires Valid(t) && feed in t.feeds
    ensures ValidButCounts(Subscribed(t, like, user, feed, sub), {feed})
  {
    ExactOutside(t, {feed});
    SubscribeKeepsFanOut(t, like, user, feed, sub);
    SubscribeKeepsReferences(t, like, user, feed, sub);
    SubscribeKeepsCounts(t, like, user, feed, sub);
  }

  lemma SubscribeIs(t: Tables, like: Like, user: Id, feed: Id, folder: Option<Id>, title: string, now: int)
    requires feed in t.feeds
    ensures
      var key := UserFeed(user, feed);
      var sub := if key in t.subs then t.subs[key].(folder := folder, title := title)
                 else Subscription(folder, title, 0, 0, now);
      UpsertSubscription(t, like, user, feed, folder, title, now) ==
      Ok(RefreshFeeds(Subscribed(t, like, user, feed, sub), {feed}))
  {
  }

  lemma SubscribeKeeps(t: Tables, like: Like, user: Id, feed: Id, folder: Option<Id>, title: string, now: int)
    requires Valid(t)
    ensures var r := UpsertSubscription(t, like, user, feed, folder, title, now);
      r.Ok? ==> Valid(r.value)
  {
    if feed in t.feeds {
      var key := UserFeed(user, feed);
      var sub := if key in t.subs then t.subs[key].(folder := folder, title := title)
                 else Subscription(folder, title, 0, 0, now);
      SubscribeIs(t, like, user, feed, folder, title, now);
      SubscribedIsValidButCounts(t, like, user, feed, sub);
      RefreshCompletes(Subscribed(t, like, user, feed, sub), {feed});
    }
  }

  lemma UnsubscribeKeeps(t: Tables, user: Id, feed: Id)
    requires Valid(t)
    ensures var r := Unsubscribe(t, user, feed);
      r.Ok? ==> Valid(r.value)
  {
    var r := Unsubscribe(t, user, feed);
    if r.Ok? {
      var t1 := r.value;
      forall k | k in t1.subs ensures CountExact(t1, k) {
        assert CountExact(t, k);
        SameRowsSameCount(t.states, t1.states, k.user, k.feed);
      }
    }
  }

  // ---------------------------------------------------------------- ignore words

  /** Retitling, rating and refiling a subscription leave rows and counts alone. */
  lemma UpdateSubscriptionKeeps(t: Tables, user: Id, feed: Id, p: Patch)
    requires Valid(t)
    ensures UpdateSubscription(t, user, feed, p).Ok? ==> Valid(UpdateSubscription(t, user, feed, p).value)
  {
    var k := UserFeed(user, feed);
    if k in t.subs {
      var r := t.(subs := t.subs[k := Patched(t.subs[k], p)]);
      forall x | x in r.subs ensures CountExact(r, x) {
        assert CountExact(t, x);
      }
    }
  }

  lemma WordsKeep(t: Tables, user: Id, word: string, id: Id)
    requires Valid(t)
    ensures InsertWord(t, user, word).Ok? ==> Valid(InsertWord(t, user, word).value)
    ensures DeleteWord(t, user, id).Ok? ==> Valid(DeleteWord(t, user, id).value)
  {
    forall words { CountsIgnoreWords(t, words); }
  }

  lemma CountsIgnoreWords(t: Tables, words: map<Id, Word>)
    ensures CountsExact(t) ==> CountsExact(t.(words := words))
  {
    forall k | k in t.subs && CountExact(t, k) ensures CountExact(t.(words := words), k) {}
  }

  lemma ReflagKeepsRows(t: Tables, like: Like, user: Id)
    requires FanOut(t) && CopiesExact(t)
    ensures
      var r := t.(states := Reflagged(t, like, user));
      FanOut(r) && CopiesExact(r)
  {
    var r := t.(states := Reflagged(t, like, user));
    forall k: UserEntry
      ensures k in r.states <==> k.entry in r.entries && UserFeed(k.user, r.entries[k.entry].feed) in r.subs
    {
      assert k in r.states <==> k in t.states;
    }
  }

  lemma RecomputeKeepsCounts(t: Tables, like: Like, user: Id)
    requires CountsExact(t)
    ensures CountsExact(RecomputeIgnored(t, like, user))
  {
    var r := RecomputeIgnored(t, like, user);
    forall k | k in r.subs ensures CountExact(r, k) {
      if k.user != user {
        assert CountExact(t, k);
        SameRowsSameCount(t.states, r.states, k.user, k.feed);
      }
    }
  }

  lemma RecomputeKeeps(t: Tables, like: Like, user: Id)
    requires Valid(t)
    ensures Valid(RecomputeIgnored(t, like, user))
  {
    ReflagKeepsRows(t, like, user);
    RecomputeKeepsCounts(t, like, user);
  }

  // ---------------------------------------------------------------- garbage collection

  lemma DeleteKeeps(t: Tables, doomed: set<Id>)
    requires Valid(t)
    ensures ValidButCounts(DeleteEntries(t, doomed), EntryFeeds(t, doomed))
    ensures Valid(DeleteEntriesAndRefresh(t, doomed).0)
  {
    var r := DeleteEntries(t, doomed);
    var feeds := EntryFeeds(t, doomed);
    forall k | k in r.subs && k.feed !in feeds ensures CountExact(r, k) {
      assert CountExact(t, k);
      forall x | x in t.states && t.states[x].feed == k.feed ensures x.entry !in doomed {
        assert t.entries[x.entry].feed !in feeds;
      }
      SameRowsSameCount(t.states, r.states, k.user, k.feed);
    }
    RefreshCompletes(r, feeds);
  }

  /** An orphan feed has no subscribers, so the cascade reaches no state row and no count. */
  lemma OrphansHaveNoRows(t: Tables, before: int)
    requires Valid(t)
    ensures
      var r := DeleteOrphanFeeds(t, before).0;
      && r.subs == t.subs && r.states == t.states
      && (forall i :: i in t.entries && i !in r.entries ==> forall u :: UserEntry(u, i) !in t.states)
  {
    var doomed := OrphanFeeds(t, before);
    var gone := set i | i in t.entries && t.entries[i].feed in doomed;
    forall k | k in t.states ensures k.entry !in gone {
      assert UserFeed(k.user, t.entries[k.entry].feed) in t.subs;
    }
    assert DeleteEntries(t, gone).states == t.states;
  }

  lemma DeleteOrphansKeeps(t: Tables, before: int)
    requires Valid(t)
    ensures Valid(DeleteOrphanFeeds(t, before).0)
  {
    OrphansHaveNoRows(t, before);
    var r := DeleteOrphanFeeds(t, before).0;
    forall k | k in r.subs ensures CountExact(r, k) { assert CountExact(t, k); }
    forall k: UserEntry
      ensures k in r.states <==> k.entry in r.entries && UserFeed(k.user, r.entries[k.entry].feed) in r.subs
    {
      assert k in r.states <==> k in t.states;
    }
  }

  // ---------------------------------------------------------------- whole runs

  /** One committed transaction. `AddIgnoreWord` and `RemoveIgnoreWord` are two each. */
  datatype Step =
    | NewFeed(url: string, now: int)
    | Fetched(feed: Id, now: int)
    | Upsert(feed: Id, es: seq<EntryInput>, now: int)
    | MarkRead(user: Id, ids: seq<Id>, now: int)
    | MarkAllRead(user: Id, now: int)
    | MarkFeedRead(user: Id, feed: Id, before: int, now: int)
    | Subscribe(user: Id, feed: Id, folder: Option<Id>, title: string, now: int)
    | Refile(user: Id, feed: Id, patch: Patch)
    | Leave(user: Id, feed: Id)
    | WordIn(user: Id, word: string)
    | WordOut(user: Id, id: Id)
    | Recompute(user: Id)
    | Pin(user: Id, entry: Id)
    | Unpin(user: Id, entry: Id)
    | DeleteOld(before: int)
    | Trim(limit: int)
    | DeleteOrphans(before: int)

  /** A failed transaction rolls back. */
  function Committed(r: Result<Tables, Error>, t: Tables): Tables {
    match r case Ok(t1) => t1 case Err(_) => t
  }

  function Apply(t: Tables, like: Like, s: Step): Tables {
    match s
    case NewFeed(url, now) => UpsertFeed(t, url, now)
    case Fetched(feed, now) => RecordFetch(t, feed, now)
    case Upsert(feed, es, now) =>
      (match UpsertEntries(t, like, feed, es, now) case Ok(r) => r.0 case Err(_) => t)
    case MarkRead(user, ids, now) => MarkEntriesRead(t, user, ids, now).0
    case MarkAllRead(user, now) => MarkAllEntriesRead(t, user, now).0
    case MarkFeedRead(user, feed, before, now) => MarkFeedReadBefore(t, user, feed, before, now).0
    case Subscribe(user, feed, folder, title, now) =>
      Committed(UpsertSubscription(t, like, user, feed, folder, title, now), t)
    case Refile(user, feed, patch) => Committed(UpdateSubscription(t, user, feed, patch), t)
    case Leave(user, feed) => Committed(Unsubscribe(t, user, feed), t)
    case WordIn(user, word) => Committed(InsertWord(t, user, word), t)
    case WordOut(user, id) => Committed(DeleteWord(t, user, id), t)
    case Recompute(user) => RecomputeIgnored(t, like, user)
    case Pin(user, entry) => Committed(AddPin(t, user, entry), t)
    case Unpin(user, entry) => Committed(RemovePin(t, user, entry), t)
    case DeleteOld(before) => DeleteOldReadEntries(t, before).0
    case Trim(limit) => TrimExcessEntries(t, limit).0
    case DeleteOrphans(before) => DeleteOrphanFeeds(t, before).0
  }

  lemma CountsIgnoreFeedsAndPins(t: Tables, feeds: map<Id, Feed>, pins: set<UserEntry>)
    requires CountsExact(t)
    ensures CountsExact(t.(feeds := feeds)) && CountsExact(t.(pins := pins))
  {
    forall k | k in t.subs ensures CountExact(t.(feeds := feeds), k) && CountExact(t.(pins := pins), k) {
      assert CountExact(t, k);
    }
  }

  lemma FeedRowsKeep(t: Tables, url: string, feed: Id, now: int)
    requires Valid(t)
    ensures Valid(UpsertFeed(t, url, now)) && Valid(RecordFetch(t, feed, now))
  {
    CountsIgnoreFeedsAndPins(t, UpsertFeed(t, url, now).feeds, {});
    CountsIgnoreFeedsAndPins(t, RecordFetch(t, feed, now).feeds, {});
  }

  lemma PinsKeep(t: Tables, user: Id, entry: Id)
    requires Valid(t)
    ensures AddPin(t, user, entry).Ok? ==> Valid(AddPin(t, user, entry).value)
    ensures RemovePin(t, user, entry).Ok? ==> Valid(RemovePin(t, user, entry).value)
  {
    CountsIgnoreFeedsAndPins(t, map[], t.pins + {UserEntry(user, entry)});
    CountsIgnoreFeedsAndPins(t, map[], t.pins - {UserEntry(user, entry)});
  }

  /** Steps of the crawler and the collectors, which no user takes. */
  predicate OfTheSystem(s: Step) {
    s.NewFeed? || s.Fetched? || s.Upsert? || s.DeleteOld? || s.Trim? || s.DeleteOrphans?
  }

  lemma SystemStepKeeps(t: Tables, like: Like, s: Step)
    requires Valid(t) && OfTheSystem(s)
    ensures Valid(Apply(t, like, s))
  {
    match s
    case NewFeed(url, now) => FeedRowsKeep(t, url, 0, now);
    case Fetched(feed, now) => FeedRowsKeep(t, "", feed, now);
    case Upsert(feed, es, now) => UpsertEntriesKeeps(t, like, feed, es, now);
    case DeleteOld(before) => DeleteKeeps(t, OldReadEntries(t, before));
    case Trim(limit) => DeleteKeeps(t, ExcessEntries(t, limit));
    case DeleteOrphans(before) => DeleteOrphansKeeps(t, before);
  }

  lemma UserStepKeeps(t: Tables, like: Like, s: Step)
    requires Valid(t) && !OfTheSystem(s)
    ensures Valid(Apply(t, like, s))
  {
    match s
    case MarkRead(user, ids, now) => MarkReadKeeps(t, user, ids, now);
    case MarkAllRead(user, now) => MarkReadKeeps(t, user, [], now);
    case MarkFeedRead(user, feed, before, now) => MarkFeedReadKeeps(t, user, feed, before, now);
    case Subscribe(user, feed, folder, title, now) => SubscribeKeeps(t, like, user, feed, folder, title, now);
    case Refile(user, feed, patch) => UpdateSubscriptionKeeps(t, user, feed, patch);
    case Leave(user, feed) => UnsubscribeKeeps(t, user, feed);
    case WordIn(user, word) => WordsKeep(t, user, word, 0);
    case WordOut(user, id) => WordsKeep(t, user, "", id);
    case Recompute(user) => RecomputeKeeps(t, like, user);
    case Pin(user, entry) => PinsKeep(t, user, entry);
    case Unpin(user, entry) => PinsKeep(t, user, entry);
  }

  lemma StepKeepsValid(t: Tables, like: Like, s: Step)
    requires Valid(t)
    ensures Valid(Apply(t, like, s))
  {
    if OfTheSystem(s) { SystemStepKeeps(t, like, s); } else { UserStepKeeps(t, like, s); }
  }

  function Run(t: Tables, like: Like, steps: seq<Step>): Tables
    decreases |steps|
  {
    if steps == [] then t else Run(Apply(t, like, steps[0]), like, steps[1..])
  }

  lemma {:induction false} RunKeepsValid(t: Tables, like: Like, steps: seq<Step>)
    requires Valid(t)
    ensures Valid(Run(t, like, steps))
    decreases |steps|
  {
    if steps != [] {
      StepKeepsValid(t, like, steps[0]);
      RunKeepsValid(Apply(t, like, steps[0]), like, steps[1..]);
    }
  }

  /** In every reachable state the fan-out is exact and every cached count equals a recount. */
  lemma EveryReachableStateIsValid(like: Like, steps: seq<Step>)
    ensures
      var t := Run(EMPTY, like, steps);
      && (forall k: UserEntry ::
            k in t.states <==> k.entry in t.entries && UserFeed(k.user, t.entries[k.entry].feed) in t.subs)
      && (forall k :: k in t.states ==>
            && t.states[k].feed == t.entries[k.entry].feed
            && t.states[k].publishedAt == t.entries[k.entry].publishedAt
            && t.states[k].createdAt == t.entries[k.entry].createdAt)
      && (forall k :: k in t.subs ==> t.subs[k].unreadCount == Recount(t.states, k.user, k.feed))
  {
    RunKeepsValid(EMPTY, like, steps);
    var t := Run(EMPTY, like, steps);
    forall k | k in t.subs ensures t.subs[k].unreadCount == Recount(t.states, k.user, k.feed) {
      assert CountExact(t, k);
    }
  }
}
