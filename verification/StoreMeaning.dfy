/** What the transactions of internal/store do, beyond keeping the invariant. */
module StoreMeaning {
  import opened Wrappers
  import opened Tables
  import opened Transactions
  import opened StoreInvariant
  import opened RowIds

  // ---------------------------------------------------------------- upserting

  lemma OneMore(a: set<Id>, b: set<Id>, id: Id)
    requires a <= b && id !in b
    ensures |(b + {id}) - a| == |b - a| + 1
  {
    assert (b + {id}) - a == (b - a) + {id};
  }

  lemma InsertedKeys(t: Tables, like: Like, feed: Id, e: EntryInput, readAt: Option<int>, now: int)
    ensures
      var id := NextId(t.entries.Keys);
      id !in t.entries && InsertEntry(t, like, feed, e, readAt, now).entries.Keys == t.entries.Keys + {id}
  {
  }

  lemma InsertAddsOne(t: Tables, t1: Tables, like: Like, feed: Id, e: EntryInput, readAt: Option<int>, now: int)
    requires t.entries.Keys <= t1.entries.Keys
    ensures
      var r := InsertEntry(t1, like, feed, e, readAt, now);
      && t.entries.Keys <= r.entries.Keys
      && |r.entries.Keys - t.entries.Keys| == |t1.entries.Keys - t.entries.Keys| + 1
  {
    InsertedKeys(t1, like, feed, e, readAt, now);
    OneMore(t.entries.Keys, t1.entries.Keys, NextId(t1.entries.Keys));
  }

  /** How many entries a batch adds. */
  lemma {:induction false} BatchAdds(t: Tables, like: Like, feed: Id, es: seq<EntryInput>, first: string, now: int)
    ensures
      var (r, n) := UpsertBatch(t, like, feed, es, first, now);
      t.entries.Keys <= r.entries.Keys && n == |r.entries.Keys - t.entries.Keys|
  {
    if es == [] {
      assert t.entries.Keys - t.entries.Keys == {};
    } else {
      var init, e := es[..|es| - 1], es[|es| - 1];
      BatchAdds(t, like, feed, init, first, now);
      var t1 := UpsertBatch(t, like, feed, init, first, now).0;
      if Known(t1, feed, e.guid) {
        assert UpdateEntry(t1, feed, e, now).entries.Keys == t1.entries.Keys;
      } else {
        InsertAddsOne(t, t1, like, feed, e, InitialReadAt(e, first, now), now);
      }
    }
  }

  /** `UpsertEntries` returns the number of new rows and never removes one. */
  lemma UpsertCounts(t: Tables, like: Like, feed: Id, es: seq<EntryInput>, now: int)
    ensures
      var r := UpsertEntries(t, like, feed, es, now);
      r.Ok? ==> t.entries.Keys <= r.value.0.entries.Keys
                && r.value.1 == |r.value.0.entries.Keys - t.entries.Keys|
  {
    if es == [] {
      assert t.entries.Keys - t.entries.Keys == {};
    } else {
      BatchAdds(t, like, feed, es, FirstDateMissing(es), now);
    }
  }

  /** An article survives a batch with its identity, dates and readers untouched. */
  ghost predicate Undisturbed(t: Tables, r: Tables) {
    && (forall i :: i in t.entries ==>
          && i in r.entries
          && r.entries[i].feed == t.entries[i].feed && r.entries[i].guid == t.entries[i].guid
          && r.entries[i].publishedAt == t.entries[i].publishedAt
          && r.entries[i].createdAt == t.entries[i].createdAt)
    && (forall k :: k in t.states ==> k in r.states && r.states[k] == t.states[k])
  }

  lemma UpsertUndisturbed(t: Tables, like: Like, feed: Id, e: EntryInput, first: string, now: int)
    requires FanOut(t)
    ensures Undisturbed(t, UpsertEntry(t, like, feed, e, first, now))
  {
    if !Known(t, feed, e.guid) {
      var id := NextId(t.entries.Keys);
      FanOutRowsAre(t, like, feed, id, e, InitialReadAt(e, first, now), now);
      forall k | k in t.states ensures k.entry != id {}
    }
  }

  lemma UndisturbedTrans(t: Tables, t1: Tables, r: Tables)
    requires Undisturbed(t, t1) && Undisturbed(t1, r)
    ensures Undisturbed(t, r)
  {
  }

  lemma {:induction false} BatchUndisturbed(
    t: Tables, like: Like, feed: Id, es: seq<EntryInput>, first: string, now: int)
    requires Valid(t) && feed in t.feeds
    ensures Undisturbed(t, UpsertBatch(t, like, feed, es, first, now).0)
  {
    if es != [] {
      var init, e := es[..|es| - 1], es[|es| - 1];
      BatchUndisturbed(t, like, feed, init, first, now);
      BatchKeeps(t, like, feed, init, first, now);
      var t1 := UpsertBatch(t, like, feed, init, first, now).0;
      UpsertUndisturbed(t1, like, feed, e, first, now);
      UndisturbedTrans(t, t1, UpsertEntry(t1, like, feed, e, first, now));
    }
  }

  /** Re-fetching never clobbers a read mark, moves an entry or forgets one. */
  lemma RefetchUndisturbed(t: Tables, like: Like, feed: Id, es: seq<EntryInput>, now: int)
    requires Valid(t)
    ensures
      var r := UpsertEntries(t, like, feed, es, now);
      r.Ok? ==> Undisturbed(t, r.value.0)
  {
    if es != [] && feed in t.feeds {
      BatchUndisturbed(t, like, feed, es, FirstDateMissing(es), now);
    }
  }

  /** A batch of known GUIDs creates no row and touches no reader and no count. */
  lemma {:induction false} KnownBatchAddsNothing(
    t: Tables, like: Like, feed: Id, es: seq<EntryInput>, first: string, now: int)
    requires forall e :: e in es ==> Known(t, feed, e.guid)
    ensures
      var (r, n) := UpsertBatch(t, like, feed, es, first, now);
      && n == 0 && r.states == t.states && r.subs == t.subs && r.entries.Keys == t.entries.Keys
      && (forall g :: Known(r, feed, g) <==> Known(t, feed, g))
  {
    if es != [] {
      var init, e := es[..|es| - 1], es[|es| - 1];
      assert e in es && forall x :: x in init ==> x in es;
      KnownBatchAddsNothing(t, like, feed, init, first, now);
      var t1 := UpsertBatch(t, like, feed, init, first, now).0;
      UpdateKnows(t1, feed, e, now);
    }
  }

  lemma UpdateKnows(t: Tables, feed: Id, e: EntryInput, now: int)
    ensures forall g :: Known(UpdateEntry(t, feed, e, now), feed, g) <==> Known(t, feed, g)
  {
    var r := UpdateEntry(t, feed, e, now);
    assert r.entries.Keys == t.entries.Keys;
    forall g ensures Known(r, feed, g) <==> Known(t, feed, g) {
      if i :| i in t.entries && t.entries[i].feed == feed && t.entries[i].guid == g {
        assert i in r.entries && r.entries[i].feed == feed && r.entries[i].guid == g;
      }
      if i :| i in r.entries && r.entries[i].feed == feed && r.entries[i].guid == g {
        assert i in t.entries && t.entries[i].feed == feed && t.entries[i].guid == g;
      }
    }
  }

  function Guids(es: seq<EntryInput>): set<string> {
    set e | e in es :: e.guid
  }

  /** After a batch the known GUIDs are those known before and those in it. */
  lemma {:induction false} BatchKnows(
    t: Tables, like: Like, feed: Id, es: seq<EntryInput>, first: string, now: int, g: string)
    ensures Known(UpsertBatch(t, like, feed, es, first, now).0, feed, g) <==> Known(t, feed, g) || g in Guids(es)
  {
    if es != [] {
      var init, e := es[..|es| - 1], es[|es| - 1];
      assert es == init + [e];
      assert Guids(es) == Guids(init) + {e.guid};
      BatchKnows(t, like, feed, init, first, now, g);
      var t1 := UpsertBatch(t, like, feed, init, first, now).0;
      if Known(t1, feed, e.guid) {
        UpdateKnows(t1, feed, e, now);
      } else {
        InsertKnows(t1, like, feed, e, InitialReadAt(e, first, now), now);
      }
    }
  }

  lemma InsertKnows(t: Tables, like: Like, feed: Id, e: EntryInput, readAt: Option<int>, now: int)
    ensures forall g :: Known(InsertEntry(t, like, feed, e, readAt, now), feed, g) <==> Known(t, feed, g) || g == e.guid
  {
    var r := InsertEntry(t, like, feed, e, readAt, now);
    var id := NextId(t.entries.Keys);
    forall g ensures Known(r, feed, g) <==> Known(t, feed, g) || g == e.guid {
      if i :| i in t.entries && t.entries[i].feed == feed && t.entries[i].guid == g {
        assert i in r.entries && r.entries[i].feed == feed && r.entries[i].guid == g;
      }
      if g == e.guid { assert id in r.entries && r.entries[id].feed == feed && r.entries[id].guid == g; }
    }
  }

  /** What a batch adds are entries of its feed, with GUIDs from the batch that were not known before. */
  lemma {:induction false} NewEntriesAreNew(
    t: Tables, like: Like, feed: Id, es: seq<EntryInput>, first: string, now: int, i: Id)
    requires i in UpsertBatch(t, like, feed, es, first, now).0.entries && i !in t.entries
    ensures
      var e := UpsertBatch(t, like, feed, es, first, now).0.entries[i];
      e.feed == feed && e.guid in Guids(es) && !Known(t, feed, e.guid)
  {
    var init, e := es[..|es| - 1], es[|es| - 1];
    assert es == init + [e];
    assert Guids(es) == Guids(init) + {e.guid};
    var t1 := UpsertBatch(t, like, feed, init, first, now).0;
    if i in t1.entries {
      NewEntriesAreNew(t, like, feed, init, first, now, i);
    } else {
      BatchKnows(t, like, feed, init, first, now, e.guid);
    }
  }

  // ---------------------------------------------------------------- dateless backlogs

  /** New rows that arrived unread. */
  function NewUnread(t: Tables, r: Tables): set<Id> {
    set k | k in r.states && k.entry !in t.entries && r.states[k].readAt.None? :: k.entry
  }

  function DatedGuids(es: seq<EntryInput>): set<string> {
    set e | e in es && !e.dateMissing :: e.guid
  }

  /** Unread arrivals are dated, or the first item without a date. */
  ghost predicate ArrivesUnread(t: Tables, feed: Id, i: Id, dated: set<string>, first: string) {
    && i in t.entries && t.entries[i].feed == feed
    && (t.entries[i].guid == first || t.entries[i].guid in dated)
  }

  lemma InsertedUnread(t: Tables, t1: Tables, like: Like, feed: Id, e: EntryInput, first: string, now: int,
                       dated: set<string>)
    requires FanOut(t1) && (!e.dateMissing ==> e.guid in dated)
    requires forall i :: i in NewUnread(t, t1) ==> ArrivesUnread(t1, feed, i, dated, first)
    ensures
      var r := InsertEntry(t1, like, feed, e, InitialReadAt(e, first, now), now);
      forall i :: i in NewUnread(t, r) ==> ArrivesUnread(r, feed, i, dated, first)
  {
    var id, readAt := NextId(t1.entries.Keys), InitialReadAt(e, first, now);
    var r := InsertEntry(t1, like, feed, e, readAt, now);
    var rows := FanOutRows(t1, like, feed, id, e, readAt, now);
    FanOutRowsAre(t1, like, feed, id, e, readAt, now);
    forall i | i in NewUnread(t, r) ensures ArrivesUnread(r, feed, i, dated, first) {
      var k :| k in r.states && k.entry == i && i !in t.entries && r.states[k].readAt.None?;
      if k !in rows { assert k in t1.states && i in NewUnread(t, t1); }
    }
  }

  lemma {:induction false} DatelessUnread(t: Tables, like: Like, feed: Id, es: seq<EntryInput>, first: string, now: int,
                                          dated: set<string>)
    requires Valid(t) && feed in t.feeds && DatedGuids(es) <= dated
    ensures
      var r := UpsertBatch(t, like, feed, es, first, now).0;
      forall i :: i in NewUnread(t, r) ==> ArrivesUnread(r, feed, i, dated, first)
  {
    if es != [] {
      var init, e := es[..|es| - 1], es[|es| - 1];
      assert e in es && forall x :: x in init ==> x in es;
      assert !e.dateMissing ==> e.guid in DatedGuids(es);
      DatelessUnread(t, like, feed, init, first, now, dated);
      BatchKeeps(t, like, feed, init, first, now);
      var t1 := UpsertBatch(t, like, feed, init, first, now).0;
      if Known(t1, feed, e.guid) {
        assert NewUnread(t, UpdateEntry(t1, feed, e, now)) == NewUnread(t, t1);
      } else {
        InsertedUnread(t, t1, like, feed, e, first, now, dated);
      }
    }
  }

  /**
   * However many items without a date a crawl brings, and whatever dated ones come with them, at
   * most one new entry arrives unread that no dated item stands for.
   */
  lemma DatelessBacklogSuppressed(t: Tables, like: Like, feed: Id, es: seq<EntryInput>, now: int, i: Id, j: Id)
    requires Valid(t) && UpsertEntries(t, like, feed, es, now).Ok?
    requires
      var r := UpsertEntries(t, like, feed, es, now).value.0;
      && i in NewUnread(t, r) && i in r.entries && r.entries[i].guid !in DatedGuids(es)
      && j in NewUnread(t, r) && j in r.entries && r.entries[j].guid !in DatedGuids(es)
    ensures i == j
  {
    if es != [] {
      var first := FirstDateMissing(es);
      var t1 := UpsertBatch(t, like, feed, es, first, now).0;
      assert NewUnread(t, t1) == NewUnread(t, UpsertEntries(t, like, feed, es, now).value.0);
      DatelessUnread(t, like, feed, es, first, now, DatedGuids(es));
      BatchKeeps(t, like, feed, es, first, now);
    }
  }

  // ---------------------------------------------------------------- marking read

  /** The rows of one subscription among some rows. */
  function Within(t: Tables, rows: set<UserEntry>, k: UserFeed): set<UserEntry> {
    set x | x in rows && x in UnreadRows(t.states, k.user, k.feed)
  }

  lemma MarkedRows(t: Tables, rows: set<UserEntry>, now: int, k: UserFeed)
    ensures
      UnreadRows(MarkRows(t.states, rows, now), k.user, k.feed)
        == UnreadRows(t.states, k.user, k.feed) - Within(t, rows, k)
    ensures Recount(MarkRows(t.states, rows, now), k.user, k.feed)
      == Recount(t.states, k.user, k.feed) - |Within(t, rows, k)|
  {
    var was, sub := UnreadRows(t.states, k.user, k.feed), Within(t, rows, k);
    assert UnreadRows(MarkRows(t.states, rows, now), k.user, k.feed) == was - sub;
    assert was == (was - sub) + sub;
  }

  /**
   * Marking rows read moves exactly those rows, and each subscription's count drops by exactly
   * its share of the rows it was counting.
   */
  lemma MarkingConserves(t: Tables, rows: set<UserEntry>, now: int, feeds: set<Id>, k: UserFeed)
    requires Valid(t) && FeedsOf(t.states, rows) <= feeds && k in t.subs
    ensures
      var r := RefreshFeeds(t.(states := MarkRows(t.states, rows, now)), feeds);
      && k in r.subs
      && r.subs[k].unreadCount == t.subs[k].unreadCount - |Within(t, rows, k)|
  {
    MarkKeeps(t, rows, now, feeds);
    MarkedRows(t, rows, now, k);
    assert CountExact(t, k);
    assert CountExact(RefreshFeeds(t.(states := MarkRows(t.states, rows, now)), feeds), k);
  }

  /** `MarkEntriesRead` changes only the caller's unread rows among the listed ids, and counts them. */
  lemma MarkEntriesReadMeaning(t: Tables, user: Id, ids: seq<Id>, now: int)
    ensures
      var (r, n) := MarkEntriesRead(t, user, ids, now);
      && r.states.Keys == t.states.Keys
      && n == |set x | x in t.states && x.user == user && x.entry in ids && t.states[x].readAt.None?|
      && r.(states := t.states, subs := t.subs) == t
      && (forall x :: x in t.states ==>
            r.states[x] == if x.user == user && x.entry in ids && t.states[x].readAt.None?
                           then t.states[x].(readAt := Some(now)) else t.states[x])
  {
    var rows := RowsToRead(t, user, set i | i in ids);
    assert rows == set x | x in t.states && x.user == user && x.entry in ids && t.states[x].readAt.None?;
    if ids == [] { assert rows == {}; }
  }

  /** Each count drops by exactly the rows it loses, and no other count moves. */
  lemma MarkEntriesReadConserves(t: Tables, user: Id, ids: seq<Id>, now: int, k: UserFeed)
    requires Valid(t) && k in t.subs
    ensures
      var r := MarkEntriesRead(t, user, ids, now).0;
      && k in r.subs
      && r.subs[k].unreadCount
           == t.subs[k].unreadCount - |Within(t, RowsToRead(t, user, set i | i in ids), k)|
      && (k.user != user ==> r.subs[k].unreadCount == t.subs[k].unreadCount)
  {
    var rows := RowsToRead(t, user, set i | i in ids);
    if ids == [] {
      assert Within(t, rows, k) == {};
    } else {
      MarkingConserves(t, rows, now, FeedsOf(t.states, rows), k);
    }
    if k.user != user { assert Within(t, rows, k) == {}; }
  }

  lemma MarkAllRows(t: Tables, user: Id, now: int)
    ensures
      var (r, n) := MarkAllEntriesRead(t, user, now);
      && r.states.Keys == t.states.Keys
      && (forall x :: x in t.states ==>
            r.states[x] == if x.user == user && t.states[x].readAt.None?
                           then t.states[x].(readAt := Some(now)) else t.states[x])
      && n == |set x | x in t.states && x.user == user && t.states[x].readAt.None?|
      && r.(states := t.states, subs := t.subs) == t
  {
  }

  /** `MarkAllEntriesRead` marks and counts all the user has unread; their counts are zero, the others stay. */
  lemma MarkAllMeaning(t: Tables, user: Id, now: int, k: UserFeed)
    requires Valid(t) && k in t.subs
    ensures
      var (r, n) := MarkAllEntriesRead(t, user, now);
      && r.states.Keys == t.states.Keys
      && (forall x :: x in t.states ==>
            r.states[x] == if x.user == user && t.states[x].readAt.None?
                           then t.states[x].(readAt := Some(now)) else t.states[x])
      && n == |set x | x in t.states && x.user == user && t.states[x].readAt.None?|
      && r.(states := t.states, subs := t.subs) == t
      && k in r.subs && r.subs[k].unreadCount == if k.user == user then 0 else t.subs[k].unreadCount
  {
    var rows := AllRowsToRead(t, user);
    MarkAllRows(t, user, now);
    MarkingConserves(t, rows, now, FeedsOf(t.states, rows), k);
    assert CountExact(t, k);
    if k.user == user {
      assert Within(t, rows, k) == UnreadRows(t.states, k.user, k.feed);
    } else {
      assert Within(t, rows, k) == {};
    }
  }

  lemma MarkFeedRows(t: Tables, user: Id, feed: Id, before: int, now: int)
    ensures
      var (r, n) := MarkFeedReadBefore(t, user, feed, before, now);
      && r.states.Keys == t.states.Keys
      && (forall x :: x in t.states ==>
            r.states[x] == if x.user == user && t.states[x].feed == feed && t.states[x].readAt.None?
                              && (before <= 0 || t.states[x].publishedAt <= before)
                           then t.states[x].(readAt := Some(now)) else t.states[x])
      && n == |set x | x in t.states && x.user == user && t.states[x].feed == feed && t.states[x].readAt.None?
                       && (before <= 0 || t.states[x].publishedAt <= before)|
      && r.(states := t.states, subs := t.subs) == t
  {
  }

  lemma MarkFeedElsewhere(t: Tables, user: Id, feed: Id, before: int, now: int, k: UserFeed)
    requires CountsExact(t) && k in t.subs && k != UserFeed(user, feed)
    ensures
      var r := MarkFeedReadBefore(t, user, feed, before, now).0;
      k in r.subs && r.subs[k] == t.subs[k]
  {
    var states := MarkRows(t.states, FeedRowsToRead(t, user, feed, before), now);
    assert CountExact(t, k);
    SameRowsSameCount(t.states, states, k.user, k.feed);
  }

  lemma MarkFeedLeft(t: Tables, user: Id, feed: Id, before: int, now: int)
    ensures
      UnreadRows(MarkRows(t.states, FeedRowsToRead(t, user, feed, before), now), user, feed) ==
      set x | x in UnreadRows(t.states, user, feed) && before > 0 && t.states[x].publishedAt > before
  {
  }

  lemma MarkFeedColumns(t: Tables, user: Id, feed: Id, before: int, now: int, k: UserFeed)
    requires k in t.subs
    ensures
      var r := MarkFeedReadBefore(t, user, feed, before, now).0;
      k in r.subs && r.subs[k] == t.subs[k].(unreadCount := r.subs[k].unreadCount)
    ensures MarkFeedReadBefore(t, user, feed, before, now).0.states
      == MarkRows(t.states, FeedRowsToRead(t, user, feed, before), now)
  {
  }

  lemma MarkFeedHere(t: Tables, user: Id, feed: Id, before: int, now: int)
    requires Valid(t) && UserFeed(user, feed) in t.subs
    ensures
      var r := MarkFeedReadBefore(t, user, feed, before, now).0;
      var left := set x | x in UnreadRows(t.states, user, feed) && before > 0 && t.states[x].publishedAt > before;
      && UnreadRows(r.states, user, feed) == left
      && UserFeed(user, feed) in r.subs
      && r.subs[UserFeed(user, feed)] == t.subs[UserFeed(user, feed)].(unreadCount := |left|)
  {
    var r := MarkFeedReadBefore(t, user, feed, before, now).0;
    MarkFeedReadKeeps(t, user, feed, before, now);
    MarkFeedColumns(t, user, feed, before, now, UserFeed(user, feed));
    MarkFeedLeft(t, user, feed, before, now);
    assert CountExact(r, UserFeed(user, feed));
  }

  /**
   * `MarkFeedReadBefore` changes only the caller's unread rows of the feed published by then, and
   * counts them. It leaves unread what was published later, and touches no other subscription.
   */
  lemma MarkFeedMeaning(t: Tables, user: Id, feed: Id, before: int, now: int, k: UserFeed)
    requires Valid(t) && k in t.subs
    ensures
      var (r, n) := MarkFeedReadBefore(t, user, feed, before, now);
      var left := set x | x in UnreadRows(t.states, user, feed) && before > 0 && t.states[x].publishedAt > before;
      && r.states.Keys == t.states.Keys
      && (forall x :: x in t.states ==>
            r.states[x] == if x.user == user && t.states[x].feed == feed && t.states[x].readAt.None?
                              && (before <= 0 || t.states[x].publishedAt <= before)
                           then t.states[x].(readAt := Some(now)) else t.states[x])
      && n == |set x | x in t.states && x.user == user && t.states[x].feed == feed && t.states[x].readAt.None?
                       && (before <= 0 || t.states[x].publishedAt <= before)|
      && r.(states := t.states, subs := t.subs) == t
      && r.subs.Keys == t.subs.Keys
      && r.subs[k] == if k == UserFeed(user, feed) then t.subs[k].(unreadCount := |left|) else t.subs[k]
  {
    MarkFeedRows(t, user, feed, before, now);
    if k == UserFeed(user, feed) {
      MarkFeedHere(t, user, feed, before, now);
    } else {
      MarkFeedElsewhere(t, user, feed, before, now, k);
    }
  }

  // ---------------------------------------------------------------- subscribing

  lemma SubscribedRows(t: Tables, like: Like, user: Id, feed: Id)
    requires Valid(t) && UserFeed(user, feed) !in t.subs
    ensures
      var states := Backlog(t, like, user, feed) + t.states;
      && (forall k :: k in t.states ==> !(k.user == user && t.states[k].feed == feed))
      && (forall k :: k in states && k !in t.states ==> k.user == user && states[k].feed == feed)
  {
    BacklogIs(t, like, user, feed);
  }

  lemma UnsubscribedStates(t: Tables, like: Like, user: Id, feed: Id)
    requires Valid(t) && UserFeed(user, feed) !in t.subs
    ensures
      var states := Backlog(t, like, user, feed) + t.states;
      (map r | r in states && !(r.user == user && states[r].feed == feed) :: states[r]) == t.states
  {
    SubscribedRows(t, like, user, feed);
  }

  /** Refreshing counts that were right leaves them, and the added subscription comes off again. */
  lemma RefreshThenRemove(t: Tables, states: map<UserEntry, EntryState>, key: UserFeed, sub: Subscription, feed: Id)
    requires key !in t.subs
    requires forall k :: k in t.subs ==> t.subs[k].unreadCount == Recount(states, k.user, k.feed)
    ensures RefreshFeeds(t.(subs := t.subs[key := sub], states := states), {feed}).subs - {key} == t.subs
  {
  }

  lemma UnsubscribedSubs(t: Tables, like: Like, user: Id, feed: Id, sub: Subscription)
    requires Valid(t) && UserFeed(user, feed) !in t.subs
    ensures RefreshFeeds(Subscribed(t, like, user, feed, sub), {feed}).subs - {UserFeed(user, feed)} == t.subs
  {
    var states := Backlog(t, like, user, feed) + t.states;
    forall k | k in t.subs ensures t.subs[k].unreadCount == Recount(states, k.user, k.feed) {
      UndoneCount(t, like, user, feed, k);
    }
    RefreshThenRemove(t, states, UserFeed(user, feed), sub, feed);
  }

  /** Unsubscribing undoes a first subscription completely. */
  lemma UnsubscribeUndoesSubscribe(
    t: Tables, like: Like, user: Id, feed: Id, folder: Option<Id>, title: string, now: int)
    requires Valid(t) && feed in t.feeds && UserFeed(user, feed) !in t.subs
    ensures
      var s := UpsertSubscription(t, like, user, feed, folder, title, now);
      s.Ok? && Unsubscribe(s.value, user, feed) == Ok(t)
  {
    UnsubscribedStates(t, like, user, feed);
    UnsubscribedSubs(t, like, user, feed, Subscription(folder, title, 0, 0, now));
    assert UpsertSubscription(t, like, user, feed, folder, title, now)
      == Ok(RefreshFeeds(Subscribed(t, like, user, feed, Subscription(folder, title, 0, 0, now)), {feed}));
  }

  /** One user's backlog does not change what the others' subscriptions count. */
  lemma UndoneCount(t: Tables, like: Like, user: Id, feed: Id, k: UserFeed)
    requires Valid(t) && UserFeed(user, feed) !in t.subs && k in t.subs
    ensures Recount(Backlog(t, like, user, feed) + t.states, k.user, k.feed) == t.subs[k].unreadCount
  {
    assert CountExact(t, k);
    SubscribedRows(t, like, user, feed);
    SameRowsSameCount(t.states, Backlog(t, like, user, feed) + t.states, k.user, k.feed);
  }

  /** The backlog of a feed already followed has been fanned out. */
  lemma BacklogIsThere(t: Tables, like: Like, user: Id, feed: Id)
    requires FanOut(t) && UserFeed(user, feed) in t.subs
    ensures Backlog(t, like, user, feed) + t.states == t.states
  {
    BacklogIs(t, like, user, feed);
    forall k | k in Backlog(t, like, user, feed) ensures k in t.states {}
  }

  lemma RefreshExact(t: Tables, subs: map<UserFeed, Subscription>, feeds: set<Id>)
    requires forall k :: k in subs ==> subs[k].unreadCount == Recount(t.states, k.user, k.feed)
    ensures RefreshFeeds(t.(subs := subs), feeds) == t.(subs := subs)
  {
    assert RefreshFeeds(t.(subs := subs), feeds).subs == subs;
  }

  /** Subscribing again only refiles: no read mark, count or row changes. */
  lemma ResubscribeOnlyRefiles(t: Tables, like: Like, user: Id, feed: Id, folder: Option<Id>, title: string, now: int)
    requires Valid(t) && UserFeed(user, feed) in t.subs
    ensures
      var k := UserFeed(user, feed);
      UpsertSubscription(t, like, user, feed, folder, title, now)
        == Ok(t.(subs := t.subs[k := t.subs[k].(folder := folder, title := title)]))
  {
    var key := UserFeed(user, feed);
    var subs := t.subs[key := t.subs[key].(folder := folder, title := title)];
    BacklogIsThere(t, like, user, feed);
    forall k | k in subs ensures subs[k].unreadCount == Recount(t.states, k.user, k.feed) {
      assert CountExact(t, k);
    }
    RefreshExact(t, subs, {feed});
  }

  /** The patch that writes back what a subscription holds. */
  function PatchBack(s: Subscription): Patch {
    Patch(Some(s.title), Some(s.rating), Some(if s.folder.Some? then s.folder.value else 0))
  }

  /** Patching a subscription and writing its old columns back restores every table. */
  lemma PatchBackRestores(t: Tables, user: Id, feed: Id, p: Patch)
    requires UserFeed(user, feed) in t.subs && t.subs[UserFeed(user, feed)].folder != Some(0)
    ensures
      var r := UpdateSubscription(t, user, feed, p);
      r.Ok? && UpdateSubscription(r.value, user, feed, PatchBack(t.subs[UserFeed(user, feed)])) == Ok(t)
  {
    var r := UpdateSubscription(t, user, feed, p).value;
    var back := UpdateSubscription(r, user, feed, PatchBack(t.subs[UserFeed(user, feed)])).value;
    assert back.subs == t.subs;
  }

  /** The entries of a feed that none of the user's ignore words occur in. */
  function Visible(t: Tables, like: Like, user: Id, feed: Id): set<Id> {
    set i | i in t.entries && t.entries[i].feed == feed && !Ignored(like, t.words, user, t.entries[i].article)
  }

  /** A new subscriber sees the whole backlog, unread but for what their own words hide. */
  lemma NewSubscriberSeesBacklog(t: Tables, like: Like, user: Id, feed: Id, folder: Option<Id>, title: string, now: int)
    requires Valid(t) && feed in t.feeds && UserFeed(user, feed) !in t.subs
    ensures
      var s := UpsertSubscription(t, like, user, feed, folder, title, now);
      && s.Ok? && UserFeed(user, feed) in s.value.subs
      && s.value.subs[UserFeed(user, feed)].unreadCount == |Visible(t, like, user, feed)|
  {
    var s := UpsertSubscription(t, like, user, feed, folder, title, now).value;
    SubscribeKeeps(t, like, user, feed, folder, title, now);
    BacklogIs(t, like, user, feed);
    SubscribedRows(t, like, user, feed);
    assert CountExact(s, UserFeed(user, feed));
    var backlog := Backlog(t, like, user, feed);
    var rows := UnreadRows(s.states, user, feed);
    forall k ensures k in rows <==> k.user == user && k.entry in Visible(t, like, user, feed) {
      assert k in s.states <==> k in backlog || k in t.states;
      if k in backlog { assert s.states[k] == backlog[k]; }
    }
    RowsCount(rows, user, Visible(t, like, user, feed));
  }

  // ---------------------------------------------------------------- ignore words

  /** Right after a recompute every flag of the user agrees with the current words. */
  lemma RecomputeIsExact(t: Tables, like: Like, user: Id, k: UserEntry)
    requires Valid(t) && k in t.states
    ensures
      var r := RecomputeIgnored(t, like, user);
      && k in r.states && r.states[k].readAt == t.states[k].readAt
      && (k.user == user ==> r.states[k].ignored == Ignored(like, t.words, user, t.entries[k.entry].article))
      && (k.user != user ==> r.states[k] == t.states[k])
  {
  }

  lemma ReflagForgets(t: Tables, other: Tables, like: Like, user: Id)
    requires other.words == t.words && other.entries == t.entries && other.states.Keys == t.states.Keys
    requires forall k :: k in t.states ==> other.states[k] == t.states[k].(ignored := other.states[k].ignored)
    requires forall k :: k in t.states && k.user != user ==> other.states[k] == t.states[k]
    ensures Reflagged(other, like, user) == Reflagged(t, like, user)
  {
  }

  lemma RefreshForgets(t: Tables, other: Tables, user: Id)
    requires other.states == t.states && other.subs.Keys == t.subs.Keys
    requires forall k :: k in t.subs ==> other.subs[k] == t.subs[k].(unreadCount := other.subs[k].unreadCount)
    requires forall k :: k in t.subs && k.user != user ==> other.subs[k] == t.subs[k]
    ensures RefreshUser(other, user).subs == RefreshUser(t, user).subs
  {
  }

  /** Recomputing depends on nothing but what it keeps: words, entries, read marks and keys. */
  lemma RecomputeForgets(t: Tables, words: map<Id, Word>, like: Like, user: Id)
    ensures
      var other := RecomputeIgnored(t.(words := words), like, user).(words := t.words);
      RecomputeIgnored(other, like, user) == RecomputeIgnored(t, like, user)
  {
    var other := RecomputeIgnored(t.(words := words), like, user).(words := t.words);
    ReflagForgets(t, other, like, user);
    var states := Reflagged(t, like, user);
    RefreshForgets(t.(states := states), other.(states := states), user);
  }

  predicate Blank(s: string) { forall c :: c in s ==> IsSpace(c) }

  lemma {:induction false} TrimLeftIs(s: string) returns (lead: string)
    ensures s == lead + TrimLeft(s) && Blank(lead)
    ensures TrimLeft(s) != "" ==> !IsSpace(TrimLeft(s)[0])
  {
    lead := "";
    if s != "" && IsSpace(s[0]) {
      lead := TrimLeftIs(s[1..]);
      lead := [s[0]] + lead;
      assert s == [s[0]] + s[1..];
    }
  }

  lemma {:induction false} TrimRightIs(s: string) returns (trail: string)
    ensures s == TrimRight(s) + trail && Blank(trail)
    ensures TrimRight(s) != "" ==> TrimRight(s)[0] == s[0] && !IsSpace(TrimRight(s)[|TrimRight(s)| - 1])
  {
    trail := "";
    if s != "" && IsSpace(s[|s| - 1]) {
      trail := TrimRightIs(s[..|s| - 1]);
      trail := trail + [s[|s| - 1]];
      assert s == s[..|s| - 1] + [s[|s| - 1]];
    }
  }

  /** What is registered is the text without the blanks around it, and it has none at either end. */
  lemma TrimSpaceIs(s: string) returns (lead: string, trail: string)
    ensures s == lead + TrimSpace(s) + trail && Blank(lead) && Blank(trail)
    ensures
      var word := TrimSpace(s);
      word != "" ==> !IsSpace(word[0]) && !IsSpace(word[|word| - 1])
  {
    lead := TrimLeftIs(s);
    trail := TrimRightIs(TrimLeft(s));
    assert lead + (TrimSpace(s) + trail) == lead + TrimSpace(s) + trail;
  }

  /** A word is refused exactly when it consists of blanks. */
  lemma OnlyBlanksAreRefused(t: Tables, like: Like, user: Id, text: string)
    ensures AddIgnoreWord(t, like, user, text) == Err(EmptyWord) <==> Blank(text)
  {
    var lead, trail := TrimSpaceIs(text);
    var word := TrimSpace(text);
    if word != "" { assert word[0] in text; }
  }

  /** Removing a word just added gives back every flag and count, if the flags were current. */
  lemma RemoveUndoesAdd(t: Tables, like: Like, user: Id, text: string)
    requires Valid(t) && !Blank(text) && RecomputeIgnored(t, like, user) == t
    requires forall w :: w in t.words ==> t.words[w] != Word(user, TrimSpace(text))
    ensures
      var id := NextId(t.words.Keys);
      var added := AddIgnoreWord(t, like, user, text);
      added.Ok? && RemoveIgnoreWord(added.value, like, user, id) == Ok(t)
  {
    OnlyBlanksAreRefused(t, like, user, text);
    var word := TrimSpace(text);
    var id := NextId(t.words.Keys);
    var words := t.words[id := Word(user, word)];
    assert words - {id} == t.words;
    assert AddIgnoreWord(t, like, user, text) == Ok(RecomputeIgnored(t.(words := words), like, user));
    var added := RecomputeIgnored(t.(words := words), like, user);
    assert DeleteWord(added, user, id) == Ok(added.(words := t.words));
    RecomputeForgets(t, words, like, user);
  }
}
