/**
 * What each write transaction of internal/store makes of every single row, in the terms of the
 * rows themselves.
 */
module StoreEffects {
  import opened Wrappers
  import opened Tables
  import opened Transactions
  import opened StoreInvariant
  import opened StoreMeaning
  import opened RowIds

  // ---------------------------------------------------------------- a batch of items

  ghost predicate FirstItem(es: seq<EntryInput>, n: nat, guid: string) {
    n < |es| && es[n].guid == guid && forall j | 0 <= j < n :: es[j].guid != guid
  }

  ghost predicate LastItem(es: seq<EntryInput>, n: nat, guid: string) {
    n < |es| && es[n].guid == guid && forall j | n < j < |es| :: es[j].guid != guid
  }

  /** An entry that was there takes article and update time of the last item with its GUID. */
  ghost predicate Refetched(was: Entry, cur: Entry, feed: Id, es: seq<EntryInput>, now: int) {
    && (was.feed != feed || (forall e :: e in es ==> e.guid != was.guid) ==> cur == was)
    && (forall l: nat | LastItem(es, l, was.guid) :: was.feed == feed ==>
          cur == was.(article := es[l].article, updatedAt := es[l].updatedAt, fetchedAt := now))
  }

  /** A new entry is dated by the first item with its GUID and otherwise described by the last. */
  ghost predicate Arrived(cur: Entry, feed: Id, es: seq<EntryInput>, now: int) {
    exists f: nat, l: nat :: FirstItem(es, f, cur.guid) && LastItem(es, l, cur.guid)
      && cur == Entry(feed, cur.guid, es[l].article, es[f].publishedAt, es[l].updatedAt, now, now)
  }

  ghost predicate EntryAfter(t: Tables, cur: Entry, i: Id, feed: Id, es: seq<EntryInput>, now: int) {
    if i in t.entries then Refetched(t.entries[i], cur, feed, es, now) else Arrived(cur, feed, es, now)
  }

  lemma RefetchedMore(was: Entry, cur: Entry, feed: Id, init: seq<EntryInput>, e: EntryInput, now: int)
    requires Refetched(was, cur, feed, init, now)
    ensures was.feed == feed && was.guid == e.guid ==>
      Refetched(was, was.(article := e.article, updatedAt := e.updatedAt, fetchedAt := now), feed, init + [e], now)
    ensures was.feed != feed || was.guid != e.guid ==> Refetched(was, cur, feed, init + [e], now)
  {
    var es := init + [e];
    assert es[|init|] == e && e in es;
    if was.guid != e.guid {
      assert forall x :: x in init ==> x in es;
      forall l: nat | LastItem(es, l, was.guid) ensures LastItem(init, l, was.guid) {
        forall j | l < j < |init| ensures init[j].guid != was.guid { assert es[j] == init[j]; }
      }
    }
  }

  lemma ArrivedMore(cur: Entry, feed: Id, init: seq<EntryInput>, e: EntryInput, now: int)
    requires Arrived(cur, feed, init, now)
    ensures cur.guid == e.guid ==>
      Arrived(cur.(article := e.article, updatedAt := e.updatedAt, fetchedAt := now), feed, init + [e], now)
    ensures cur.guid != e.guid ==> Arrived(cur, feed, init + [e], now)
  {
    var es := init + [e];
    var f: nat, l: nat :| FirstItem(init, f, cur.guid) && LastItem(init, l, cur.guid)
      && cur == Entry(feed, cur.guid, init[l].article, init[f].publishedAt, init[l].updatedAt, now, now);
    assert FirstItem(es, f, cur.guid);
    if cur.guid == e.guid {
      assert LastItem(es, |init|, e.guid);
    } else {
      assert LastItem(es, l, cur.guid);
    }
  }

  lemma ArrivesNow(feed: Id, init: seq<EntryInput>, e: EntryInput, now: int)
    requires e.guid !in Guids(init)
    ensures Arrived(Entry(feed, e.guid, e.article, e.publishedAt, e.updatedAt, now, now), feed, init + [e], now)
  {
    var es := init + [e];
    forall j | 0 <= j < |init| ensures es[j].guid != e.guid { assert init[j].guid in Guids(init); }
    assert FirstItem(es, |init|, e.guid) && LastItem(es, |init|, e.guid);
  }

  lemma EntryAfterUpsert(t: Tables, cur: Entry, i: Id, feed: Id, init: seq<EntryInput>, e: EntryInput, now: int)
    requires EntryAfter(t, cur, i, feed, init, now)
    requires i in t.entries ==> cur.feed == t.entries[i].feed && cur.guid == t.entries[i].guid
    ensures
      var next := if cur.feed == feed && cur.guid == e.guid
                  then cur.(article := e.article, updatedAt := e.updatedAt, fetchedAt := now) else cur;
      EntryAfter(t, next, i, feed, init + [e], now)
  {
    if i in t.entries {
      var was := t.entries[i];
      RefetchedMore(was, cur, feed, init, e, now);
      if was.feed == feed && was.guid == e.guid {
        RefetchedOnly(was, cur, feed, init, now);
      }
    } else {
      ArrivedMore(cur, feed, init, e, now);
    }
  }

  /** Nothing else of an entry moves, so a later item overwrites all that an earlier one wrote. */
  lemma RefetchedOnly(was: Entry, cur: Entry, feed: Id, es: seq<EntryInput>, now: int)
    requires Refetched(was, cur, feed, es, now)
    ensures cur.(article := was.article, updatedAt := was.updatedAt, fetchedAt := was.fetchedAt) == was
  {
    if e :| e in es && e.guid == was.guid {
      LastItemExists(es, was.guid);
    }
  }

  lemma {:induction false} LastItemExists(es: seq<EntryInput>, guid: string)
    requires exists e :: e in es && e.guid == guid
    ensures exists l: nat :: LastItem(es, l, guid)
  {
    var n := |es| - 1;
    if es[n].guid == guid {
      assert LastItem(es, n, guid);
    } else {
      var init := es[..n];
      assert es == init + [es[n]];
      LastItemExists(init, guid);
      var l: nat :| LastItem(init, l, guid);
      assert LastItem(es, l, guid);
    }
  }

  /** Every entry after a batch. */
  lemma {:induction false} BatchEntries(
    t: Tables, like: Like, feed: Id, es: seq<EntryInput>, first: string, now: int, i: Id)
    requires Valid(t) && feed in t.feeds
    requires i in UpsertBatch(t, like, feed, es, first, now).0.entries
    ensures EntryAfter(t, UpsertBatch(t, like, feed, es, first, now).0.entries[i], i, feed, es, now)
  {
    if es != [] {
      var init, e := es[..|es| - 1], es[|es| - 1];
      assert es == init + [e];
      var t1 := UpsertBatch(t, like, feed, init, first, now).0;
      BatchUndisturbed(t, like, feed, init, first, now);
      if i in t1.entries {
        BatchEntries(t, like, feed, init, first, now, i);
        EntryAfterUpsert(t, t1.entries[i], i, feed, init, e, now);
        UpsertOne(t1, like, feed, e, first, now, i);
      } else {
        BatchKnows(t, like, feed, init, first, now, e.guid);
        ArrivesNow(feed, init, e, now);
      }
    }
  }

  lemma UpsertOne(t: Tables, like: Like, feed: Id, e: EntryInput, first: string, now: int, i: Id)
    requires i in t.entries
    ensures
      var r := UpsertEntry(t, like, feed, e, first, now);
      && i in r.entries
      && r.entries[i] == if t.entries[i].feed == feed && t.entries[i].guid == e.guid
                         then t.entries[i].(article := e.article, updatedAt := e.updatedAt, fetchedAt := now)
                         else t.entries[i]
  {
    if Known(t, feed, e.guid) {
      assert UpdateEntry(t, feed, e, now).entries.Keys == t.entries.Keys;
    }
  }

  /** Some word of the user occurs in the title or in the body. */
  ghost predicate Hides(words: map<Id, Word>, like: Like, user: Id, title: string, body: string) {
    exists w :: w in words && words[w].user == user && (like(title, words[w].word) || like(body, words[w].word))
  }

  /** A new row is that of the first item with the entry's GUID; a dateless one but the first arrives read. */
  ghost predicate RowArrived(
    words: map<Id, Word>, like: Like, feed: Id, es: seq<EntryInput>, first: string, now: int,
    user: Id, guid: string, row: EntryState)
  {
    exists f: nat :: FirstItem(es, f, guid)
      && row.feed == feed && row.publishedAt == es[f].publishedAt && row.createdAt == now
      && row.readAt == (if es[f].dateMissing && guid != first then Some(now) else None)
      && row.ignored == Hides(words, like, user, es[f].article.title, es[f].article.body)
  }

  lemma RowArrivedMore(
    words: map<Id, Word>, like: Like, feed: Id, init: seq<EntryInput>, e: EntryInput, first: string, now: int,
    user: Id, guid: string, row: EntryState)
    requires RowArrived(words, like, feed, init, first, now, user, guid, row)
    ensures RowArrived(words, like, feed, init + [e], first, now, user, guid, row)
  {
    var f: nat :| FirstItem(init, f, guid)
      && row.feed == feed && row.publishedAt == init[f].publishedAt && row.createdAt == now
      && row.readAt == (if init[f].dateMissing && guid != first then Some(now) else None)
      && row.ignored == Hides(words, like, user, init[f].article.title, init[f].article.body);
    assert FirstItem(init + [e], f, guid);
  }

  lemma RowArrivesNow(
    t: Tables, like: Like, feed: Id, init: seq<EntryInput>, e: EntryInput, first: string, now: int, k: UserEntry)
    requires !Known(t, feed, e.guid) && e.guid !in Guids(init)
    requires k !in t.states && k in UpsertEntry(t, like, feed, e, first, now).states
    ensures
      var r := UpsertEntry(t, like, feed, e, first, now);
      && k.entry in r.entries
      && RowArrived(t.words, like, feed, init + [e], first, now, k.user, r.entries[k.entry].guid, r.states[k])
  {
    var es := init + [e];
    forall j | 0 <= j < |init| ensures es[j].guid != e.guid { assert init[j].guid in Guids(init); }
    assert FirstItem(es, |init|, e.guid);
    FanOutRowsAre(t, like, feed, NextId(t.entries.Keys), e, InitialReadAt(e, first, now), now);
  }

  lemma RowStays(
    words: map<Id, Word>, t: Tables, like: Like, feed: Id, init: seq<EntryInput>, e: EntryInput, first: string,
    now: int, k: UserEntry)
    requires FanOut(t) && k in t.states && k.entry in t.entries
    requires RowArrived(words, like, feed, init, first, now, k.user, t.entries[k.entry].guid, t.states[k])
    ensures
      var r := UpsertEntry(t, like, feed, e, first, now);
      && k in r.states && k.entry in r.entries
      && RowArrived(words, like, feed, init + [e], first, now, k.user, r.entries[k.entry].guid, r.states[k])
  {
    RowArrivedMore(words, like, feed, init, e, first, now, k.user, t.entries[k.entry].guid, t.states[k]);
    UpsertOne(t, like, feed, e, first, now, k.entry);
    UpsertUndisturbed(t, like, feed, e, first, now);
  }

  /** One more item: rows stay, and those it adds are its own. */
  lemma RowAfterOne(
    words: map<Id, Word>, t: Tables, like: Like, feed: Id, init: seq<EntryInput>, e: EntryInput, first: string,
    now: int, k: UserEntry)
    requires FanOut(t) && t.words == words && k in UpsertEntry(t, like, feed, e, first, now).states
    requires k in t.states ==>
      k.entry in t.entries
      && RowArrived(words, like, feed, init, first, now, k.user, t.entries[k.entry].guid, t.states[k])
    requires e.guid in Guids(init) ==> Known(t, feed, e.guid)
    ensures
      var r := UpsertEntry(t, like, feed, e, first, now);
      && k.entry in r.entries
      && RowArrived(words, like, feed, init + [e], first, now, k.user, r.entries[k.entry].guid, r.states[k])
  {
    if k in t.states {
      RowStays(words, t, like, feed, init, e, first, now, k);
    } else {
      AddsWhenNew(t, like, feed, e, first, now, k);
      RowArrivesNow(t, like, feed, init, e, first, now, k);
    }
  }

  lemma BatchFanOut(t: Tables, like: Like, feed: Id, es: seq<EntryInput>, first: string, now: int)
    requires Valid(t) && feed in t.feeds
    ensures
      var r := UpsertBatch(t, like, feed, es, first, now).0;
      FanOut(r) && r.words == t.words
  {
    BatchKeeps(t, like, feed, es, first, now);
  }

  /** Every row that was not among `had` is that of an arrival. */
  ghost predicate RowsArrived(
    had: set<UserEntry>, t: Tables, like: Like, feed: Id, es: seq<EntryInput>, first: string, now: int)
  {
    forall k :: k in t.states && k !in had ==>
      && k.entry in t.entries
      && RowArrived(t.words, like, feed, es, first, now, k.user, t.entries[k.entry].guid, t.states[k])
  }

  lemma RowsAfterOne(
    had: set<UserEntry>, t: Tables, like: Like, feed: Id, init: seq<EntryInput>, e: EntryInput, first: string, now: int)
    requires FanOut(t) && had <= t.states.Keys && RowsArrived(had, t, like, feed, init, first, now)
    requires e.guid in Guids(init) ==> Known(t, feed, e.guid)
    ensures RowsArrived(had, UpsertEntry(t, like, feed, e, first, now), like, feed, init + [e], first, now)
  {
    var r := UpsertEntry(t, like, feed, e, first, now);
    assert r.words == t.words;
    forall k | k in r.states && k !in had
      ensures k.entry in r.entries
        && RowArrived(r.words, like, feed, init + [e], first, now, k.user, r.entries[k.entry].guid, r.states[k])
    {
      RowAfterOne(t.words, t, like, feed, init, e, first, now, k);
    }
  }

  lemma BatchKeepsRows(t: Tables, like: Like, feed: Id, es: seq<EntryInput>, first: string, now: int)
    requires Valid(t) && feed in t.feeds
    ensures t.states.Keys <= UpsertBatch(t, like, feed, es, first, now).0.states.Keys
  {
    BatchUndisturbed(t, like, feed, es, first, now);
  }

  /** Every row a batch adds. */
  lemma {:induction false} BatchRows(t: Tables, like: Like, feed: Id, es: seq<EntryInput>, first: string, now: int)
    requires Valid(t) && feed in t.feeds
    ensures
      RowsArrived(t.states.Keys, UpsertBatch(t, like, feed, es, first, now).0, like, feed, es, first, now)
  {
    if es != [] {
      var init, e := es[..|es| - 1], es[|es| - 1];
      assert es == init + [e];
      BatchRows(t, like, feed, init, first, now);
      BatchFanOut(t, like, feed, init, first, now);
      BatchKeepsRows(t, like, feed, init, first, now);
      BatchKnows(t, like, feed, init, first, now, e.guid);
      BatchStep(t, like, feed, es, first, now);
      RowsAfterOne(t.states.Keys, UpsertBatch(t, like, feed, init, first, now).0, like, feed, init, e, first, now);
    }
  }

  lemma BatchStep(t: Tables, like: Like, feed: Id, es: seq<EntryInput>, first: string, now: int)
    requires es != []
    ensures
      UpsertBatch(t, like, feed, es, first, now).0 ==
      UpsertEntry(UpsertBatch(t, like, feed, es[..|es| - 1], first, now).0, like, feed, es[|es| - 1], first, now)
  {
  }

  lemma AddsWhenNew(t: Tables, like: Like, feed: Id, e: EntryInput, first: string, now: int, k: UserEntry)
    requires k !in t.states && k in UpsertEntry(t, like, feed, e, first, now).states
    ensures !Known(t, feed, e.guid)
  {
  }

  ghost predicate FirstDateless(es: seq<EntryInput>, n: nat) {
    n < |es| && es[n].dateMissing && forall j | 0 <= j < n :: !es[j].dateMissing
  }

  lemma {:induction false} FirstDatelessIs(es: seq<EntryInput>, n: nat)
    requires FirstDateless(es, n)
    ensures FirstDateMissing(es) == es[n].guid
  {
    if n > 0 { FirstDatelessIs(es[1..], n - 1); }
  }

  /** Every entry there was is still there; all are as they were, refetched, or new. */
  ghost predicate EntriesAfter(t: Tables, r: Tables, feed: Id, es: seq<EntryInput>, now: int) {
    && (forall i :: i in t.entries ==> i in r.entries)
    && (forall i :: i in r.entries ==> EntryAfter(t, r.entries[i], i, feed, es, now))
    && (forall g :: Known(r, feed, g) <==> Known(t, feed, g) || exists e :: e in es && e.guid == g)
  }

  ghost predicate RowsStay(t: Tables, r: Tables) {
    forall k :: k in t.states ==> k in r.states && r.states[k] == t.states[k]
  }

  lemma BatchEntriesAre(t: Tables, like: Like, feed: Id, es: seq<EntryInput>, first: string, now: int)
    requires Valid(t) && feed in t.feeds
    ensures EntriesAfter(t, UpsertBatch(t, like, feed, es, first, now).0, feed, es, now)
    ensures RowsStay(t, UpsertBatch(t, like, feed, es, first, now).0)
  {
    var r := UpsertBatch(t, like, feed, es, first, now).0;
    BatchUndisturbed(t, like, feed, es, first, now);
    forall i | i in r.entries ensures EntryAfter(t, r.entries[i], i, feed, es, now) {
      BatchEntries(t, like, feed, es, first, now, i);
    }
    forall g ensures Known(r, feed, g) <==> Known(t, feed, g) || exists e :: e in es && e.guid == g {
      BatchKnows(t, like, feed, es, first, now, g);
    }
  }

  /** The refresh at the end touches nothing but counts. */
  lemma UpsertIsBatch(t: Tables, like: Like, feed: Id, es: seq<EntryInput>, now: int)
    requires feed in t.feeds
    ensures
      var r := UpsertEntries(t, like, feed, es, now);
      var b := UpsertBatch(t, like, feed, es, FirstDateMissing(es), now).0;
      r.Ok? && r.value.0.(subs := b.subs) == b && r.value.0.subs.Keys == b.subs.Keys
  {
  }

  lemma OnlyCountsDiffer(
    t: Tables, b: Tables, r: Tables, like: Like, feed: Id, es: seq<EntryInput>, first: string, now: int)
    requires r.(subs := b.subs) == b
    requires EntriesAfter(t, b, feed, es, now) && RowsStay(t, b)
    requires RowsArrived(t.states.Keys, b, like, feed, es, first, now)
    ensures EntriesAfter(t, r, feed, es, now) && RowsStay(t, r)
    ensures RowsArrived(t.states.Keys, r, like, feed, es, first, now)
  {
    assert r.entries == b.entries && r.states == b.states && r.words == b.words;
    assert forall g :: Known(r, feed, g) <==> Known(b, feed, g);
  }

  /**
   * What a batch makes of the tables: every entry there was, refreshed from the last item with its
   * GUID; for every other GUID of the batch one entry, dated by the first item with it; and for
   * every subscriber one row of each. No row there was changes. Of the items without a date, all
   * but those with the GUID of the first one arrive already read.
   */
  lemma BatchIsExact(t: Tables, like: Like, feed: Id, es: seq<EntryInput>, now: int)
    returns (first: string)
    requires Valid(t) && feed in t.feeds
    ensures forall d: nat :: FirstDateless(es, d) ==> es[d].guid == first
    ensures
      var r := UpsertEntries(t, like, feed, es, now);
      && r.Ok?
      && EntriesAfter(t, r.value.0, feed, es, now)
      && RowsStay(t, r.value.0)
      && RowsArrived(t.states.Keys, r.value.0, like, feed, es, first, now)
      && r.value.0.feeds == t.feeds && r.value.0.words == t.words && r.value.0.pins == t.pins
      && r.value.0.subs.Keys == t.subs.Keys
  {
    first := FirstDateMissing(es);
    var b := UpsertBatch(t, like, feed, es, first, now).0;
    UpsertIsBatch(t, like, feed, es, now);
    BatchKeeps(t, like, feed, es, first, now);
    BatchEntriesAre(t, like, feed, es, first, now);
    BatchRows(t, like, feed, es, first, now);
    OnlyCountsDiffer(t, b, UpsertEntries(t, like, feed, es, now).value.0, like, feed, es, first, now);
    forall d: nat | FirstDateless(es, d) ensures es[d].guid == first {
      FirstDatelessIs(es, d);
    }
  }

  // ---------------------------------------------------------------- subscriptions

  /** The row a new subscriber gets of an entry of the feed: unread, and hidden by their own words only. */
  ghost predicate BacklogRow(t: Tables, like: Like, user: Id, feed: Id, x: UserEntry, row: EntryState) {
    && x.user == user && x.entry in t.entries && t.entries[x.entry].feed == feed
    && row == EntryState(feed, t.entries[x.entry].publishedAt, t.entries[x.entry].createdAt, None,
                         Hides(t.words, like, user, t.entries[x.entry].article.title,
                               t.entries[x.entry].article.body))
  }

  lemma SubscribeRows(t: Tables, like: Like, user: Id, feed: Id, folder: Option<Id>, title: string, now: int)
    requires feed in t.feeds
    ensures
      var r := UpsertSubscription(t, like, user, feed, folder, title, now).value;
      && (forall x :: x in t.states ==> x in r.states && r.states[x] == t.states[x])
      && (forall x :: x in r.states && x !in t.states ==> BacklogRow(t, like, user, feed, x, r.states[x]))
      && (forall i :: i in t.entries && t.entries[i].feed == feed ==> UserEntry(user, i) in r.states)
  {
    BacklogIs(t, like, user, feed);
  }

  lemma SubscribeOthers(t: Tables, like: Like, user: Id, feed: Id, folder: Option<Id>, title: string, now: int,
                        k: UserFeed)
    requires Valid(t) && feed in t.feeds && k in t.subs && k != UserFeed(user, feed)
    ensures
      var r := UpsertSubscription(t, like, user, feed, folder, title, now).value;
      k in r.subs && r.subs[k] == t.subs[k]
  {
    if UserFeed(user, feed) in t.subs {
      ResubscribeOnlyRefiles(t, like, user, feed, folder, title, now);
    } else {
      UndoneCount(t, like, user, feed, k);
    }
  }

  lemma SubscribeColumns(t: Tables, like: Like, user: Id, feed: Id, folder: Option<Id>, title: string, now: int)
    requires feed in t.feeds
    ensures
      var r := UpsertSubscription(t, like, user, feed, folder, title, now).value;
      var k := UserFeed(user, feed);
      && r.(states := t.states, subs := t.subs) == t && r.subs.Keys == t.subs.Keys + {k}
      && (k !in t.subs ==> r.subs[k].(unreadCount := 0) == Subscription(folder, title, 0, 0, now))
  {
  }

  lemma SubscribeSubs(t: Tables, like: Like, user: Id, feed: Id, folder: Option<Id>, title: string, now: int)
    requires Valid(t) && feed in t.feeds
    ensures
      var r := UpsertSubscription(t, like, user, feed, folder, title, now).value;
      var k := UserFeed(user, feed);
      && r.(states := t.states, subs := t.subs) == t && r.subs.Keys == t.subs.Keys + {k}
      && (k !in t.subs ==> r.subs[k].(unreadCount := 0) == Subscription(folder, title, 0, 0, now))
      && (k in t.subs ==> r.subs[k] == t.subs[k].(folder := folder, title := title))
      && (forall j :: j in t.subs && j != k ==> r.subs[j] == t.subs[j])
  {
    SubscribeColumns(t, like, user, feed, folder, title, now);
    if UserFeed(user, feed) in t.subs {
      ResubscribeOnlyRefiles(t, like, user, feed, folder, title, now);
    } else {
      forall j | j in t.subs ensures
        UpsertSubscription(t, like, user, feed, folder, title, now).value.subs[j] == t.subs[j]
      {
        SubscribeOthers(t, like, user, feed, folder, title, now, j);
      }
    }
  }

  /**
   * Subscribing fails only for a feed that is not there. It adds or refiles one subscription and
   * gives its user one row of every entry of the feed; rows there were keep all they hold.
   */
  lemma SubscribeIsExact(t: Tables, like: Like, user: Id, feed: Id, folder: Option<Id>, title: string, now: int)
    requires Valid(t)
    ensures
      var r := UpsertSubscription(t, like, user, feed, folder, title, now);
      var k := UserFeed(user, feed);
      && (r.Err? <==> feed !in t.feeds)
      && (r.Ok? ==>
            && r.value.(states := t.states, subs := t.subs) == t
            && r.value.subs.Keys == t.subs.Keys + {k}
            && (k !in t.subs ==> r.value.subs[k].(unreadCount := 0) == Subscription(folder, title, 0, 0, now))
            && (k in t.subs ==> r.value.subs[k] == t.subs[k].(folder := folder, title := title))
            && (forall j :: j in t.subs && j != k ==> r.value.subs[j] == t.subs[j])
            && (forall x :: x in t.states ==> x in r.value.states && r.value.states[x] == t.states[x])
            && (forall x :: x in r.value.states && x !in t.states ==>
                  BacklogRow(t, like, user, feed, x, r.value.states[x]))
            && (forall i :: i in t.entries && t.entries[i].feed == feed ==> UserEntry(user, i) in r.value.states))
  {
    if feed in t.feeds {
      SubscribeRows(t, like, user, feed, folder, title, now);
      SubscribeSubs(t, like, user, feed, folder, title, now);
    }
  }

  /** Unsubscribing takes away one subscription and its user's rows of that feed, and nothing else. */
  lemma UnsubscribeIsExact(t: Tables, user: Id, feed: Id)
    requires Valid(t)
    ensures
      var r := Unsubscribe(t, user, feed);
      && (r.Err? <==> UserFeed(user, feed) !in t.subs)
      && (r.Ok? ==>
            && r.value.(states := t.states, subs := t.subs) == t
            && (forall k :: k in r.value.subs <==> k in t.subs && k != UserFeed(user, feed))
            && (forall k :: k in r.value.subs ==> r.value.subs[k] == t.subs[k])
            && (forall x :: x in r.value.states <==>
                  x in t.states && !(x.user == user && x.entry in t.entries && t.entries[x.entry].feed == feed))
            && (forall x :: x in r.value.states ==> r.value.states[x] == t.states[x]))
  {
  }

  /** A patch writes the columns it names, 0 clearing the folder, and no other column or row. */
  lemma PatchIsExact(t: Tables, user: Id, feed: Id, p: Patch)
    ensures
      var r := UpdateSubscription(t, user, feed, p);
      var k := UserFeed(user, feed);
      && (r.Err? <==> k !in t.subs && (p.title.Some? || p.rating.Some? || p.folder.Some?))
      && (r.Ok? ==>
            && r.value.(subs := t.subs) == t
            && r.value.subs.Keys == t.subs.Keys
            && (forall j :: j in t.subs && j != k ==> r.value.subs[j] == t.subs[j])
            && (k in t.subs ==>
                  && (p.title.Some? ==> r.value.subs[k].title == p.title.value)
                  && (p.rating.Some? ==> r.value.subs[k].rating == p.rating.value)
                  && (p.folder == Some(0) ==> r.value.subs[k].folder == None)
                  && (p.folder.Some? && p.folder.value != 0 ==> r.value.subs[k].folder == p.folder)
                  && (p.title.None? ==> r.value.subs[k].title == t.subs[k].title)
                  && (p.rating.None? ==> r.value.subs[k].rating == t.subs[k].rating)
                  && (p.folder.None? ==> r.value.subs[k].folder == t.subs[k].folder)
                  && r.value.subs[k].unreadCount == t.subs[k].unreadCount
                  && r.value.subs[k].createdAt == t.subs[k].createdAt))
  {
  }

  // ---------------------------------------------------------------- ignore words and pins

  ghost predicate HasWord(t: Tables, user: Id, word: string) {
    exists w :: w in t.words && t.words[w] == Word(user, word)
  }

  /** Registering a word makes it one of the user's own, keeps every word there was, and adds no other. */
  lemma WordIsRegistered(t: Tables, user: Id, text: string, u: Id, word: string)
    requires !Blank(text)
    ensures
      var r := InsertWord(t, user, text);
      && r.Ok? && r.value.(words := t.words) == t
      && (HasWord(r.value, u, word) <==> HasWord(t, u, word) || (u == user && word == TrimSpace(text)))
      && (forall w :: w in t.words ==> w in r.value.words && r.value.words[w] == t.words[w])
      && (HasWord(t, user, TrimSpace(text)) ==> r.value == t)
  {
    OnlyBlanksAreRefused(t, (a, b) => false, user, text);
    var r := InsertWord(t, user, text).value;
    if HasWord(t, u, word) {
      var w :| w in t.words && t.words[w] == Word(u, word);
      assert w in r.words && r.words[w] == Word(u, word);
    }
    if u == user && word == TrimSpace(text) && !HasWord(t, u, word) {
      assert r.words[NextId(t.words.Keys)] == Word(u, word);
    }
  }

  /** Only a user's own word can be removed, and nothing else goes with it. */
  lemma WordIsRemoved(t: Tables, user: Id, id: Id)
    ensures
      var r := DeleteWord(t, user, id);
      && (r.Ok? <==> id in t.words && t.words[id].user == user)
      && (r.Ok? ==>
            && r.value.(words := t.words) == t
            && (forall w :: w in r.value.words <==> w in t.words && w != id)
            && (forall w :: w in r.value.words ==> r.value.words[w] == t.words[w]))
  {
  }

  lemma RecomputedFlags(t: Tables, like: Like, user: Id)
    requires Valid(t)
    ensures
      var r := RecomputeIgnored(t, like, user);
      && r.states.Keys == t.states.Keys
      && (forall x :: x in t.states ==>
            r.states[x] == if x.user != user then t.states[x]
                           else t.states[x].(ignored := Hides(t.words, like, user,
                             t.entries[x.entry].article.title, t.entries[x.entry].article.body)))
  {
  }

  /**
   * Recomputing flags exactly the rows of the user whose title or body a word of theirs occurs in.
   * The user's counts follow; nobody else's rows or counts move.
   */
  lemma RecomputeFlags(t: Tables, like: Like, user: Id)
    requires Valid(t)
    ensures
      var r := RecomputeIgnored(t, like, user);
      && r.(states := t.states, subs := t.subs) == t
      && r.states.Keys == t.states.Keys && r.subs.Keys == t.subs.Keys
      && (forall x :: x in t.states ==>
            r.states[x] == if x.user != user then t.states[x]
                           else t.states[x].(ignored := Hides(t.words, like, user,
                             t.entries[x.entry].article.title, t.entries[x.entry].article.body)))
      && (forall k :: k in t.subs ==>
            r.subs[k] == if k.user != user then t.subs[k]
                         else t.subs[k].(unreadCount := Recount(r.states, user, k.feed)))
  {
    RecomputedFlags(t, like, user);
  }

  /** An entry can be pinned by whoever has a row of it, and unpinned by whoever pinned it. */
  lemma PinIsExact(t: Tables, user: Id, entry: Id, x: UserEntry)
    requires Valid(t)
    ensures
      var r := AddPin(t, user, entry);
      && (r.Ok? <==> entry in t.entries && UserFeed(user, t.entries[entry].feed) in t.subs)
      && (r.Ok? ==>
            r.value.(pins := t.pins) == t && (x in r.value.pins <==> x in t.pins || x == UserEntry(user, entry)))
    ensures
      var r := RemovePin(t, user, entry);
      && (r.Ok? <==> UserEntry(user, entry) in t.pins)
      && (r.Ok? ==>
            r.value.(pins := t.pins) == t && (x in r.value.pins <==> x in t.pins && x != UserEntry(user, entry)))
  {
  }

  // ---------------------------------------------------------------- feeds

  /** Registering a feed makes sure its URL has a row; rows there were stay as they are. */
  lemma FeedIsRegistered(t: Tables, url: string, now: int)
    ensures
      var r := UpsertFeed(t, url, now);
      && r.(feeds := t.feeds) == t
      && (exists f :: f in r.feeds && r.feeds[f].url == url)
      && (forall f :: f in t.feeds ==> f in r.feeds && r.feeds[f] == t.feeds[f])
      && (forall f :: f in r.feeds && f !in t.feeds ==> r.feeds[f] == Feed(url, now, None))
      && ((exists f :: f in t.feeds && t.feeds[f].url == url) ==> r == t)
  {
    var r := UpsertFeed(t, url, now);
    if r != t { assert NextId(t.feeds.Keys) in r.feeds; }
  }

  /** A fetch is recorded on the feed it was of. */
  lemma FetchIsRecorded(t: Tables, feed: Id, now: int, f: Id)
    requires f in t.feeds
    ensures
      var r := RecordFetch(t, feed, now);
      && r.(feeds := t.feeds) == t && r.feeds.Keys == t.feeds.Keys
      && r.feeds[f] == if f == feed then t.feeds[f].(lastFetchedAt := Some(now)) else t.feeds[f]
  {
  }
}
