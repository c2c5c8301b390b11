/**
 * The store as its methods run: one object whose tables the transactions update in place.
 * Each method commits exactly the transition of the same name in `Transactions`, or rolls back.
 */
module Store {
  import opened Wrappers
  import opened Tables
  import T = Transactions
  import opened StoreInvariant
  import opened RowIds

  lemma RefreshMore(t: Tables, done: set<Id>, feed: Id)
    ensures RefreshFeeds(RefreshFeeds(t, done), {feed}) == RefreshFeeds(t, done + {feed})
  {
    assert RefreshFeeds(RefreshFeeds(t, done), {feed}).subs == RefreshFeeds(t, done + {feed}).subs;
  }

  lemma RefreshNone(t: Tables)
    ensures RefreshFeeds(t, {}) == t
  {
    assert RefreshFeeds(t, {}).subs == t.subs;
  }

  function Elements(l: seq<Id>): set<Id> {
    set i | i in l
  }

  lemma ElementsSnoc(l: seq<Id>, n: nat)
    requires n < |l|
    ensures Elements(l[..n + 1]) == Elements(l[..n]) + {l[n]}
  {
    assert l[..n + 1] == l[..n] + [l[n]];
  }

  class Store {
    const like: Like
    var feeds: map<Id, Feed>
    var entries: map<Id, Entry>
    var states: map<UserEntry, EntryState>
    var subs: map<UserFeed, Subscription>
    var words: map<Id, Word>
    var pins: set<UserEntry>

    function View(): Tables
      reads this
    {
      Tables(feeds, entries, states, subs, words, pins)
    }

    constructor (like: Like)
      ensures View() == EMPTY && this.like == like
    {
      this.like := like;
      feeds, entries, states, subs, words, pins := map[], map[], map[], map[], map[], {};
    }

    method Rollback(t: Tables)
      modifies this
      ensures View() == t
    {
      feeds, entries, states, subs, words, pins := t.feeds, t.entries, t.states, t.subs, t.words, t.pins;
    }

    method RefreshUnreadCount(feed: Id)
      modifies `subs
      ensures View() == RefreshFeeds(old(View()), {feed})
    {
      subs := map k | k in subs ::
        if k.feed == feed then subs[k].(unreadCount := Recount(states, k.user, feed)) else subs[k];
      assert subs == RefreshFeeds(old(View()), {feed}).subs;
    }

    /** The loop `for _, feedID := range feedIDs { refreshUnreadCount(...) }`. */
    method RefreshEach(ids: seq<Id>)
      modifies `subs
      ensures View() == RefreshFeeds(old(View()), Elements(ids))
    {
      var n := 0;
      ghost var was := View();
      RefreshNone(was);
      while n < |ids|
        invariant 0 <= n <= |ids|
        invariant View() == RefreshFeeds(was, Elements(ids[..n]))
      {
        RefreshMore(was, Elements(ids[..n]), ids[n]);
        ElementsSnoc(ids, n);
        RefreshUnreadCount(ids[n]);
        n := n + 1;
      }
      assert ids[..n] == ids;
    }

    /** `updateStmt`. */
    method UpdateEntry(feed: Id, e: T.EntryInput, now: int)
      modifies `entries
      ensures View() == T.UpdateEntry(old(View()), feed, e, now)
    {
      entries := map i | i in entries ::
        if entries[i].feed == feed && entries[i].guid == e.guid
        then entries[i].(article := e.article, updatedAt := e.updatedAt, fetchedAt := now)
        else entries[i];
      assert entries == T.UpdateEntry(old(View()), feed, e, now).entries;
    }

    /** `insertStmt`, then `fanOutStmt` for the row it created. */
    method InsertEntry(feed: Id, e: T.EntryInput, readAt: Option<int>, now: int)
      modifies `entries, `states
      ensures View() == T.InsertEntry(old(View()), like, feed, e, readAt, now)
    {
      var id := NextId(entries.Keys);
      var fanOut := T.FanOutRows(View(), like, feed, id, e, readAt, now);
      entries := entries[id := Entry(feed, e.guid, e.article, e.publishedAt, e.updatedAt, now, now)];
      states := states + fanOut;
    }

    /** The body of the loop over a batch: update the entry, or insert and fan it out. */
    method UpsertOne(feed: Id, e: T.EntryInput, first: string, now: int) returns (isNew: bool)
      modifies `entries, `states
      ensures isNew == !T.Known(old(View()), feed, e.guid)
      ensures View() == T.UpsertEntry(old(View()), like, feed, e, first, now)
    {
      var readAt := if e.dateMissing && e.guid != first then Some(now) else None;
      isNew := !T.Known(View(), feed, e.guid);
      if isNew {
        InsertEntry(feed, e, readAt, now);
      } else {
        UpdateEntry(feed, e, now);
      }
    }

    method UpsertEntries(feed: Id, es: seq<T.EntryInput>, now: int) returns (r: Result<nat, T.Error>)
      modifies this
      ensures match T.UpsertEntries(old(View()), like, feed, es, now)
        case Ok(v) => r == Ok(v.1) && View() == v.0
        case Err(e) => r == Err(e) && View() == old(View())
    {
      if es == [] {
        return Ok(0);
      }
      var first := FirstDateMissing(es);
      ghost var was := View();
      var begin := View();
      var newCount := 0;
      var n := 0;
      while n < |es|
        invariant 0 <= n <= |es|
        invariant n > 0 ==> feed in was.feeds
        invariant feeds == was.feeds
        invariant (View(), newCount) == T.UpsertBatch(was, like, feed, es[..n], first, now)
      {
        assert es[..n + 1][..n] == es[..n];
        if feed !in feeds {
          Rollback(begin);
          return Err(T.ForeignKey);
        }
        var isNew := UpsertOne(feed, es[n], first, now);
        if isNew {
          newCount := newCount + 1;
        }
        n := n + 1;
      }
      assert es[..n] == es;
      if newCount > 0 {
        RefreshUnreadCount(feed);
      }
      return Ok(newCount);
    }

    method MarkEntriesRead(user: Id, ids: seq<Id>, now: int) returns (affected: nat)
      modifies this
      ensures (View(), affected) == T.MarkEntriesRead(old(View()), user, ids, now)
    {
      if ids == [] {
        return 0;
      }
      var rows := T.RowsToRead(View(), user, set i | i in ids);
      var feedIds := Listed(T.FeedsOf(states, rows));
      states := T.MarkRows(states, rows, now);
      affected := |rows|;
      RefreshEach(feedIds);
    }

    method MarkAllEntriesRead(user: Id, now: int) returns (affected: nat)
      modifies this
      ensures (View(), affected) == T.MarkAllEntriesRead(old(View()), user, now)
    {
      var rows := T.AllRowsToRead(View(), user);
      var feedIds := Listed(T.FeedsOf(states, rows));
      states := T.MarkRows(states, rows, now);
      affected := |rows|;
      RefreshEach(feedIds);
    }

    method MarkFeedReadBefore(user: Id, feed: Id, before: int, now: int) returns (affected: nat)
      modifies this
      ensures (View(), affected) == T.MarkFeedReadBefore(old(View()), user, feed, before, now)
    {
      var rows := T.FeedRowsToRead(View(), user, feed, before);
      states := T.MarkRows(states, rows, now);
      affected := |rows|;
      if affected > 0 {
        RefreshUnreadCount(feed);
      }
    }

    method UpsertSubscription(user: Id, feed: Id, folder: Option<Id>, title: string, now: int)
      returns (r: Result<(), T.Error>)
      modifies this
      ensures match T.UpsertSubscription(old(View()), like, user, feed, folder, title, now)
        case Ok(t) => r == Ok(()) && View() == t
        case Err(e) => r == Err(e) && View() == old(View())
    {
      if feed !in feeds {
        return Err(T.ForeignKey);
      }
      var k := UserFeed(user, feed);
      if k in subs {
        subs := subs[k := subs[k].(folder := folder, title := title)];
      } else {
        subs := subs[k := Subscription(folder, title, 0, 0, now)];
      }
      var backlog := T.Backlog(View(), like, user, feed);
      states := backlog + states;
      RefreshUnreadCount(feed);
      return Ok(());
    }

    method UpdateSubscription(user: Id, feed: Id, patch: T.Patch) returns (r: Result<(), T.Error>)
      modifies `subs
      ensures match T.UpdateSubscription(old(View()), user, feed, patch)
        case Ok(t) => r == Ok(()) && View() == t
        case Err(e) => r == Err(e) && View() == old(View())
    {
      if patch.title.None? && patch.rating.None? && patch.folder.None? {
        return Ok(());
      }
      var k := UserFeed(user, feed);
      if k !in subs {
        return Err(T.NotFound);
      }
      var s := subs[k];
      if patch.title.Some? {
        s := s.(title := patch.title.value);
      }
      if patch.rating.Some? {
        s := s.(rating := patch.rating.value);
      }
      if patch.folder.Some? {
        s := s.(folder := if patch.folder.value == 0 then None else patch.folder);
      }
      subs := subs[k := s];
      return Ok(());
    }

    method Unsubscribe(user: Id, feed: Id) returns (r: Result<(), T.Error>)
      modifies this
      ensures match T.Unsubscribe(old(View()), user, feed)
        case Ok(t) => r == Ok(()) && View() == t
        case Err(e) => r == Err(e) && View() == old(View())
    {
      var k := UserFeed(user, feed);
      if k !in subs {
        return Err(T.NotFound);
      }
      subs := subs - {k};
      states := map x | x in states && !(x.user == user && states[x].feed == feed) :: states[x];
      return Ok(());
    }

    method RecomputeIgnored(user: Id)
      modifies this
      ensures View() == T.RecomputeIgnored(old(View()), like, user)
    {
      states := map k | k in states ::
        if k.user == user
        then states[k].(ignored := k.entry in entries && T.Ignored(like, words, user, entries[k.entry].article))
        else states[k];
      subs := map k | k in subs ::
        if k.user == user then subs[k].(unreadCount := Recount(states, user, k.feed)) else subs[k];
    }

    method InsertWord(user: Id, text: string) returns (r: Result<(), T.Error>)
      modifies `words
      ensures match T.InsertWord(old(View()), user, text)
        case Ok(t) => r == Ok(()) && View() == t
        case Err(e) => r == Err(e) && View() == old(View())
    {
      var word := T.TrimSpace(text);
      if word == "" {
        return Err(T.EmptyWord);
      }
      if !(exists w | w in words :: words[w] == Word(user, word)) {
        words := words[NextId(words.Keys) := Word(user, word)];
      }
      return Ok(());
    }

    method DeleteWord(user: Id, id: Id) returns (r: Result<(), T.Error>)
      modifies `words
      ensures match T.DeleteWord(old(View()), user, id)
        case Ok(t) => r == Ok(()) && View() == t
        case Err(e) => r == Err(e) && View() == old(View())
    {
      if id !in words || words[id].user != user {
        return Err(T.NotFound);
      }
      words := words - {id};
      return Ok(());
    }

    /** Two commits: the word, then the recompute. */
    method AddIgnoreWord(user: Id, word: string) returns (r: Result<(), T.Error>)
      modifies this
      ensures match T.AddIgnoreWord(old(View()), like, user, word)
        case Ok(t) => r == Ok(()) && View() == t
        case Err(e) => r == Err(e) && View() == old(View())
    {
      r := InsertWord(user, word);
      if r.Ok? {
        RecomputeIgnored(user);
      }
    }

    method RemoveIgnoreWord(user: Id, id: Id) returns (r: Result<(), T.Error>)
      modifies this
      ensures match T.RemoveIgnoreWord(old(View()), like, user, id)
        case Ok(t) => r == Ok(()) && View() == t
        case Err(e) => r == Err(e) && View() == old(View())
    {
      r := DeleteWord(user, id);
      if r.Ok? {
        RecomputeIgnored(user);
      }
    }

    method AddPin(user: Id, entry: Id) returns (r: Result<(), T.Error>)
      modifies `pins
      ensures match T.AddPin(old(View()), user, entry)
        case Ok(t) => r == Ok(()) && View() == t
        case Err(e) => r == Err(e) && View() == old(View())
    {
      var k := UserEntry(user, entry);
      var n := 0;
      if k in states && k !in pins {
        pins := pins + {k};
        n := 1;
      }
      if n == 0 {
        if k !in states {
          return Err(T.NotFound);
        }
        assert pins + {k} == pins;
      }
      return Ok(());
    }

    method RemovePin(user: Id, entry: Id) returns (r: Result<(), T.Error>)
      modifies `pins
      ensures match T.RemovePin(old(View()), user, entry)
        case Ok(t) => r == Ok(()) && View() == t
        case Err(e) => r == Err(e) && View() == old(View())
    {
      if UserEntry(user, entry) !in pins {
        return Err(T.NotFound);
      }
      pins := pins - {UserEntry(user, entry)};
      return Ok(());
    }

    method UpsertFeed(url: string, now: int)
      modifies `feeds
      ensures View() == T.UpsertFeed(old(View()), url, now)
    {
      if !(exists i | i in feeds :: feeds[i].url == url) {
        feeds := feeds[NextId(feeds.Keys) := Feed(url, now, None)];
      }
    }

    method RecordFetch(feed: Id, now: int)
      modifies `feeds
      ensures View() == T.RecordFetch(old(View()), feed, now)
    {
      if feed in feeds {
        feeds := feeds[feed := feeds[feed].(lastFetchedAt := Some(now))];
      }
    }

    /** DELETE FROM entries: the cascade takes the state rows and pins along. */
    method DeleteEntries(doomed: set<Id>)
      modifies `entries, `states, `pins
      ensures View() == T.DeleteEntries(old(View()), doomed)
    {
      entries := entries - doomed;
      states := map k | k in states && k.entry !in doomed :: states[k];
      pins := set k | k in pins && k.entry !in doomed;
    }

    /** DELETE ... RETURNING feed_id, the loop over the returned rows, and the refreshes. */
    method DeleteEntriesAndRefresh(doomed: set<Id>) returns (n: nat)
      requires doomed <= entries.Keys
      modifies this
      ensures (View(), n) == T.DeleteEntriesAndRefresh(old(View()), doomed)
    {
      var feedIds;
      n, feedIds := TouchedFeeds(entries, doomed);
      assert Elements(feedIds) == T.EntryFeeds(View(), doomed);
      DeleteEntries(doomed);
      RefreshEach(feedIds);
    }

    method DeleteOldReadEntries(before: int) returns (n: nat)
      modifies this
      ensures (View(), n) == T.DeleteOldReadEntries(old(View()), before)
    {
      n := DeleteEntriesAndRefresh(T.OldReadEntries(View(), before));
    }

    method TrimExcessEntries(limit: int) returns (n: nat)
      modifies this
      ensures (View(), n) == T.TrimExcessEntries(old(View()), limit)
    {
      n := DeleteEntriesAndRefresh(T.ExcessEntries(View(), limit));
    }

    /** DELETE FROM feeds: the cascade takes entries, and what hangs on them, and subscriptions. */
    method DeleteFeeds(doomed: set<Id>)
      modifies `feeds, `entries, `states, `subs, `pins
      ensures View() == T.DeleteFeeds(old(View()), doomed)
    {
      DeleteEntries(set i | i in entries && entries[i].feed in doomed);
      feeds := feeds - doomed;
      subs := map k | k in subs && k.feed !in doomed :: subs[k];
    }

    method DeleteOrphanFeeds(before: int) returns (n: nat)
      modifies this
      ensures (View(), n) == T.DeleteOrphanFeeds(old(View()), before)
    {
      var doomed := T.OrphanFeeds(View(), before);
      DeleteFeeds(doomed);
      n := |doomed|;
    }
  }

  /** The loop over deleted rows: how many there are, and the distinct feeds among them. */
  method TouchedFeeds(entries: map<Id, Entry>, doomed: set<Id>) returns (n: nat, feedIds: seq<Id>)
    requires doomed <= entries.Keys
    ensures n == |doomed|
    ensures forall f :: f in feedIds <==> exists i :: i in doomed && entries[i].feed == f
    ensures forall p, q :: 0 <= p < q < |feedIds| ==> feedIds[p] != feedIds[q]
  {
    var seen: set<Id> := {};
    n, feedIds := 0, [];
    var todo := doomed;
    while todo != {}
      invariant todo <= doomed
      invariant n == |doomed| - |todo|
      invariant forall f :: f in seen <==> f in feedIds
      invariant forall f :: f in seen <==> exists i :: i in doomed && i !in todo && entries[i].feed == f
      invariant forall p, q :: 0 <= p < q < |feedIds| ==> feedIds[p] != feedIds[q]
      decreases |todo|
    {
      var i :| i in todo;
      var feed := entries[i].feed;
      n := n + 1;
      if feed !in seen {
        seen := seen + {feed};
        feedIds := feedIds + [feed];
      }
      todo := todo - {i};
    }
  }

  /** The GUID of the first item without a date, or "". */
  method FirstDateMissing(es: seq<T.EntryInput>) returns (guid: string)
    ensures guid == T.FirstDateMissing(es)
  {
    guid := "";
    var i := 0;
    while i < |es|
      invariant 0 <= i <= |es|
      invariant T.FirstDateMissing(es) == T.FirstDateMissing(es[i..])
    {
      if es[i].dateMissing {
        return es[i].guid;
      }
      assert es[i..][1..] == es[i + 1..];
      i := i + 1;
    }
  }

  /** The rows of a SELECT DISTINCT, in whatever order it returns them. */
  method Listed(ids: set<Id>) returns (l: seq<Id>)
    ensures Elements(l) == ids
  {
    l := [];
    var todo := ids;
    while todo != {}
      invariant Elements(l) + todo == ids
      decreases |todo|
    {
      var i :| i in todo;
      assert Elements(l + [i]) == Elements(l) + {i};
      l := l + [i];
      todo := todo - {i};
    }
  }

  method PerformSystem(st: Store, s: Step)
    requires OfTheSystem(s)
    modifies st
    ensures st.View() == Apply(old(st.View()), st.like, s)
  {
    match s
    case NewFeed(url, now) => st.UpsertFeed(url, now);
    case Fetched(feed, now) => st.RecordFetch(feed, now);
    case Upsert(feed, es, now) => var _ := st.UpsertEntries(feed, es, now);
    case DeleteOld(before) => var _ := st.DeleteOldReadEntries(before);
    case Trim(limit) => var _ := st.TrimExcessEntries(limit);
    case DeleteOrphans(before) => var _ := st.DeleteOrphanFeeds(before);
  }

  method PerformUser(st: Store, s: Step)
    requires !OfTheSystem(s)
    modifies st
    ensures st.View() == Apply(old(st.View()), st.like, s)
  {
    match s
    case MarkRead(user, ids, now) => var _ := st.MarkEntriesRead(user, ids, now);
    case MarkAllRead(user, now) => var _ := st.MarkAllEntriesRead(user, now);
    case MarkFeedRead(user, feed, before, now) => var _ := st.MarkFeedReadBefore(user, feed, before, now);
    case Subscribe(user, feed, folder, title, now) => var _ := st.UpsertSubscription(user, feed, folder, title, now);
    case Refile(user, feed, patch) => var _ := st.UpdateSubscription(user, feed, patch);
    case Leave(user, feed) => var _ := st.Unsubscribe(user, feed);
    case WordIn(user, word) => var _ := st.InsertWord(user, word);
    case WordOut(user, id) => var _ := st.DeleteWord(user, id);
    case Recompute(user) => st.RecomputeIgnored(user);
    case Pin(user, entry) => var _ := st.AddPin(user, entry);
    case Unpin(user, entry) => var _ := st.RemovePin(user, entry);
  }

  /** One transaction on a live store does what the corresponding step does to its tables. */
  method Perform(st: Store, s: Step)
    modifies st
    ensures st.View() == Apply(old(st.View()), st.like, s)
  {
    if OfTheSystem(s) {
      PerformSystem(st, s);
    } else {
      PerformUser(st, s);
    }
  }

  /** Any run of transactions on a new store ends in a valid state. */
  method PerformAll(like: Like, steps: seq<Step>) returns (st: Store)
    ensures fresh(st) && st.like == like
    ensures st.View() == Run(EMPTY, like, steps) && Valid(st.View())
  {
    st := new Store(like);
    RunKeepsValid(EMPTY, like, steps);
    var n := 0;
    while n < |steps|
      invariant 0 <= n <= |steps|
      invariant fresh(st) && st.like == like
      invariant Run(st.View(), like, steps[n..]) == Run(EMPTY, like, steps)
    {
      assert steps[n..][1..] == steps[n + 1..];
      Perform(st, steps[n]);
      n := n + 1;
    }
  }
}
