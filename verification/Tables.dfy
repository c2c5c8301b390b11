/**
 * The per-user read state of internal/store: the tables, and the invariant that ties the
 * denormalised ones (`user_entry_state`, `subscriptions.unread_count`) to the rest.
 */
module Tables {
  import opened Wrappers

  type Id = nat

  /** SQL `text LIKE '%' || word || '%'`; what it matches is not interpreted. */
  type Like = (string, string) -> bool

  datatype Article = Article(url: string, title: string, author: string, body: string, bodyHash: string)

  datatype Feed = Feed(url: string, createdAt: int, lastFetchedAt: Option<int>)

  datatype Entry = Entry(
    feed: Id, guid: string, article: Article,
    publishedAt: int, updatedAt: int, fetchedAt: int, createdAt: int)

  /** A `user_entry_state` row; `feed`, `publishedAt` and `createdAt` are copies of the entry's. */
  datatype EntryState = EntryState(
    feed: Id, publishedAt: int, createdAt: int, readAt: Option<int>, ignored: bool)

  datatype Subscription = Subscription(
    folder: Option<Id>, title: string, rating: int, unreadCount: nat, createdAt: int)

  datatype Word = Word(user: Id, word: string)

  datatype UserEntry = UserEntry(user: Id, entry: Id)

  datatype UserFeed = UserFeed(user: Id, feed: Id)

  datatype Tables = Tables(
    feeds: map<Id, Feed>,
    entries: map<Id, Entry>,
    states: map<UserEntry, EntryState>,
    subs: map<UserFeed, Subscription>,
    words: map<Id, Word>,
    pins: set<UserEntry>)

  const EMPTY := Tables(map[], map[], map[], map[], map[], {})

  // ---------------------------------------------------------------- what the cache must equal

  predicate Unread(s: EntryState) {
    s.readAt.None? && !s.ignored
  }

  function UnreadRows(states: map<UserEntry, EntryState>, user: Id, feed: Id): set<UserEntry> {
    set k | k in states && k.user == user && states[k].feed == feed && Unread(states[k])
  }

  function Recount(states: map<UserEntry, EntryState>, user: Id, feed: Id): nat {
    |UnreadRows(states, user, feed)|
  }

  // ---------------------------------------------------------------- the invariant

  /** A state row exists exactly for the entries of the feeds a user subscribes to. */
  ghost predicate FanOut(t: Tables) {
    forall k: UserEntry ::
      k in t.states <==> k.entry in t.entries && UserFeed(k.user, t.entries[k.entry].feed) in t.subs
  }

  /** The denormalised columns of every state row are the entry's. */
  ghost predicate CopiesExact(t: Tables) {
    forall k :: k in t.states && k.entry in t.entries ==>
      && t.states[k].feed == t.entries[k.entry].feed
      && t.states[k].publishedAt == t.entries[k.entry].publishedAt
      && t.states[k].createdAt == t.entries[k.entry].createdAt
  }

  ghost predicate CountExact(t: Tables, k: UserFeed)
    requires k in t.subs
  {
    t.subs[k].unreadCount == Recount(t.states, k.user, k.feed)
  }

  /** Every cached count outside the given feeds equals a recount. */
  ghost predicate CountsExactOutside(t: Tables, stale: set<Id>) {
    forall k :: k in t.subs && k.feed !in stale ==> CountExact(t, k)
  }

  ghost predicate CountsExact(t: Tables) {
    forall k :: k in t.subs ==> CountExact(t, k)
  }

  /** `UNIQUE(feed_id, guid)`. */
  ghost predicate GuidsUnique(t: Tables) {
    forall i, j | i in t.entries && j in t.entries ::
      t.entries[i].feed == t.entries[j].feed && t.entries[i].guid == t.entries[j].guid ==> i == j
  }

  /** The enforced foreign keys. */
  ghost predicate References(t: Tables) {
    && (forall i :: i in t.entries ==> t.entries[i].feed in t.feeds)
    && (forall k :: k in t.subs ==> k.feed in t.feeds)
    && (forall k :: k in t.pins ==> k.entry in t.entries)
  }

  ghost predicate Valid(t: Tables) {
    FanOut(t) && CopiesExact(t) && CountsExact(t) && GuidsUnique(t) && References(t)
  }

  // ---------------------------------------------------------------- refreshing the cache

  /** `refreshUnreadCount` on each of some feeds: an UPDATE over their subscribers. */
  function RefreshFeeds(t: Tables, feeds: set<Id>): Tables {
    t.(subs := map k | k in t.subs ::
      if k.feed in feeds then t.subs[k].(unreadCount := Recount(t.states, k.user, k.feed)) else t.subs[k])
  }

  /** The refresh at the end of `recomputeIgnored`: an UPDATE over one user's subscriptions. */
  function RefreshUser(t: Tables, user: Id): Tables {
    t.(subs := map k | k in t.subs ::
      if k.user == user then t.subs[k].(unreadCount := Recount(t.states, user, k.feed)) else t.subs[k])
  }

  /** The slow reference: recount every subscription there is. */
  function RecountAll(t: Tables): Tables {
    t.(subs := map k | k in t.subs :: t.subs[k].(unreadCount := Recount(t.states, k.user, k.feed)))
  }

  /**
   * Refreshing only the touched feeds gives what recounting everything would: the fast form
   * the transactions use refines the slow one.
   */
  lemma LocalRefreshSuffices(t: Tables, feeds: set<Id>)
    requires CountsExactOutside(t, feeds)
    ensures RefreshFeeds(t, feeds) == RecountAll(t)
  {
    var r := RefreshFeeds(t, feeds);
    forall k | k in t.subs ensures r.subs[k] == RecountAll(t).subs[k] {
      if k.feed !in feeds { assert CountExact(t, k); }
    }
    assert r.subs == RecountAll(t).subs;
  }

  lemma RecountAllIsExact(t: Tables)
    ensures CountsExact(RecountAll(t))
  {
    var r := RecountAll(t);
    forall k | k in r.subs ensures CountExact(r, k) {}
  }

  /** Equal rows for one user and feed give equal counts. */
  lemma SameRowsSameCount(a: map<UserEntry, EntryState>, b: map<UserEntry, EntryState>, user: Id, feed: Id)
    requires forall k :: k in a && k.user == user && a[k].feed == feed ==>
      k in b && b[k].feed == feed && Unread(a[k]) == Unread(b[k])
    requires forall k :: k in b && k.user == user && b[k].feed == feed ==> k in a && a[k].feed == feed
    ensures Recount(a, user, feed) == Recount(b, user, feed)
  {
    assert UnreadRows(a, user, feed) == UnreadRows(b, user, feed);
  }

  /** One user's rows are as many as the entries they name. */
  lemma {:induction false} RowsCount(rows: set<UserEntry>, user: Id, ids: set<Id>)
    requires forall k :: k in rows <==> k.user == user && k.entry in ids
    ensures |rows| == |ids|
    decreases |ids|
  {
    if ids == {} {
      assert rows == {};
    } else {
      var i :| i in ids;
      assert UserEntry(user, i) in rows;
      RowsCount(rows - {UserEntry(user, i)}, user, ids - {i});
    }
  }
}
