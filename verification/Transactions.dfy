/**
 * The write transactions of internal/store as transitions between tables, each with the
 * refresh its source performs and no more.
 */
module Transactions {
  import opened Wrappers
  import opened Tables
  import opened RowIds
  import opened Places

  datatype Error = NotFound | ForeignKey | EmptyWord

  datatype EntryInput = EntryInput(
    guid: string, article: Article, publishedAt: int, updatedAt: int, dateMissing: bool)

  // ---------------------------------------------------------------- feeds

  function UpsertFeed(t: Tables, url: string, now: int): Tables {
    if exists i | i in t.feeds :: t.feeds[i].url == url then t
    else t.(feeds := t.feeds[NextId(t.feeds.Keys) := Feed(url, now, None)])
  }

  function RecordFetch(t: Tables, feed: Id, now: int): Tables {
    if feed in t.feeds then t.(feeds := t.feeds[feed := t.feeds[feed].(lastFetchedAt := Some(now))]) else t
  }

  // ---------------------------------------------------------------- entries

  /** Does some ignore word of `user` occur in the article's title or body? */
  predicate Ignored(like: Like, words: map<Id, Word>, user: Id, a: Article) {
    exists w | w in words :: words[w].user == user && (like(a.title, words[w].word) || like(a.body, words[w].word))
  }

  function FirstDateMissing(es: seq<EntryInput>): string {
    if es == [] then "" else if es[0].dateMissing then es[0].guid else FirstDateMissing(es[1..])
  }

  /** All but the first dateless item of a batch arrive already read. */
  function InitialReadAt(e: EntryInput, first: string, now: int): Option<int> {
    if e.dateMissing && e.guid != first then Some(now) else None
  }

  predicate Known(t: Tables, feed: Id, guid: string) {
    exists i | i in t.entries :: t.entries[i].feed == feed && t.entries[i].guid == guid
  }

  function FanOutRows(t: Tables, like: Like, feed: Id, id: Id, e: EntryInput, readAt: Option<int>, now: int)
    : map<UserEntry, EntryState>
  {
    map k: UserFeed | k in t.subs && k.feed == feed ::
      UserEntry(k.user, id) :=
        EntryState(feed, e.publishedAt, now, readAt, Ignored(like, t.words, k.user, e.article))
  }

  function InsertEntry(t: Tables, like: Like, feed: Id, e: EntryInput, readAt: Option<int>, now: int): Tables {
    var id := NextId(t.entries.Keys);
    t.(entries := t.entries[id := Entry(feed, e.guid, e.article, e.publishedAt, e.updatedAt, now, now)],
       states := t.states + FanOutRows(t, like, feed, id, e, readAt, now))
  }

  function UpdateEntry(t: Tables, feed: Id, e: EntryInput, now: int): Tables {
    t.(entries := map i | i in t.entries ::
      if t.entries[i].feed == feed && t.entries[i].guid == e.guid
      then t.entries[i].(article := e.article, updatedAt := e.updatedAt, fetchedAt := now)
      else t.entries[i])
  }

  function UpsertEntry(t: Tables, like: Like, feed: Id, e: EntryInput, first: string, now: int): Tables {
    if Known(t, feed, e.guid) then UpdateEntry(t, feed, e, now)
    else InsertEntry(t, like, feed, e, InitialReadAt(e, first, now), now)
  }

  /** The loop over a batch: the tables before the refresh, and how many entries were new. */
  function UpsertBatch(t: Tables, like: Like, feed: Id, es: seq<EntryInput>, first: string, now: int): (Tables, nat) {
    if es == [] then (t, 0)
    else
      var (t1, n) := UpsertBatch(t, like, feed, es[..|es| - 1], first, now);
      var e := es[|es| - 1];
      (UpsertEntry(t1, like, feed, e, first, now), if Known(t1, feed, e.guid) then n else n + 1)
  }

  function UpsertEntries(t: Tables, like: Like, feed: Id, es: seq<EntryInput>, now: int): Result<(Tables, nat), Error> {
    if es == [] then Ok((t, 0))
    else if feed !in t.feeds then Err(ForeignKey)
    else
      var (t1, n) := UpsertBatch(t, like, feed, es, FirstDateMissing(es), now);
      Ok((if n > 0 then RefreshFeeds(t1, {feed}) else t1, n))
  }

  // ---------------------------------------------------------------- marking read

  function MarkRows(states: map<UserEntry, EntryState>, rows: set<UserEntry>, now: int): map<UserEntry, EntryState> {
    map k | k in states :: if k in rows then states[k].(readAt := Some(now)) else states[k]
  }

  function FeedsOf(states: map<UserEntry, EntryState>, rows: set<UserEntry>): set<Id> {
    set k | k in rows && k in states :: states[k].feed
  }

  function RowsToRead(t: Tables, user: Id, ids: set<Id>): set<UserEntry> {
    set k | k in t.states && k.user == user && k.entry in ids && t.states[k].readAt.None?
  }

  function MarkEntriesRead(t: Tables, user: Id, ids: seq<Id>, now: int): (Tables, nat) {
    if ids == [] then (t, 0)
    else
      var rows := RowsToRead(t, user, set i | i in ids);
      (RefreshFeeds(t.(states := MarkRows(t.states, rows, now)), FeedsOf(t.states, rows)), |rows|)
  }

  function AllRowsToRead(t: Tables, user: Id): set<UserEntry> {
    set k | k in t.states && k.user == user && t.states[k].readAt.None?
  }

  function MarkAllEntriesRead(t: Tables, user: Id, now: int): (Tables, nat) {
    var rows := AllRowsToRead(t, user);
    (RefreshFeeds(t.(states := MarkRows(t.states, rows, now)), FeedsOf(t.states, rows)), |rows|)
  }

  function FeedRowsToRead(t: Tables, user: Id, feed: Id, before: int): set<UserEntry> {
    set k | k in t.states && k.user == user && t.states[k].feed == feed && t.states[k].readAt.None?
      && (before <= 0 || t.states[k].publishedAt <= before)
  }

  function MarkFeedReadBefore(t: Tables, user: Id, feed: Id, before: int, now: int): (Tables, nat) {
    var rows := FeedRowsToRead(t, user, feed, before);
    var t1 := t.(states := MarkRows(t.states, rows, now));
    (if rows != {} then RefreshFeeds(t1, {feed}) else t1, |rows|)
  }

  // ---------------------------------------------------------------- subscriptions

  /** The backlog of a feed as one user's rows: unread, ignored by that user's own words. */
  function Backlog(t: Tables, like: Like, user: Id, feed: Id): map<UserEntry, EntryState> {
    map i | i in t.entries && t.entries[i].feed == feed ::
      UserEntry(user, i) :=
        EntryState(feed, t.entries[i].publishedAt, t.entries[i].createdAt, None,
                   Ignored(like, t.words, user, t.entries[i].article))
  }

  function UpsertSubscription(t: Tables, like: Like, user: Id, feed: Id, folder: Option<Id>, title: string, now: int)
    : Result<Tables, Error>
  {
    if feed !in t.feeds then Err(ForeignKey)
    else
      var k := UserFeed(user, feed);
      var sub := if k in t.subs then t.subs[k].(folder := folder, title := title)
                 else Subscription(folder, title, 0, 0, now);
      Ok(RefreshFeeds(t.(subs := t.subs[k := sub], states := Backlog(t, like, user, feed) + t.states), {feed}))
  }

  function Unsubscribe(t: Tables, user: Id, feed: Id): Result<Tables, Error> {
    var k := UserFeed(user, feed);
    if k !in t.subs then Err(NotFound)
    else Ok(t.(subs := t.subs - {k},
               states := map r | r in t.states && !(r.user == user && t.states[r].feed == feed) :: t.states[r]))
  }

  /** What a user changes of a subscription; folder 0 stands for none. */
  datatype Patch = Patch(title: Option<string>, rating: Option<int>, folder: Option<Id>)

  function Patched(s: Subscription, p: Patch): Subscription {
    s.(title := if p.title.Some? then p.title.value else s.title,
       rating := if p.rating.Some? then p.rating.value else s.rating,
       folder := if p.folder.None? then s.folder else if p.folder.value == 0 then None else p.folder)
  }

  /** A patch of nothing succeeds without looking. */
  function UpdateSubscription(t: Tables, user: Id, feed: Id, p: Patch): Result<Tables, Error> {
    var k := UserFeed(user, feed);
    if p == Patch(None, None, None) then Ok(t)
    else if k !in t.subs then Err(NotFound)
    else Ok(t.(subs := t.subs[k := Patched(t.subs[k], p)]))
  }

  // ---------------------------------------------------------------- ignore words

  /** `unicode.IsSpace`. */
  predicate IsSpace(c: char) {
    || c in {' ', '\t', '\n', '\r', '\U{0B}', '\U{0C}', '\U{85}', '\U{A0}', '\U{1680}'}
    || '\U{2000}' <= c <= '\U{200A}'
    || c in {'\U{2028}', '\U{2029}', '\U{202F}', '\U{205F}', '\U{3000}'}
  }

  function TrimLeft(s: string): string {
    if s != "" && IsSpace(s[0]) then TrimLeft(s[1..]) else s
  }

  function TrimRight(s: string): string {
    if s != "" && IsSpace(s[|s| - 1]) then TrimRight(s[..|s| - 1]) else s
  }

  /** `strings.TrimSpace`. */
  function TrimSpace(s: string): string { TrimRight(TrimLeft(s)) }

  /** The INSERT of `AddIgnoreWord`, committed on its own before anything is recomputed. */
  function InsertWord(t: Tables, user: Id, text: string): Result<Tables, Error> {
    var word := TrimSpace(text);
    if word == "" then Err(EmptyWord)
    else if exists w | w in t.words :: t.words[w] == Word(user, word) then Ok(t)
    else Ok(t.(words := t.words[NextId(t.words.Keys) := Word(user, word)]))
  }

  function DeleteWord(t: Tables, user: Id, id: Id): Result<Tables, Error> {
    if id in t.words && t.words[id].user == user then Ok(t.(words := t.words - {id})) else Err(NotFound)
  }

  function Reflagged(t: Tables, like: Like, user: Id): map<UserEntry, EntryState> {
    map k | k in t.states ::
      if k.user == user
      then t.states[k].(ignored := k.entry in t.entries && Ignored(like, t.words, user, t.entries[k.entry].article))
      else t.states[k]
  }

  function RecomputeIgnored(t: Tables, like: Like, user: Id): Tables {
    RefreshUser(t.(states := Reflagged(t, like, user)), user)
  }

  function AddIgnoreWord(t: Tables, like: Like, user: Id, word: string): Result<Tables, Error> {
    match InsertWord(t, user, word)
    case Err(e) => Err(e)
    case Ok(t1) => Ok(RecomputeIgnored(t1, like, user))
  }

  function RemoveIgnoreWord(t: Tables, like: Like, user: Id, id: Id): Result<Tables, Error> {
    match DeleteWord(t, user, id)
    case Err(e) => Err(e)
    case Ok(t1) => Ok(RecomputeIgnored(t1, like, user))
  }

  // ---------------------------------------------------------------- pins

  function AddPin(t: Tables, user: Id, entry: Id): Result<Tables, Error> {
    if UserEntry(user, entry) !in t.states then Err(NotFound)
    else Ok(t.(pins := t.pins + {UserEntry(user, entry)}))
  }

  function RemovePin(t: Tables, user: Id, entry: Id): Result<Tables, Error> {
    if UserEntry(user, entry) !in t.pins then Err(NotFound)
    else Ok(t.(pins := t.pins - {UserEntry(user, entry)}))
  }

  // ---------------------------------------------------------------- garbage collection

  /** DELETE FROM entries, with the cascade to state rows and pins the schema declares. */
  function DeleteEntries(t: Tables, doomed: set<Id>): Tables {
    t.(entries := t.entries - doomed,
       states := map k | k in t.states && k.entry !in doomed :: t.states[k],
       pins := set k | k in t.pins && k.entry !in doomed)
  }

  function EntryFeeds(t: Tables, ids: set<Id>): set<Id> {
    set i | i in ids && i in t.entries :: t.entries[i].feed
  }

  function DeleteEntriesAndRefresh(t: Tables, doomed: set<Id>): (Tables, nat) {
    (RefreshFeeds(DeleteEntries(t, doomed), EntryFeeds(t, doomed)), |doomed|)
  }

  predicate Pinned(t: Tables, id: Id) {
    exists k | k in t.pins :: k.entry == id
  }

  predicate UnreadByAnyone(t: Tables, id: Id) {
    exists k | k in t.states :: k.entry == id && t.states[k].readAt.None?
  }

  function OldReadEntries(t: Tables, before: int): set<Id> {
    set i | i in t.entries && t.entries[i].fetchedAt < before && !UnreadByAnyone(t, i) && !Pinned(t, i)
  }

  function DeleteOldReadEntries(t: Tables, before: int): (Tables, nat) {
    DeleteEntriesAndRefresh(t, OldReadEntries(t, before))
  }

  function PlaceOf(t: Tables, i: Id): Place
    requires i in t.entries
  {
    Place(t.entries[i].publishedAt, i)
  }

  function FeedPlaces(t: Tables, feed: Id): set<Place> {
    set i | i in t.entries && t.entries[i].feed == feed :: PlaceOf(t, i)
  }

  /** `ROW_NUMBER() OVER (PARTITION BY feed_id ORDER BY published_at DESC, id DESC)`. */
  function RowNumber(t: Tables, i: Id): nat
    requires i in t.entries
  {
    1 + |Ahead(FeedPlaces(t, t.entries[i].feed), PlaceOf(t, i))|
  }

  function ExcessEntries(t: Tables, limit: int): set<Id> {
    set i | i in t.entries && RowNumber(t, i) > limit && !Pinned(t, i)
  }

  function TrimExcessEntries(t: Tables, limit: int): (Tables, nat) {
    DeleteEntriesAndRefresh(t, ExcessEntries(t, limit))
  }

  function LastActivity(f: Feed): int {
    if f.lastFetchedAt.Some? then f.lastFetchedAt.value else f.createdAt
  }

  function OrphanFeeds(t: Tables, before: int): set<Id> {
    set f | f in t.feeds && LastActivity(t.feeds[f]) < before && !(exists k | k in t.subs :: k.feed == f)
  }

  /** DELETE FROM feeds, with the cascade to entries (and theirs) and subscriptions. */
  function DeleteFeeds(t: Tables, doomed: set<Id>): Tables {
    DeleteEntries(t, set i | i in t.entries && t.entries[i].feed in doomed)
      .(feeds := t.feeds - doomed,
        subs := map k | k in t.subs && k.feed !in doomed :: t.subs[k])
  }

  function DeleteOrphanFeeds(t: Tables, before: int): (Tables, nat) {
    (DeleteFeeds(t, OrphanFeeds(t, before)), |OrphanFeeds(t, before)|)
  }
}
