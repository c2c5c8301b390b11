/**
 * The read side of internal/store/entries.go, and the cursor rule of internal/api/subscriptions.go
 * on top of it.
 */
module Queries {
  import opened Wrappers
  import opened Tables
  import opened Transactions
  import opened Places
  import opened Decimal

  datatype Filter =
    | ByFeed(feed: Id, unreadOnly: bool)
    | ByFolder(folder: Option<Id>, unreadOnly: bool)
    | ByRating(rating: int, unreadOnly: bool)
    | Today(since: int)

  /** The joins and the WHERE clause, for one entry. `ListEntries` does not join subscriptions. */
  predicate Selected(t: Tables, user: Id, f: Filter, i: Id)
    requires i in t.entries
  {
    var row := UserEntry(user, i);
    var sub := UserFeed(user, t.entries[i].feed);
    && row in t.states && !t.states[row].ignored
    && match f
       case ByFeed(feed, unreadOnly) =>
         t.entries[i].feed == feed && (unreadOnly ==> t.states[row].readAt.None?)
       case ByFolder(folder, unreadOnly) =>
         sub in t.subs && t.subs[sub].folder == folder && (unreadOnly ==> t.states[row].readAt.None?)
       case ByRating(rating, unreadOnly) =>
         sub in t.subs && t.subs[sub].rating == rating && (unreadOnly ==> t.states[row].readAt.None?)
       case Today(since) =>
         sub in t.subs && t.entries[i].createdAt >= since && t.states[row].readAt.None?
  }

  function SelectedIds(t: Tables, user: Id, f: Filter): set<Id> {
    set i | i in t.entries && Selected(t, user, f, i)
  }

  function Rows(t: Tables, user: Id, f: Filter): set<Place> {
    set i | i in t.entries && Selected(t, user, f, i) :: PlaceOf(t, i)
  }

  /** `CountTodayUnread`: state rows alone, no join. */
  function TodayRows(t: Tables, user: Id, since: int): set<UserEntry> {
    set k | k in t.states && k.user == user && !t.states[k].ignored && t.states[k].readAt.None?
      && t.states[k].createdAt >= since
  }

  lemma {:induction false} PlacesCount(t: Tables, ids: set<Id>, places: set<Place>)
    requires forall i :: i in ids ==> i in t.entries
    requires forall p :: p in places <==> p.id in ids && p == PlaceOf(t, p.id)
    ensures |places| == |ids|
    decreases |ids|
  {
    if ids == {} {
      assert places == {};
    } else {
      var i :| i in ids;
      assert PlaceOf(t, i) in places;
      PlacesCount(t, ids - {i}, places - {PlaceOf(t, i)});
    }
  }

  /** The badge of the Today group equals the length of its unlimited list. */
  lemma TodayBadgeMatchesList(t: Tables, user: Id, since: int)
    requires Valid(t)
    ensures |TodayRows(t, user, since)| == |Sorted(Rows(t, user, Today(since)))|
  {
    var ids := SelectedIds(t, user, Today(since));
    PlacesCount(t, ids, Rows(t, user, Today(since)));
    RowsCount(TodayRows(t, user, since), user, ids);
  }

  /** The badge of a subscription equals the length of its unread list. */
  lemma FeedBadgeMatchesList(t: Tables, user: Id, feed: Id)
    requires Valid(t) && UserFeed(user, feed) in t.subs
    ensures t.subs[UserFeed(user, feed)].unreadCount == |Sorted(Rows(t, user, ByFeed(feed, true)))|
  {
    assert CountExact(t, UserFeed(user, feed));
    var ids := SelectedIds(t, user, ByFeed(feed, true));
    PlacesCount(t, ids, Rows(t, user, ByFeed(feed, true)));
    RowsCount(UnreadRows(t.states, user, feed), user, ids);
  }

  /** Nobody sees an entry of a feed they do not subscribe to, through any list. */
  lemma ListsOnlySubscriptions(t: Tables, user: Id, f: Filter, i: Id)
    requires Valid(t) && i in SelectedIds(t, user, f)
    ensures UserFeed(user, t.entries[i].feed) in t.subs
  {
  }

  /**
   * What a user sees of a feed they follow is in the list of that feed, of one folder and of one
   * rating, and in no other; the unread lists hold the unread part of it, and today's what came since.
   */
  lemma EveryEntryHasItsLists(t: Tables, user: Id, i: Id, feed: Id, folder: Option<Id>, rating: int, since: int)
    requires Valid(t) && i in t.entries && UserFeed(user, t.entries[i].feed) in t.subs
    ensures
      var row, sub := t.states[UserEntry(user, i)], t.subs[UserFeed(user, t.entries[i].feed)];
      && (i in SelectedIds(t, user, ByFeed(feed, false)) <==> !row.ignored && feed == t.entries[i].feed)
      && (i in SelectedIds(t, user, ByFolder(folder, false)) <==> !row.ignored && folder == sub.folder)
      && (i in SelectedIds(t, user, ByRating(rating, false)) <==> !row.ignored && rating == sub.rating)
      && (i in SelectedIds(t, user, ByFeed(feed, true)) <==>
            i in SelectedIds(t, user, ByFeed(feed, false)) && row.readAt == None)
      && (i in SelectedIds(t, user, ByFolder(folder, true)) <==>
            i in SelectedIds(t, user, ByFolder(folder, false)) && row.readAt == None)
      && (i in SelectedIds(t, user, ByRating(rating, true)) <==>
            i in SelectedIds(t, user, ByRating(rating, false)) && row.readAt == None)
      && (i in SelectedIds(t, user, Today(since)) <==>
            !row.ignored && row.readAt == None && t.entries[i].createdAt >= since)
  {
  }

  /** Refiling a subscription moves its entries, and no others, to the list of the new folder. */
  lemma RefiledEntriesMove(t: Tables, user: Id, feed: Id, patch: Patch, f: Option<Id>, unreadOnly: bool, i: Id)
    requires Valid(t) && UserFeed(user, feed) in t.subs && patch.folder.Some? && i in t.entries
    ensures UpdateSubscription(t, user, feed, patch).Ok?
    ensures
      var r := UpdateSubscription(t, user, feed, patch).value;
      var folder := if patch.folder.value == 0 then None else patch.folder;
      Selected(r, user, ByFolder(f, unreadOnly), i) <==>
      if t.entries[i].feed == feed then f == folder && Selected(t, user, ByFeed(feed, unreadOnly), i)
      else Selected(t, user, ByFolder(f, unreadOnly), i)
  {
  }

  // ---------------------------------------------------------------- cursors as text

  function FormatCursor(p: Place): string {
    FormatInt(p.at) + "," + FormatInt(p.id)
  }

  function IndexOf(s: string, c: char): (i: nat)
    ensures i <= |s| && (i < |s| ==> s[i] == c) && forall j :: 0 <= j < i ==> s[j] != c
  {
    if s == [] || s[0] == c then 0 else 1 + IndexOf(s[1..], c)
  }

  /** Split at the first comma; both halves must be 64-bit integers. */
  function ParseCursor(v: string): Option<(int, int)> {
    var c := IndexOf(v, ',');
    if c == |v| then None
    else
      match (ParseInt(v[..c]), ParseInt(v[c + 1..]))
      case (Some(at), Some(id)) => Some((at, id))
      case _ => None
  }

  lemma FirstCommaIs(v: string, c: nat)
    requires c < |v| && v[c] == ',' && ',' !in v[..c]
    ensures IndexOf(v, ',') == c
  {
    forall j | 0 <= j < c ensures v[j] != ',' { assert v[..c][j] == v[j]; }
  }

  /** The comma at `c` is the first, with an integer on either side. */
  ghost predicate TwoIntegers(v: string, c: nat, at: int, id: int) {
    c < |v| && v[c] == ',' && ',' !in v[..c] && ParseInt(v[..c]) == Some(at) && ParseInt(v[c + 1..]) == Some(id)
  }

  /** A cursor is read exactly from two integers on either side of the first comma. */
  lemma CursorIsRead(v: string, at: int, id: int)
    ensures ParseCursor(v) == Some((at, id)) <==> exists c: nat :: TwoIntegers(v, c, at, id)
  {
    if ParseCursor(v) == Some((at, id)) {
      assert ',' !in v[..IndexOf(v, ',')];
      assert TwoIntegers(v, IndexOf(v, ','), at, id);
    }
    if c: nat :| TwoIntegers(v, c, at, id) {
      FirstCommaIs(v, c);
    }
  }

  lemma CursorRoundTrip(p: Place)
    requires FitsInt64(p.at) && FitsInt64(p.id)
    ensures ParseCursor(FormatCursor(p)) == Some((p.at, p.id))
  {
    ParseFormat(p.at);
    ParseFormat(p.id);
    var v := FormatCursor(p);
    var left := FormatInt(p.at);
    NoComma(p.at);
    assert v[|left|] == ',';
    assert forall j :: 0 <= j < |left| ==> v[j] == left[j];
    assert IndexOf(v, ',') == |left|;
    assert v[..|left|] == left && v[|left| + 1..] == FormatInt(p.id);
  }

  /** The cursor a client passes back, read by the handler. */
  function CursorOf(v: string): Option<Place> {
    match ParseCursor(v)
    case Some((at, id)) => Some(Place(at, id))
    case None => None
  }

  function NextCursorText(page: seq<Place>, limit: nat): string {
    match NextCursor(page, limit) case Some(p) => FormatCursor(p) case None => ""
  }

  ghost predicate AllFitInt64(s: set<Place>) {
    forall p :: p in s ==> FitsInt64(p.at) && FitsInt64(p.id)
  }

  /** The text route loses nothing: parsing the printed next cursor gives the place itself. */
  lemma TextCursorIsExact(s: set<Place>, limit: nat, cursor: Option<Place>)
    requires AllFitInt64(s) && limit >= 1
    ensures
      var page := Page(s, limit, cursor);
      CursorOf(NextCursorText(page, limit)) == NextCursor(page, limit)
  {
    var page := Page(s, limit, cursor);
    if |page| == limit {
      var last := page[|page| - 1];
      assert last in Sorted(After(s, cursor));
      CursorRoundTrip(last);
    }
  }

  /** Following cursors through any list of the store, one page size throughout. */
  lemma PagesListEverything(t: Tables, user: Id, f: Filter, limit: nat)
    requires limit >= 1
    ensures Concat(Follow(Rows(t, user, f), limit, None)) == Sorted(Rows(t, user, f))
    ensures |Follow(Rows(t, user, f), limit, None)| == Requests(|Rows(t, user, f)|, limit)
  {
    FollowListsEverything(Rows(t, user, f), limit);
  }

  /** One request as the client makes it: the cursor as text, "" for the first page. */
  function TextPage(s: set<Place>, limit: nat, text: string): seq<Place> {
    Page(s, limit, CursorOf(text))
  }

  lemma TextPageEnd(s: set<Place>, limit: nat, text: string)
    requires AllFitInt64(s) && limit >= 1 && NextCursorText(TextPage(s, limit, text), limit) != ""
    ensures
      var next := NextCursorText(TextPage(s, limit, text), limit);
      |After(s, CursorOf(next))| < |After(s, CursorOf(text))|
  {
    TextCursorIsExact(s, limit, CursorOf(text));
    PageEnd(s, limit, CursorOf(text));
  }

  /** Every page of a client that passes each next cursor back as it was printed, until there is none. */
  function FollowText(s: set<Place>, limit: nat, text: string): seq<seq<Place>>
    requires AllFitInt64(s) && limit >= 1
    decreases |After(s, CursorOf(text))|
  {
    var page := TextPage(s, limit, text);
    var next := NextCursorText(page, limit);
    if next == "" then [page]
    else
      TextPageEnd(s, limit, text);
      [page] + FollowText(s, limit, next)
  }

  lemma CursorTextIsNotEmpty(p: Place)
    ensures FormatCursor(p) != ""
  {
  }

  lemma {:induction false} FollowTextIsFollow(s: set<Place>, limit: nat, text: string)
    requires AllFitInt64(s) && limit >= 1
    ensures FollowText(s, limit, text) == Follow(s, limit, CursorOf(text))
    decreases |After(s, CursorOf(text))|
  {
    var cursor := CursorOf(text);
    var page := Page(s, limit, cursor);
    TextCursorIsExact(s, limit, cursor);
    if |page| == limit {
      CursorTextIsNotEmpty(page[|page| - 1]);
      TextPageEnd(s, limit, text);
      FollowFull(s, limit, cursor);
      FollowTextIsFollow(s, limit, NextCursorText(page, limit));
    } else {
      ShortPage(s, limit, cursor);
    }
  }

  /**
   * A client that starts without a cursor and passes back whatever text it is given receives every
   * selected row once, in order, in one request more than there are full pages.
   */
  lemma TextPagesListEverything(t: Tables, user: Id, f: Filter, limit: nat)
    requires limit >= 1 && AllFitInt64(Rows(t, user, f))
    ensures Concat(FollowText(Rows(t, user, f), limit, "")) == Sorted(Rows(t, user, f))
    ensures |FollowText(Rows(t, user, f), limit, "")| == Requests(|Rows(t, user, f)|, limit)
  {
    TextPagesOf(Rows(t, user, f), limit);
  }

  lemma TextPagesOf(s: set<Place>, limit: nat)
    requires limit >= 1 && AllFitInt64(s)
    ensures Concat(FollowText(s, limit, "")) == Sorted(s)
    ensures |FollowText(s, limit, "")| == Requests(|s|, limit)
  {
    NoCursor();
    FollowTextIsFollow(s, limit, "");
    FollowListsEverything(s, limit);
  }

  lemma NoCursor()
    ensures CursorOf("") == None
  {
  }
}
