/**
 * The order every entry query of internal/store uses, `(published_at, id)` descending, over
 * finite sets: ranks, sorted lists, and what lies after a cursor.
 */
module Places {
  import opened Wrappers
  import Ranks

  /** Where a row stands. A cursor may name a place that no row has, even one with a negative id. */
  datatype Place = Place(at: int, id: int)

  /** Does `a` come before `b` in `ORDER BY published_at DESC, id DESC`? */
  predicate Before(a: Place, b: Place) {
    a.at > b.at || (a.at == b.at && a.id > b.id)
  }

  lemma BeforeIsStrictTotal()
    ensures Ranks.StrictTotal(Before)
  {
  }

  function Ahead(s: set<Place>, p: Place): set<Place> {
    Ranks.Ahead(s, p, Before)
  }

  lemma FirstExists(s: set<Place>)
    requires s != {}
    ensures exists p :: p in s && forall q :: q in s && q != p ==> Before(p, q)
  {
    var x :| x in s;
    var p := Ranks.LastExists(s, x, (a, b) => Before(b, a));
    assert p in s && forall q :: q in s && q != p ==> Before(p, q);
  }

  /** The first `n` rows: `ROW_NUMBER() <= n`. */
  function Top(s: set<Place>, n: int): set<Place> {
    Ranks.First(s, n, Before)
  }

  /** Exactly `n` rows are in the top, or all if there are not that many. */
  lemma TopSize(s: set<Place>, n: nat)
    ensures |Top(s, n)| == if |s| < n then |s| else n
  {
    BeforeIsStrictTotal();
    Ranks.FirstSize(s, n, Before);
  }

  /** Everything in the top comes before everything else. */
  lemma TopIsFirst(s: set<Place>, n: int, p: Place, q: Place)
    requires p in Top(s, n) && q in s && q !in Top(s, n)
    ensures Before(p, q)
  {
    BeforeIsStrictTotal();
    Ranks.FirstAreFirst(s, n, Before, p, q);
  }

  // ---------------------------------------------------------------- sorted lists

  ghost predicate Descending(l: seq<Place>) {
    forall i, j :: 0 <= i < j < |l| ==> Before(l[i], l[j])
  }

  ghost predicate Lists(l: seq<Place>, s: set<Place>) {
    Descending(l) && forall p :: p in l <==> p in s
  }

  /** The rows of a query result in order. */
  function Sorted(s: set<Place>): (l: seq<Place>)
    ensures Lists(l, s) && |l| == |s|
    decreases |s|
  {
    if s == {} then []
    else
      FirstExists(s);
      var p :| p in s && forall q :: q in s && q != p ==> Before(p, q);
      [p] + Sorted(s - {p})
  }

  lemma HeadComesFirst(l: seq<Place>, s: set<Place>, p: Place)
    requires Lists(l, s) && p in s
    ensures l != [] && (p == l[0] || Before(l[0], p))
  {
    assert p in l;
    var i :| 0 <= i < |l| && l[i] == p;
  }

  /** A set has one sorted list. */
  lemma {:induction false} ListsUnique(a: seq<Place>, b: seq<Place>, s: set<Place>)
    requires Lists(a, s) && Lists(b, s)
    ensures a == b
  {
    if a != [] {
      HeadIsMember(a, s);
      HeadComesFirst(b, s, a[0]);
      HeadIsMember(b, s);
      HeadComesFirst(a, s, b[0]);
      DropLists(a, s, 0);
      DropLists(b, s, 0);
      ListsUnique(a[1..], b[1..], set q | q in s && Before(a[0], q));
      assert a == [a[0]] + a[1..] && b == [b[0]] + b[1..];
    } else if b != [] {
      HeadIsMember(b, s);
    }
  }

  lemma HeadIsMember(l: seq<Place>, s: set<Place>)
    requires Lists(l, s) && l != []
    ensures l[0] in s
  {
    assert l[0] in l;
  }

  /** Dropping the rows up to `n` leaves those strictly after row `n`. */
  lemma DropLists(l: seq<Place>, s: set<Place>, n: nat)
    requires Lists(l, s) && n < |l|
    ensures Lists(l[n + 1..], set p | p in s && Before(l[n], p))
  {
    forall p ensures p in l[n + 1..] <==> p in s && Before(l[n], p) {
      if p in l[n + 1..] {
        var i :| 0 <= i < |l| - n - 1 && l[n + 1..][i] == p;
        assert p == l[n + 1 + i] && Before(l[n], l[n + 1 + i]);
        assert p in l;
      }
      if p in s && Before(l[n], p) {
        var i :| 0 <= i < |l| && l[i] == p;
        assert l[n + 1..][i - n - 1] == p;
      }
    }
  }

  // ---------------------------------------------------------------- keyset pagination

  /** The rows a cursor leaves: strictly after the place it names. */
  function After(s: set<Place>, cursor: Option<Place>): set<Place> {
    if cursor.None? then s else set p | p in s && Before(cursor.value, p)
  }

  /** One request: the first `limit` rows after the cursor. */
  function Page(s: set<Place>, limit: nat, cursor: Option<Place>): seq<Place> {
    var l := Sorted(After(s, cursor));
    if |l| <= limit then l else l[..limit]
  }

  /** The handler's rule: a full page names its last row as the next cursor, a short one none. */
  function NextCursor(page: seq<Place>, limit: nat): Option<Place> {
    if |page| == limit && page != [] then Some(page[|page| - 1]) else None
  }

  /** The cursor at row `n` of the sorted list leaves exactly the rows from `n + 1` on. */
  lemma AfterRow(s: set<Place>, n: nat)
    requires n < |Sorted(s)|
    ensures Sorted(After(s, Some(Sorted(s)[n]))) == Sorted(s)[n + 1..]
  {
    DropLists(Sorted(s), s, n);
    ListsUnique(Sorted(After(s, Some(Sorted(s)[n]))), Sorted(s)[n + 1..], After(s, Some(Sorted(s)[n])));
  }

  /** A later cursor narrows an earlier one. */
  lemma AfterAfter(s: set<Place>, cursor: Option<Place>, p: Place)
    requires p in After(s, cursor)
    ensures After(s, Some(p)) == After(After(s, cursor), Some(p))
  {
  }

  lemma PageEnd(s: set<Place>, limit: nat, cursor: Option<Place>)
    requires limit >= 1 && |Page(s, limit, cursor)| == limit
    ensures
      var page := Page(s, limit, cursor);
      var l := Sorted(After(s, cursor));
      && page == l[..limit]
      && NextCursor(page, limit) == Some(l[limit - 1])
      && Sorted(After(s, NextCursor(page, limit))) == l[limit..]
      && |After(s, NextCursor(page, limit))| == |After(s, cursor)| - limit
  {
    var rest := After(s, cursor);
    var l := Sorted(rest);
    assert l[limit - 1] in l;
    AfterAfter(s, cursor, l[limit - 1]);
    AfterRow(rest, limit - 1);
  }

  /** Every request a client makes that follows next cursors from `cursor` to the end. */
  function Follow(s: set<Place>, limit: nat, cursor: Option<Place>): seq<seq<Place>>
    requires limit >= 1
    decreases |After(s, cursor)|
  {
    var page := Page(s, limit, cursor);
    if |page| == limit then
      PageEnd(s, limit, cursor);
      [page] + Follow(s, limit, NextCursor(page, limit))
    else [page]
  }

  function Concat(pages: seq<seq<Place>>): seq<Place> {
    if pages == [] then [] else pages[0] + Concat(pages[1..])
  }

  /** One request more than there are full pages. */
  function Requests(rows: nat, limit: nat): nat
    requires limit >= 1
  {
    if rows < limit then 1 else 1 + Requests(rows - limit, limit)
  }

  lemma {:induction false} RequestsBound(rows: nat, limit: nat)
    requires limit >= 1
    ensures (Requests(rows, limit) - 1) * limit <= rows < Requests(rows, limit) * limit
  {
    if rows >= limit {
      RequestsBound(rows - limit, limit);
      var q := Requests(rows - limit, limit);
      assert (q + 1) * limit == q * limit + limit;
      assert q * limit == (q - 1) * limit + limit;
    }
  }

  lemma FullPage(s: set<Place>, limit: nat, cursor: Option<Place>)
    requires limit >= 1 && |Page(s, limit, cursor)| == limit
    ensures
      var next := NextCursor(Page(s, limit, cursor), limit);
      && Page(s, limit, cursor) + Sorted(After(s, next)) == Sorted(After(s, cursor))
      && |After(s, next)| + limit == |After(s, cursor)|
  {
    PageEnd(s, limit, cursor);
    CutList(Sorted(After(s, cursor)), limit);
  }

  lemma CutList(l: seq<Place>, n: nat)
    requires n <= |l|
    ensures l == l[..n] + l[n..]
  {
  }

  lemma FollowFull(s: set<Place>, limit: nat, cursor: Option<Place>)
    requires limit >= 1 && |Page(s, limit, cursor)| == limit
    ensures
      var page := Page(s, limit, cursor);
      Follow(s, limit, cursor) == [page] + Follow(s, limit, NextCursor(page, limit))
  {
    PageEnd(s, limit, cursor);
  }

  lemma ShortPage(s: set<Place>, limit: nat, cursor: Option<Place>)
    requires limit >= 1 && |Page(s, limit, cursor)| != limit
    ensures Follow(s, limit, cursor) == [Sorted(After(s, cursor))]
    ensures |After(s, cursor)| < limit
  {
  }

  lemma {:induction false} FollowConcat(s: set<Place>, limit: nat, cursor: Option<Place>)
    requires limit >= 1
    ensures Concat(Follow(s, limit, cursor)) == Sorted(After(s, cursor))
    decreases |After(s, cursor)|
  {
    var page := Page(s, limit, cursor);
    if |page| == limit {
      var next := NextCursor(page, limit);
      FullPage(s, limit, cursor);
      FollowFull(s, limit, cursor);
      FollowConcat(s, limit, next);
      ConcatCons(page, Follow(s, limit, next));
    } else {
      ShortPage(s, limit, cursor);
      ConcatCons(Sorted(After(s, cursor)), []);
    }
  }

  lemma {:induction false} FollowCount(s: set<Place>, limit: nat, cursor: Option<Place>)
    requires limit >= 1
    ensures |Follow(s, limit, cursor)| == Requests(|After(s, cursor)|, limit)
    decreases |After(s, cursor)|
  {
    var page := Page(s, limit, cursor);
    if |page| == limit {
      var next := NextCursor(page, limit);
      FullPage(s, limit, cursor);
      FollowFull(s, limit, cursor);
      FollowCount(s, limit, next);
    } else {
      ShortPage(s, limit, cursor);
    }
  }

  lemma ConcatCons(page: seq<Place>, pages: seq<seq<Place>>)
    ensures Concat([page] + pages) == page + Concat(pages)
  {
    assert ([page] + pages)[1..] == pages;
  }

  /**
   * Following next cursors over an unchanging store lists everything once, in order, for any
   * page size, in a known number of requests.
   */
  lemma FollowListsEverything(s: set<Place>, limit: nat)
    requires limit >= 1
    ensures Concat(Follow(s, limit, None)) == Sorted(s)
    ensures |Follow(s, limit, None)| == Requests(|s|, limit)
  {
    FollowConcat(s, limit, None);
    FollowCount(s, limit, None);
  }
}
