/**
 * Following next cursors while the store changes between requests: entries arrive, are read, ignored
 * and deleted, subscriptions come and go.
 */
module Browsing {
  import opened Wrappers
  import opened Tables
  import opened Transactions
  import opened StoreInvariant
  import opened StoreMeaning
  import opened Places
  import opened Queries

  /** A client following cursors; its k-th request meets the k-th set of rows. It may give up early. */
  function Browse(moments: seq<set<Place>>, limit: nat, cursor: Option<Place>): seq<seq<Place>>
    requires limit >= 1
  {
    if moments == [] then []
    else
      var page := Page(moments[0], limit, cursor);
      [page] + if |page| == limit then Browse(moments[1..], limit, NextCursor(page, limit)) else []
  }

  /** Did it come to a page without a next cursor? */
  predicate Finished(moments: seq<set<Place>>, limit: nat, cursor: Option<Place>)
    requires limit >= 1
  {
    moments != [] &&
    var page := Page(moments[0], limit, cursor);
    |page| == limit ==> Finished(moments[1..], limit, NextCursor(page, limit))
  }

  predicate Past(cursor: Option<Place>, p: Place) { cursor.Some? ==> Before(cursor.value, p) }

  /** A page lists what lies between its cursor and the next one, or everything if there is none. */
  lemma PageIs(s: set<Place>, limit: nat, cursor: Option<Place>)
    requires limit >= 1
    ensures
      var page := Page(s, limit, cursor);
      var next := NextCursor(page, limit);
      && Descending(page)
      && (next.Some? <==> |page| == limit)
      && forall p :: p in page <==>
           p in s && Past(cursor, p) && (next.Some? ==> p == next.value || Before(p, next.value))
  {
    var rest := After(s, cursor);
    var l := Sorted(rest);
    var page := Page(s, limit, cursor);
    var next := NextCursor(page, limit);
    forall p ensures p in page <==>
      p in s && Past(cursor, p) && (next.Some? ==> p == next.value || Before(p, next.value))
    {
      if |page| == limit {
        if p in page {
          var i :| 0 <= i < |page| && page[i] == p;
          assert l[i] in l;
        }
        if p in rest {
          var i :| 0 <= i < |l| && l[i] == p;
          if i < limit { assert page[i] == p; }
        }
      } else {
        assert page == l;
      }
    }
  }

  lemma ConcatOne(page: seq<Place>)
    ensures Concat([page] + []) == page
  {
    ConcatCons(page, []);
    assert page + [] == page;
  }

  lemma BrowseOn(moments: seq<set<Place>>, limit: nat, cursor: Option<Place>)
    requires limit >= 1 && moments != []
    ensures
      var page := Page(moments[0], limit, cursor);
      Concat(Browse(moments, limit, cursor)) ==
      page + if |page| == limit then Concat(Browse(moments[1..], limit, NextCursor(page, limit))) else []
  {
    var page := Page(moments[0], limit, cursor);
    if |page| == limit {
      ConcatCons(page, Browse(moments[1..], limit, NextCursor(page, limit)));
    } else {
      ConcatOne(page);
    }
  }

  lemma AppendDescending(a: seq<Place>, b: seq<Place>, last: Place)
    requires Descending(a) && Descending(b)
    requires forall p :: p in a ==> p == last || Before(p, last)
    requires forall p :: p in b ==> Before(last, p)
    ensures Descending(a + b)
  {
    forall i, j | 0 <= i < j < |a + b| ensures Before((a + b)[i], (a + b)[j]) {
      if i < |a| <= j {
        assert a[i] in a && b[j - |a|] in b;
      }
    }
  }

  /**
   * Whatever happens between the requests, what the client gets is in order, so no row comes twice,
   * and every row comes from a moment in which it was selected.
   */
  lemma {:induction false} BrowsingKeepsOrder(moments: seq<set<Place>>, limit: nat, cursor: Option<Place>)
    requires limit >= 1
    ensures
      var l := Concat(Browse(moments, limit, cursor));
      Descending(l) && forall p :: p in l ==> Past(cursor, p) && exists k :: 0 <= k < |moments| && p in moments[k]
  {
    if moments != [] {
      var page := Page(moments[0], limit, cursor);
      var next := NextCursor(page, limit);
      PageIs(moments[0], limit, cursor);
      BrowseOn(moments, limit, cursor);
      if |page| == limit {
        var rest := Concat(Browse(moments[1..], limit, next));
        BrowsingKeepsOrder(moments[1..], limit, next);
        AppendDescending(page, rest, next.value);
        forall p | p in rest ensures Past(cursor, p) && exists k :: 0 <= k < |moments| && p in moments[k] {
          assert next.value in page;
          var k :| 0 <= k < |moments[1..]| && p in moments[1..][k];
          assert p in moments[k + 1];
        }
      } else {
        assert page + [] == page;
      }
    }
  }

  /** And every row was selected when it was handed out: the k-th page lists only rows of the k-th moment. */
  lemma {:induction false} PagesAreOfTheirMoment(moments: seq<set<Place>>, limit: nat, cursor: Option<Place>)
    requires limit >= 1
    ensures
      var pages := Browse(moments, limit, cursor);
      |pages| <= |moments| && forall k :: 0 <= k < |pages| ==> forall p :: p in pages[k] ==> p in moments[k]
  {
    if moments != [] {
      var page := Page(moments[0], limit, cursor);
      var pages := Browse(moments, limit, cursor);
      PageIs(moments[0], limit, cursor);
      if |page| == limit {
        var rest := Browse(moments[1..], limit, NextCursor(page, limit));
        PagesAreOfTheirMoment(moments[1..], limit, NextCursor(page, limit));
        forall k | 0 <= k < |pages| ensures forall p :: p in pages[k] ==> p in moments[k] {
          if k > 0 { assert pages[k] == rest[k - 1] && moments[k] == moments[1..][k - 1]; }
        }
      }
    }
  }

  /** A row selected at every request is handed out before the client runs out of cursors. */
  lemma {:induction false} StableRowsAreListed(moments: seq<set<Place>>, limit: nat, cursor: Option<Place>, p: Place)
    requires limit >= 1 && Finished(moments, limit, cursor) && Past(cursor, p)
    requires forall k :: 0 <= k < |moments| ==> p in moments[k]
    ensures p in Concat(Browse(moments, limit, cursor))
  {
    var page := Page(moments[0], limit, cursor);
    PageIs(moments[0], limit, cursor);
    BrowseOn(moments, limit, cursor);
    if p !in page {
      StableRowsAreListed(moments[1..], limit, NextCursor(page, limit), p);
    }
  }

  /** At one position, and nothing else there is of the same entry. */
  ghost predicate ListedOnce(l: seq<Place>, p: Place) {
    exists a :: 0 <= a < |l| && l[a] == p && forall b :: 0 <= b < |l| && l[b].id == p.id ==> b == a
  }

  // ---------------------------------------------------------------- requests between transactions

  /** The tables at each request, with a list of transactions between one and the next. */
  function Moments(t: Tables, like: Like, turns: seq<seq<Step>>): seq<Tables>
    decreases |turns|
  {
    [t] + if turns == [] then [] else Moments(Run(t, like, turns[0]), like, turns[1..])
  }

  function RowsAt(ts: seq<Tables>, user: Id, f: Filter): seq<set<Place>> {
    seq(|ts|, k requires 0 <= k < |ts| => Rows(ts[k], user, f))
  }

  /** The entry is there after every single transaction. */
  predicate Stays(t: Tables, like: Like, steps: seq<Step>, i: Id)
    decreases |steps|
  {
    i in t.entries && (steps == [] || Stays(Apply(t, like, steps[0]), like, steps[1..], i))
  }

  predicate StaysThroughout(t: Tables, like: Like, turns: seq<seq<Step>>, i: Id)
    decreases |turns|
  {
    i in t.entries &&
    (turns == [] || (Stays(t, like, turns[0], i) && StaysThroughout(Run(t, like, turns[0]), like, turns[1..], i)))
  }

  /** No transaction moves an entry: its date is the one it was first stored with. */
  lemma StepKeepsPlaces(t: Tables, like: Like, s: Step, i: Id)
    requires Valid(t) && i in t.entries && i in Apply(t, like, s).entries
    ensures PlaceOf(Apply(t, like, s), i) == PlaceOf(t, i)
  {
    if s.Upsert? {
      RefetchUndisturbed(t, like, s.feed, s.es, s.now);
    }
  }

  lemma {:induction false} RunKeepsPlaces(t: Tables, like: Like, steps: seq<Step>, i: Id)
    requires Valid(t) && Stays(t, like, steps, i)
    ensures Valid(Run(t, like, steps)) && i in Run(t, like, steps).entries
    ensures PlaceOf(Run(t, like, steps), i) == PlaceOf(t, i)
    decreases |steps|
  {
    if steps != [] {
      StepKeepsValid(t, like, steps[0]);
      StepKeepsPlaces(t, like, steps[0], i);
      RunKeepsPlaces(Apply(t, like, steps[0]), like, steps[1..], i);
    }
  }

  lemma {:induction false} MomentsKeepPlaces(t: Tables, like: Like, turns: seq<seq<Step>>, i: Id, k: nat)
    requires Valid(t) && StaysThroughout(t, like, turns, i) && k < |Moments(t, like, turns)|
    ensures i in Moments(t, like, turns)[k].entries && PlaceOf(Moments(t, like, turns)[k], i) == PlaceOf(t, i)
    decreases |turns|
  {
    if turns != [] {
      RunKeepsPlaces(t, like, turns[0], i);
      if k > 0 { MomentsKeepPlaces(Run(t, like, turns[0]), like, turns[1..], i, k - 1); }
    }
  }

  /** The set has this place, and no other with the same id. */
  ghost predicate OnlyPlace(s: set<Place>, p: Place) { p in s && forall q: Place :: q in s && q.id == p.id ==> q == p }

  lemma OneRowPerEntry(t: Tables, user: Id, f: Filter, i: Id)
    requires i in t.entries && Selected(t, user, f, i)
    ensures OnlyPlace(Rows(t, user, f), PlaceOf(t, i))
  {
  }

  lemma OnceOfMany(rows: seq<set<Place>>, limit: nat, p: Place)
    requires limit >= 1 && p in Concat(Browse(rows, limit, None))
    requires forall k :: 0 <= k < |rows| ==> OnlyPlace(rows[k], p)
    ensures ListedOnce(Concat(Browse(rows, limit, None)), p)
  {
    var l := Concat(Browse(rows, limit, None));
    BrowsingKeepsOrder(rows, limit, None);
    var a :| 0 <= a < |l| && l[a] == p;
    forall b | 0 <= b < |l| && l[b].id == p.id ensures b == a {
      assert l[b] in l;
      var k :| 0 <= k < |rows| && l[b] in rows[k];
      assert OnlyPlace(rows[k], p);
    }
  }

  /**
   * Any transactions may run between the requests: an entry that stays in the store, and is selected
   * whenever a page is asked for, is handed out exactly once by the time there is no next cursor.
   */
  lemma SelectedThroughoutIsListedOnce(
    t: Tables, like: Like, user: Id, f: Filter, turns: seq<seq<Step>>, limit: nat, i: Id)
    requires limit >= 1 && Valid(t) && StaysThroughout(t, like, turns, i)
    requires
      var ts := Moments(t, like, turns);
      forall k :: 0 <= k < |ts| ==> i in ts[k].entries && Selected(ts[k], user, f, i)
    requires Finished(RowsAt(Moments(t, like, turns), user, f), limit, None)
    ensures ListedOnce(Concat(Browse(RowsAt(Moments(t, like, turns), user, f), limit, None)), PlaceOf(t, i))
  {
    var ts := Moments(t, like, turns);
    var rows := RowsAt(ts, user, f);
    var p := PlaceOf(t, i);
    forall k | 0 <= k < |rows| ensures OnlyPlace(rows[k], p) {
      MomentsKeepPlaces(t, like, turns, i, k);
      OneRowPerEntry(ts[k], user, f, i);
    }
    StableRowsAreListed(rows, limit, None, p);
    OnceOfMany(rows, limit, p);
  }

  // ---------------------------------------------------------------- with textual cursors

  function BrowseText(moments: seq<set<Place>>, limit: nat, text: string): seq<seq<Place>>
    requires limit >= 1
  {
    if moments == [] then []
    else
      var page := TextPage(moments[0], limit, text);
      var next := NextCursorText(page, limit);
      [page] + if next != "" then BrowseText(moments[1..], limit, next) else []
  }

  /** Passing the cursor back as text makes no difference to what the client gets. */
  lemma {:induction false} TextMakesNoDifference(moments: seq<set<Place>>, limit: nat, text: string)
    requires limit >= 1 && forall k :: 0 <= k < |moments| ==> AllFitInt64(moments[k])
    ensures BrowseText(moments, limit, text) == Browse(moments, limit, CursorOf(text))
  {
    if moments != [] {
      var page := Page(moments[0], limit, CursorOf(text));
      TextCursorIsExact(moments[0], limit, CursorOf(text));
      if |page| == limit {
        CursorTextIsNotEmpty(page[|page| - 1]);
        TextMakesNoDifference(moments[1..], limit, NextCursorText(page, limit));
      }
    }
  }
}
