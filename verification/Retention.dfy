/** What internal/store/gc.go keeps and what it deletes. */
module Retention {
  import opened Wrappers
  import opened Tables
  import opened Transactions
  import opened Places
  import Ranks

  /** The entries of a feed that outlive a trim: its newest `limit`, and the pinned ones. */
  lemma TrimKeepsTopAndPinned(t: Tables, limit: int, feed: Id)
    ensures
      var r := TrimExcessEntries(t, limit).0;
      FeedPlaces(r, feed) == Top(FeedPlaces(t, feed), limit)
                             + (set i | i in t.entries && t.entries[i].feed == feed && Pinned(t, i) :: PlaceOf(t, i))
  {
    var r := TrimExcessEntries(t, limit).0;
    var s := FeedPlaces(t, feed);
    var pinned := set i | i in t.entries && t.entries[i].feed == feed && Pinned(t, i) :: PlaceOf(t, i);
    forall p ensures p in FeedPlaces(r, feed) <==> p in Top(s, limit) + pinned {
      if p in FeedPlaces(r, feed) {
        var i :| i in r.entries && r.entries[i].feed == feed && PlaceOf(r, i) == p;
        assert i in t.entries && i !in ExcessEntries(t, limit) && PlaceOf(t, i) == p;
      }
      if p in Top(s, limit) + pinned {
        var i :| i in t.entries && t.entries[i].feed == feed && PlaceOf(t, i) == p;
        if p in pinned {
          var j :| j in t.entries && t.entries[j].feed == feed && Pinned(t, j) && PlaceOf(t, j) == p;
          assert i == j;
        }
        assert i in r.entries && PlaceOf(r, i) == p;
      }
    }
  }

  /** The kept top is `limit` entries, or all there are, and everything in it is newer than the rest. */
  lemma TopIsNewest(t: Tables, limit: nat, feed: Id)
    ensures
      var s := FeedPlaces(t, feed);
      && |Top(s, limit)| == (if |s| < limit then |s| else limit)
      && forall p, q :: p in Top(s, limit) && q in s && q !in Top(s, limit) ==> Before(p, q)
  {
    var s := FeedPlaces(t, feed);
    TopSize(s, limit);
    forall p, q | p in Top(s, limit) && q in s && q !in Top(s, limit) ensures Before(p, q) {
      TopIsFirst(s, limit, p, q);
    }
  }

  /** A feed at or under the limit is left alone. */
  lemma TrimLeavesSmallFeeds(t: Tables, limit: nat, feed: Id)
    requires |FeedPlaces(t, feed)| <= limit
    ensures FeedPlaces(TrimExcessEntries(t, limit).0, feed) == FeedPlaces(t, feed)
  {
    var s := FeedPlaces(t, feed);
    TrimKeepsTopAndPinned(t, limit, feed);
    forall p | p in s ensures p in Top(s, limit) {
      assert Ahead(s, p) <= s - {p};
      Ranks.SubsetSize(Ahead(s, p), s - {p});
    }
  }

  /** The collected rows were all read, so what anyone still has unread is untouched. */
  lemma UnreadRowsSurvive(t: Tables, before: int, k: UserFeed)
    ensures
      UnreadRows(DeleteEntries(t, OldReadEntries(t, before)).states, k.user, k.feed) ==
      UnreadRows(t.states, k.user, k.feed)
  {
    var doomed := OldReadEntries(t, before);
    forall x | x in t.states && Unread(t.states[x]) ensures x.entry !in doomed {
      assert UnreadByAnyone(t, x.entry);
    }
  }

  lemma OldEntriesSpareCounts(t: Tables, before: int)
    requires Valid(t)
    ensures DeleteOldReadEntries(t, before).0.subs == t.subs
  {
    var r := DeleteOldReadEntries(t, before).0;
    forall k | k in t.subs ensures r.subs[k] == t.subs[k] {
      assert CountExact(t, k);
      UnreadRowsSurvive(t, before, k);
    }
    assert r.subs == t.subs;
  }

  lemma DeletesExactly(t: Tables, doomed: set<Id>)
    requires doomed <= t.entries.Keys
    ensures
      var (r, n) := DeleteEntriesAndRefresh(t, doomed);
      && r.entries.Keys == t.entries.Keys - doomed
      && n == |t.entries.Keys - r.entries.Keys|
  {
    var r := DeleteEntriesAndRefresh(t, doomed).0;
    assert r.entries.Keys == t.entries.Keys - doomed;
    assert t.entries.Keys - (t.entries.Keys - doomed) == doomed;
  }

  /** Both collectors return the number of rows deleted, and delete nothing else. */
  lemma CollectorsCount(t: Tables, before: int, limit: int)
    ensures
      var (r, n) := DeleteOldReadEntries(t, before);
      n == |t.entries.Keys - r.entries.Keys| && r.entries.Keys <= t.entries.Keys
    ensures
      var (r, n) := TrimExcessEntries(t, limit);
      n == |t.entries.Keys - r.entries.Keys| && r.entries.Keys <= t.entries.Keys
  {
    DeletesExactly(t, OldReadEntries(t, before));
    DeletesExactly(t, ExcessEntries(t, limit));
  }

  /** Deleting entries takes their rows and pins with it and leaves all others as they are. */
  ghost predicate OnlyTheseLeft(t: Tables, r: Tables) {
    && (forall i :: i in r.entries ==> i in t.entries && r.entries[i] == t.entries[i])
    && (forall x :: x in r.states <==> x in t.states && x.entry in r.entries)
    && (forall x :: x in r.states ==> r.states[x] == t.states[x])
    && (forall x :: x in r.pins <==> x in t.pins && x.entry in r.entries)
    && r.words == t.words
  }

  lemma DeleteLeaves(t: Tables, doomed: set<Id>)
    requires Valid(t)
    ensures OnlyTheseLeft(t, DeleteEntriesAndRefresh(t, doomed).0)
    ensures DeleteEntriesAndRefresh(t, doomed).0.entries.Keys == t.entries.Keys - doomed
  {
  }

  /**
   * An entry is collected exactly when it was last fetched before the date and nobody has it unread
   * or pinned. No unread count changes.
   */
  lemma OldEntriesGoIff(t: Tables, before: int, i: Id)
    requires Valid(t) && i in t.entries
    ensures
      var r := DeleteOldReadEntries(t, before).0;
      && OnlyTheseLeft(t, r) && r.feeds == t.feeds && r.subs == t.subs
      && (i in r.entries <==>
            || t.entries[i].fetchedAt >= before
            || (exists x :: x in t.states && x.entry == i && t.states[x].readAt == None)
            || (exists x :: x in t.pins && x.entry == i))
  {
    DeleteLeaves(t, OldReadEntries(t, before));
    OldEntriesSpareCounts(t, before);
  }

  /** The entries of its feed that come before an entry: later published, or as late with a larger id. */
  ghost function Newer(t: Tables, i: Id): set<Id>
    requires i in t.entries
  {
    set j | j in t.entries && t.entries[j].feed == t.entries[i].feed
      && (t.entries[j].publishedAt > t.entries[i].publishedAt
          || (t.entries[j].publishedAt == t.entries[i].publishedAt && j > i))
  }

  lemma RowNumberCounts(t: Tables, i: Id)
    requires i in t.entries
    ensures RowNumber(t, i) == 1 + |Newer(t, i)|
  {
    var newer := Newer(t, i);
    var ahead := Ahead(FeedPlaces(t, t.entries[i].feed), PlaceOf(t, i));
    forall p ensures p in ahead <==> exists j :: j in newer && PlaceOf(t, j) == p {
      if p in ahead {
        var j :| j in t.entries && t.entries[j].feed == t.entries[i].feed && PlaceOf(t, j) == p;
        assert j in newer;
      }
    }
    SamePlaces(t, newer, ahead);
  }

  lemma {:induction false} SamePlaces(t: Tables, ids: set<Id>, places: set<Place>)
    requires forall j :: j in ids ==> j in t.entries
    requires forall p :: p in places <==> exists j :: j in ids && PlaceOf(t, j) == p
    ensures |ids| == |places|
    decreases |ids|
  {
    if j :| j in ids {
      var p := PlaceOf(t, j);
      forall q ensures q in places - {p} <==> exists i :: i in ids - {j} && PlaceOf(t, i) == q {
        if q in places - {p} {
          var i :| i in ids && PlaceOf(t, i) == q;
          assert i in ids - {j};
        }
      }
      SamePlaces(t, ids - {j}, places - {p});
    } else {
      assert places == {};
    }
  }

  /** An entry outlives a trim exactly when it is pinned or fewer than `limit` of its feed are newer. */
  lemma ExcessGoesIff(t: Tables, limit: int, i: Id)
    requires Valid(t) && i in t.entries
    ensures
      var r := TrimExcessEntries(t, limit).0;
      && OnlyTheseLeft(t, r) && r.feeds == t.feeds
      && (i in r.entries <==> |Newer(t, i)| < limit || (exists x :: x in t.pins && x.entry == i))
  {
    DeleteLeaves(t, ExcessEntries(t, limit));
    RowNumberCounts(t, i);
  }

  /** A feed goes exactly when nobody subscribes to it and it was last active before; its entries go with it. */
  lemma OrphansGoIff(t: Tables, before: int, f: Id)
    requires Valid(t) && f in t.feeds
    ensures
      var r := DeleteOrphanFeeds(t, before).0;
      && OnlyTheseLeft(t, r) && r.subs == t.subs
      && (f in r.feeds <==>
            || (exists k :: k in t.subs && k.feed == f)
            || (t.feeds[f].lastFetchedAt.Some? && t.feeds[f].lastFetchedAt.value >= before)
            || (t.feeds[f].lastFetchedAt.None? && t.feeds[f].createdAt >= before))
      && (f in r.feeds ==> r.feeds[f] == t.feeds[f])
      && (forall i :: i in t.entries && t.entries[i].feed == f ==> (i in r.entries <==> f in r.feeds))
  {
    OrphanSubsStay(t, before);
  }

  lemma OrphanSubsStay(t: Tables, before: int)
    requires Valid(t)
    ensures DeleteOrphanFeeds(t, before).0.subs == t.subs
  {
    forall k | k in t.subs ensures k.feed !in OrphanFeeds(t, before) {
    }
  }
}
