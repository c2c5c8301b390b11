/**
 * The screen's signals and their sync with the address bar: `currentRouteFromSignals`,
 * `applyRouteToSignals`, `hydrateSignalsFromLocation` and `startUrlSync` of
 * web/src/state/url.ts.
 */
module Screen {
  import opened Wrappers
  import opened Routes

  /** One snapshot of the signals. Nothing keeps several views from being switched on at once. */
  datatype Signals = Signals(
    selectedFeedId: Option<nat>,
    groupTarget: Option<Target>,
    searchMode: bool,
    searchQuery: string,
    managerMode: bool,
    filters: Filters,
    help: bool,
    pins: bool,
    stats: bool)

  function Canonical(help: bool, pins: bool, stats: bool): seq<Overlay> {
    (if help then [Help] else []) + (if pins then [Pins] else []) + (if stats then [Stats] else [])
  }

  function CurrentRoute(s: Signals): Route {
    var overlays := Canonical(s.help, s.pins, s.stats);
    if s.selectedFeedId.Some? then Route(Feed(s.selectedFeedId.value), overlays)
    else if s.groupTarget.Some? then Route(Group(s.groupTarget.value), overlays)
    else if s.searchMode then Route(Search(s.searchQuery), overlays)
    else if s.managerMode then Route(Manage(s.filters), overlays)
    else Route(Home, overlays)
  }

  function Applied(s: Signals, r: Route): Signals {
    Signals(
      if r.view.Feed? then Some(r.view.feedId) else None,
      if r.view.Group? then Some(r.view.target) else None,
      r.view.Search?,
      if r.view.Search? then r.view.query else "",
      r.view.Manage?,
      if r.view.Manage? then r.view.filters else s.filters,
      Help in r.overlays,
      Pins in r.overlays,
      Stats in r.overlays)
  }

  /** The overlays of a list, each once, in the order the program lists them. */
  function Ordered(overlays: seq<Overlay>): seq<Overlay> {
    Canonical(Help in overlays, Pins in overlays, Stats in overlays)
  }

  lemma OrderedMembers(overlays: seq<Overlay>)
    ensures Ordered(Ordered(overlays)) == Ordered(overlays)
    ensures forall o :: o in Ordered(overlays) <==> o in overlays
  {
    forall o ensures o in Ordered(overlays) <==> o in overlays {
      match o case Help => case Pins => case Stats =>
    }
  }

  /** Reading back what was applied gives the route, its overlays in canonical order. */
  lemma ApplyThenRead(s: Signals, r: Route)
    ensures CurrentRoute(Applied(s, r)) == r.(overlays := Ordered(r.overlays))
  {
  }

  /** So it is the same route exactly when its overlays were listed in that order to begin with. */
  lemma ApplyIsInvertedIff(s: Signals, r: Route)
    ensures CurrentRoute(Applied(s, r)) == r <==> exists a, b, c :: r.overlays == Canonical(a, b, c)
  {
    ApplyThenRead(s, r);
    if a, b, c :| r.overlays == Canonical(a, b, c) {
      CanonicalReadsBack(s, r, a, b, c);
    }
  }

  lemma CanonicalIsOrdered(help: bool, pins: bool, stats: bool)
    ensures Ordered(Canonical(help, pins, stats)) == Canonical(help, pins, stats)
  {
    var all := Canonical(help, pins, stats);
    assert Help in all <==> help;
    assert Pins in all <==> pins;
    assert Stats in all <==> stats;
  }

  lemma ShownOverlays(s: Signals)
    ensures CurrentRoute(s).overlays == Canonical(s.help, s.pins, s.stats)
  {
  }

  lemma CanonicalReadsBack(s: Signals, r: Route, help: bool, pins: bool, stats: bool)
    requires r.overlays == Canonical(help, pins, stats)
    ensures CurrentRoute(Applied(s, r)) == r
  {
    ApplyThenRead(s, r);
    CanonicalIsOrdered(help, pins, stats);
  }

  /** Applying the route that is on screen leaves that route on screen. */
  lemma ReadThenApply(s: Signals)
    ensures CurrentRoute(Applied(s, CurrentRoute(s))) == CurrentRoute(s)
  {
    var r := CurrentRoute(s);
    ShownOverlays(s);
    CanonicalReadsBack(s, r, s.help, s.pins, s.stats);
  }

  /** The module-level signals as the program holds them. */
  class SignalStore {
    var selectedFeedId: Option<nat>
    var groupTarget: Option<Target>
    var searchMode: bool
    var searchQuery: string
    var managerMode: bool
    var filters: Filters
    var help: bool
    var pins: bool
    var stats: bool

    constructor ()
      ensures Snapshot() == Signals(None, None, false, "", false, Filters(AllKinds, "", false, "", "", ""),
                                    false, false, false)
    {
      selectedFeedId, groupTarget := None, None;
      searchMode, searchQuery, managerMode := false, "", false;
      filters := Filters(AllKinds, "", false, "", "", "");
      help, pins, stats := false, false, false;
    }

    function Snapshot(): Signals
      reads this
    {
      Signals(selectedFeedId, groupTarget, searchMode, searchQuery, managerMode, filters, help, pins, stats)
    }

    method ApplyRoute(r: Route)
      modifies this
      ensures Snapshot() == Applied(old(Snapshot()), r)
      ensures CurrentRoute(Snapshot()) == r.(overlays := Ordered(r.overlays))
    {
      selectedFeedId := if r.view.Feed? then Some(r.view.feedId) else None;
      groupTarget := if r.view.Group? then Some(r.view.target) else None;
      searchMode := r.view.Search?;
      searchQuery := if r.view.Search? then r.view.query else "";
      managerMode := r.view.Manage?;
      if r.view.Manage? {
        filters := r.view.filters;
      }
      help := Help in r.overlays;
      pins := Pins in r.overlays;
      stats := Stats in r.overlays;
      ApplyThenRead(old(Snapshot()), r);
    }

    /** `hydrateSignalsFromLocation`: on load, reload and back or forward. */
    method Hydrate(c: Codec, at: Location) returns (route: Route)
      modifies this
      ensures route == DecodeRoute(c, at)
      ensures CurrentRoute(Snapshot()) == route.(overlays := Ordered(route.overlays))
      ensures Nameable(CurrentRoute(Snapshot()).view)
    {
      route := DecodeRoute(c, at);
      DecodedIsNameable(c, at);
      ApplyRoute(route);
    }

    /** The URL effect. The address ends up showing the screen, and the effect is then at rest. */
    method SyncUrl(c: Codec, at: Location) returns (next: Location)
      requires ValidLocation(at)
      ensures next.pathname + next.search == EncodeRoute(c, CurrentRoute(Snapshot()))
      ensures
        var shown := CurrentRoute(Snapshot());
        Faithful(c) && Nameable(shown.view) ==> DecodeRoute(c, next) == shown
      ensures next == Synced(c, Snapshot(), at) && Synced(c, Snapshot(), next) == next
    {
      var url := EncodeRoute(c, CurrentRoute(Snapshot()));
      next := at;
      SyncShowsTheScreen(c, Snapshot(), at);
      if Faithful(c) { DecodeEncode(c, CurrentRoute(Snapshot())); }
      if url != at.pathname + at.search {
        next := Locate(url);
      }
    }
  }

  function Synced(c: Codec, s: Signals, at: Location): Location {
    var url := EncodeRoute(c, CurrentRoute(s));
    if url != at.pathname + at.search then Locate(url) else at
  }

  /** A page load at `at`: the signals take over the route, then the sync settles the address. */
  function Loaded(c: Codec, s: Signals, at: Location): Location {
    Synced(c, Applied(s, DecodeRoute(c, at)), at)
  }

  /** After the sync the address is the encoding of what is on screen, whatever it was before. */
  lemma SyncShowsTheScreen(c: Codec, s: Signals, at: Location)
    requires ValidLocation(at)
    ensures Synced(c, s, at) == Locate(EncodeRoute(c, CurrentRoute(s)))
    ensures Synced(c, s, at).pathname + Synced(c, s, at).search == EncodeRoute(c, CurrentRoute(s))
    ensures Synced(c, s, Synced(c, s, at)) == Synced(c, s, at)
  {
    LocateJoined(at);
    LocateEncoded(c, CurrentRoute(s));
    var r := CurrentRoute(s);
    PathHasNoQuestion(r.view);
    LocateJoined(Locate(EncodeRoute(c, r)));
  }

  /** From any address one rewrite settles it: loading again changes neither address nor route. */
  lemma OneRewriteSettles(c: Codec, s: Signals, at: Location, later: Signals)
    requires Faithful(c) && ValidLocation(at)
    ensures
      var first := Loaded(c, s, at);
      && DecodeRoute(c, first) == CurrentRoute(Applied(s, DecodeRoute(c, at)))
      && Loaded(c, later, first) == first
  {
    var r := DecodeRoute(c, at);
    var shown := CurrentRoute(Applied(s, r));
    ApplyThenRead(s, r);
    DecodedIsNameable(c, at);
    SyncShowsTheScreen(c, Applied(s, r), at);
    DecodeEncode(c, shown);
    var first := Loaded(c, s, at);
    ApplyThenRead(later, shown);
    OrderedMembers(r.overlays);
    ValidAfterSync(c, shown);
    SyncShowsTheScreen(c, Applied(later, shown), first);
  }

  lemma ValidAfterSync(c: Codec, r: Route)
    ensures ValidLocation(Locate(EncodeRoute(c, r)))
  {
    LocateEncoded(c, r);
    PathHasNoQuestion(r.view);
  }
}
