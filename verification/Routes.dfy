/**
 * Printing and parsing of screen routes: `encodeRoute` and `decodeRoute` of
 * web/src/state/url.ts.
 */
module Routes {
  import opened Wrappers
  import opened Decimal

  datatype Overlay = Help | Pins | Stats

  datatype KindFilter = AllKinds | FeedKind | PagewatchKind | SelectorKind

  datatype Target = Folder(folderId: Option<nat>) | Rating(rating: int) | Today

  datatype Filters = Filters(kind: KindFilter, query: string, onlyErrors: bool, minErrorCount: string,
                             urlNeedle: string, errorNeedle: string)

  datatype View = Home | Feed(feedId: nat) | Group(target: Target) | Search(query: string) | Manage(filters: Filters)

  datatype Route = Route(view: View, overlays: seq<Overlay>)

  /** `window.location`, as far as the program reads it. */
  datatype Location = Location(pathname: string, search: string)

  datatype Param = Param(name: string, value: string)

  type Params = seq<Param>

  /** `URLSearchParams`: the query text without its question mark, and back. */
  datatype Codec = Codec(write: Params -> string, parse: string -> Params)

  ghost predicate Faithful(c: Codec) {
    forall ps :: c.parse(c.write(ps)) == ps && (c.write(ps) == "" <==> ps == [])
  }

  // ---------------------------------------------------------------- names

  function OverlayName(o: Overlay): string {
    match o case Help => "help" case Pins => "pins" case Stats => "stats"
  }

  function OverlayNamed(s: string): Option<Overlay> {
    if s == "help" then Some(Help) else if s == "pins" then Some(Pins) else if s == "stats" then Some(Stats) else None
  }

  function KindName(k: KindFilter): string {
    match k
    case AllKinds => "all"
    case FeedKind => "feed"
    case PagewatchKind => "pagewatch"
    case SelectorKind => "selector"
  }

  /** Only subscription kinds are recognised; "all", like anything else, means no filter. */
  function KindNamed(s: Option<string>): KindFilter {
    match s
    case None => AllKinds
    case Some(n) =>
      if n == "feed" then FeedKind
      else if n == "pagewatch" then PagewatchKind
      else if n == "selector" then SelectorKind
      else AllKinds
  }

  // ---------------------------------------------------------------- comma lists

  function JoinNames(overlays: seq<Overlay>): string {
    if overlays == [] then ""
    else if |overlays| == 1 then OverlayName(overlays[0])
    else OverlayName(overlays[0]) + "," + JoinNames(overlays[1..])
  }

  /** The length of the text before the first comma. */
  function UpToComma(s: string): (n: nat)
    ensures n <= |s| && (forall i :: 0 <= i < n ==> s[i] != ',') && (n < |s| ==> s[n] == ',')
  {
    if s == [] || s[0] == ',' then 0 else 1 + UpToComma(s[1..])
  }

  function Split(s: string): (parts: seq<string>)
    ensures parts != []
    decreases |s|
  {
    var n := UpToComma(s);
    if n == |s| then [s] else [s[..n]] + Split(s[n + 1..])
  }

  function Known(parts: seq<string>): seq<Overlay> {
    if parts == [] then []
    else (match OverlayNamed(parts[0]) case Some(o) => [o] case None => []) + Known(parts[1..])
  }

  lemma NameHasNoComma(o: Overlay)
    ensures OverlayNamed(OverlayName(o)) == Some(o)
    ensures OverlayName(o) != "" && forall i :: 0 <= i < |OverlayName(o)| ==> OverlayName(o)[i] != ','
  {
  }

  lemma SplitAtComma(name: string, rest: string)
    requires forall i :: 0 <= i < |name| ==> name[i] != ','
    ensures Split(name + "," + rest) == [name] + Split(rest)
  {
    var text := name + "," + rest;
    assert text == name + ("," + rest);
    assert text[|name|] == ',' && text[..|name|] == name && text[|name| + 1..] == rest;
    assert forall i :: 0 <= i < |name| ==> text[i] == name[i];
    assert UpToComma(text) == |name|;
  }

  lemma SplitWhole(name: string)
    requires forall i :: 0 <= i < |name| ==> name[i] != ','
    ensures Split(name) == [name]
  {
  }

  lemma KnownCons(o: Overlay, parts: seq<string>)
    ensures Known([OverlayName(o)] + parts) == [o] + Known(parts)
  {
    NameHasNoComma(o);
  }

  /** Any list of overlays, in any order, with or without repeats, reads back. */
  lemma {:induction false} SplitJoined(overlays: seq<Overlay>)
    requires overlays != []
    ensures JoinNames(overlays) != "" && Known(Split(JoinNames(overlays))) == overlays
  {
    var o := overlays[0];
    NameHasNoComma(o);
    if |overlays| == 1 {
      SplitWhole(OverlayName(o));
      KnownCons(o, []);
    } else {
      SplitJoined(overlays[1..]);
      SplitAtComma(OverlayName(o), JoinNames(overlays[1..]));
      KnownCons(o, Split(JoinNames(overlays[1..])));
    }
  }

  // ---------------------------------------------------------------- query parameters

  function Get(ps: Params, name: string): Option<string> {
    if ps == [] then None else if ps[0].name == name then Some(ps[0].value) else Get(ps[1..], name)
  }

  function GetOrEmpty(ps: Params, name: string): string {
    var v := Get(ps, name);
    if v.Some? then v.value else ""
  }

  /** One optional parameter. */
  function When(present: bool, name: string, value: string): Params {
    if present then [Param(name, value)] else []
  }

  lemma {:induction false} GetAppended(ps: Params, qs: Params, name: string)
    ensures Get(ps + qs, name) == if Get(ps, name).Some? then Get(ps, name) else Get(qs, name)
  {
    if ps == [] {
      assert ps + qs == qs;
    } else {
      assert (ps + qs)[1..] == ps[1..] + qs;
      GetAppended(ps[1..], qs, name);
    }
  }

  // ---------------------------------------------------------------- encoding

  function FolderText(folder: Option<nat>): string {
    match folder case None => "unfiled" case Some(id) => Print(id)
  }

  function Path(view: View): string {
    match view
    case Home => "/"
    case Feed(id) => "/feed/" + Print(id)
    case Group(Folder(folder)) => "/group/folder/" + FolderText(folder)
    case Group(Rating(rating)) => "/group/rating/" + FormatInt(rating)
    case Group(Today) => "/group/today"
    case Search(_) => "/search"
    case Manage(_) => "/manage"
  }

  function NonEmpty(s: string): Option<string> { if s != "" then Some(s) else None }

  const FILTER_NAMES := ["kind", "q", "err", "minErr", "url", "errMsg"]

  /** What each filter parameter is set to, if it is set. */
  function Field(f: Filters, name: string): Option<string> {
    if name == "kind" then (if f.kind != AllKinds then Some(KindName(f.kind)) else None)
    else if name == "q" then NonEmpty(f.query)
    else if name == "err" then (if f.onlyErrors then Some("1") else None)
    else if name == "minErr" then NonEmpty(f.minErrorCount)
    else if name == "url" then NonEmpty(f.urlNeedle)
    else if name == "errMsg" then NonEmpty(f.errorNeedle)
    else None
  }

  function SetFields(f: Filters, names: seq<string>): Params {
    if names == [] then []
    else
      var value := Field(f, names[0]);
      When(value.Some?, names[0], if value.Some? then value.value else "") + SetFields(f, names[1..])
  }

  function FilterParams(f: Filters): Params { SetFields(f, FILTER_NAMES) }

  function ViewParams(view: View): Params {
    match view
    case Search(query) => When(query != "", "q", query)
    case Manage(filters) => FilterParams(filters)
    case _ => []
  }

  function RouteParams(r: Route): Params {
    ViewParams(r.view) + When(r.overlays != [], "ov", JoinNames(r.overlays))
  }

  function EncodeRoute(c: Codec, r: Route): string {
    var qs := c.write(RouteParams(r));
    if qs != "" then Path(r.view) + "?" + qs else Path(r.view)
  }

  // ---------------------------------------------------------------- decoding

  function AfterPrefix(path: string, prefix: string): Option<string> {
    if prefix <= path then Some(path[|prefix|..]) else None
  }

  /** `\d+`, to the end. */
  predicate Digits(s: Option<string>) { s.Some? && s.value != "" && AllDigits(s.value) }

  function DecodeOverlays(ps: Params): seq<Overlay> {
    var raw := GetOrEmpty(ps, "ov");
    if raw == "" then [] else Known(Split(raw))
  }

  function DecodeFilters(ps: Params): Filters {
    Filters(KindNamed(Get(ps, "kind")), GetOrEmpty(ps, "q"), Get(ps, "err") == Some("1"),
            GetOrEmpty(ps, "minErr"), GetOrEmpty(ps, "url"), GetOrEmpty(ps, "errMsg"))
  }

  function DecodeView(path: string, ps: Params): View {
    var feed := AfterPrefix(path, "/feed/");
    var folder := AfterPrefix(path, "/group/folder/");
    var rating := AfterPrefix(path, "/group/rating/");
    if Digits(feed) then Feed(Read(feed.value))
    else if folder == Some("unfiled") then Group(Folder(None))
    else if Digits(folder) then Group(Folder(Some(Read(folder.value))))
    else if rating.Some? && |rating.value| == 1 && '0' <= rating.value[0] <= '5' then
      Group(Rating(Read(rating.value)))
    else if path == "/group/today" then Group(Today)
    else if path == "/search" then Search(GetOrEmpty(ps, "q"))
    else if path == "/manage" then Manage(DecodeFilters(ps))
    else Home
  }

  /** The query text of a location: `URLSearchParams` skips the leading question mark. */
  function QueryText(search: string): string {
    if search != "" && search[0] == '?' then search[1..] else search
  }

  function DecodeRoute(c: Codec, at: Location): Route {
    var ps := c.parse(QueryText(at.search));
    Route(DecodeView(at.pathname, ps), DecodeOverlays(ps))
  }

  // ---------------------------------------------------------------- the browser's split of a URL

  function UpToQuestion(s: string): (n: nat)
    ensures n <= |s| && (forall i :: 0 <= i < n ==> s[i] != '?') && (n < |s| ==> s[n] == '?')
  {
    if s == [] || s[0] == '?' then 0 else 1 + UpToQuestion(s[1..])
  }

  /** Where `history.replaceState` leads; a bare question mark is no search. */
  function Locate(url: string): Location {
    var n := UpToQuestion(url);
    Location(url[..n], if |url| - n == 1 then "" else url[n..])
  }

  predicate ValidLocation(at: Location) {
    '?' !in at.pathname && (at.search == "" || (at.search[0] == '?' && |at.search| > 1))
  }

  lemma LocateJoined(at: Location)
    requires ValidLocation(at)
    ensures Locate(at.pathname + at.search) == at
  {
    var url := at.pathname + at.search;
    assert forall i :: 0 <= i < |at.pathname| ==> url[i] == at.pathname[i];
    assert at.search != "" ==> url[|at.pathname|] == '?';
    assert UpToQuestion(url) == |at.pathname|;
  }

  lemma PathHasNoQuestion(view: View)
    ensures '?' !in Path(view)
  {
    match view
    case Feed(id) => assert AllDigits(Print(id));
    case Group(Folder(Some(id))) => assert AllDigits(Print(id));
    case Group(Rating(rating)) => UnsignedFormat(rating);
    case _ =>
  }

  /** The address bar shows the encoded route, split at its question mark. */
  lemma LocateEncoded(c: Codec, r: Route)
    ensures
      var qs := c.write(RouteParams(r));
      Locate(EncodeRoute(c, r)) == Location(Path(r.view), if qs != "" then "?" + qs else "")
  {
    var qs := c.write(RouteParams(r));
    PathHasNoQuestion(r.view);
    var at := Location(Path(r.view), if qs != "" then "?" + qs else "");
    LocateJoined(at);
    assert EncodeRoute(c, r) == at.pathname + at.search;
  }

  // ---------------------------------------------------------------- round trip

  lemma DigitPath(prefix: string, n: nat)
    ensures AfterPrefix(prefix + Print(n), prefix) == Some(Print(n))
    ensures Digits(AfterPrefix(prefix + Print(n), prefix))
    ensures Read(Print(n)) == n
  {
    ReadPrint(n);
  }

  lemma FolderPathReads(folder: Option<nat>, ps: Params)
    ensures DecodeView("/group/folder/" + FolderText(folder), ps) == Group(Folder(folder))
  {
    var path := "/group/folder/" + FolderText(folder);
    assert path[1] == 'g';
    assert AfterPrefix(path, "/group/folder/") == Some(FolderText(folder));
    if folder.Some? {
      DigitPath("/group/folder/", folder.value);
      assert IsDigit(FolderText(folder)[0]);
    }
  }

  /** A rating path is understood exactly for the ratings 0 to 5. */
  lemma RatingPathReads(rating: int, ps: Params)
    ensures DecodeView("/group/rating/" + FormatInt(rating), ps) ==
            if 0 <= rating <= 5 then Group(Rating(rating)) else Home
  {
    var path := "/group/rating/" + FormatInt(rating);
    assert path[1] == 'g' && path[7] == 'r';
    assert AfterPrefix(path, "/group/rating/") == Some(FormatInt(rating));
    if rating < 0 {
      assert FormatInt(rating)[0] == '-';
    } else {
      ReadPrint(rating);
    }
  }

  /** Which views a path can name: every one but a rating that is none. */
  predicate Nameable(view: View) {
    view.Group? && view.target.Rating? ==> 0 <= view.target.rating <= 5
  }

  lemma {:induction false} FieldRead(f: Filters, names: seq<string>, name: string)
    ensures Get(SetFields(f, names), name) == if name in names then Field(f, name) else None
  {
    if names != [] {
      FieldRead(f, names[1..], name);
      var value := Field(f, names[0]);
      GetAppended(When(value.Some?, names[0], if value.Some? then value.value else ""), SetFields(f, names[1..]), name);
    }
  }

  lemma FiltersRead(f: Filters, extra: Params)
    requires forall name :: name != "ov" ==> Get(extra, name) == None
    ensures DecodeFilters(FilterParams(f) + extra) == f
  {
    forall name | name != "ov" ensures Get(FilterParams(f) + extra, name) == Field(f, name) {
      FieldRead(f, FILTER_NAMES, name);
      GetAppended(FilterParams(f), extra, name);
    }
  }

  lemma OverlaysRead(r: Route)
    ensures DecodeOverlays(RouteParams(r)) == r.overlays
  {
    if r.view.Manage? {
      FieldRead(r.view.filters, FILTER_NAMES, "ov");
    }
    GetAppended(ViewParams(r.view), When(r.overlays != [], "ov", JoinNames(r.overlays)), "ov");
    if r.overlays != [] {
      SplitJoined(r.overlays);
    }
  }

  lemma ViewReads(r: Route)
    ensures DecodeView(Path(r.view), RouteParams(r)) == if Nameable(r.view) then r.view else Home
  {
    var extra := When(r.overlays != [], "ov", JoinNames(r.overlays));
    match r.view
    case Home =>
    case Feed(id) => DigitPath("/feed/", id);
    case Group(Folder(folder)) => FolderPathReads(folder, RouteParams(r));
    case Group(Rating(rating)) => RatingPathReads(rating, RouteParams(r));
    case Group(Today) =>
    case Search(query) => GetAppended(ViewParams(r.view), extra, "q");
    case Manage(filters) => FiltersRead(filters, extra);
  }

  /** A route survives the address bar exactly when its view is nameable; otherwise Home comes back. */
  lemma DecodeEncode(c: Codec, r: Route)
    requires Faithful(c)
    ensures DecodeRoute(c, Locate(EncodeRoute(c, r))) == r.(view := if Nameable(r.view) then r.view else Home)
  {
    LocateEncoded(c, r);
    var ps := RouteParams(r);
    assert QueryText(if c.write(ps) != "" then "?" + c.write(ps) else "") == c.write(ps);
    OverlaysRead(r);
    ViewReads(r);
  }

  /** Different nameable routes have different URLs. */
  lemma EncodeInjective(c: Codec, r: Route, s: Route)
    requires Faithful(c) && Nameable(r.view) && Nameable(s.view)
    ensures EncodeRoute(c, r) == EncodeRoute(c, s) <==> r == s
  {
    DecodeEncode(c, r);
    DecodeEncode(c, s);
  }

  /** Whatever the address bar says, what is read from it can be named again. */
  lemma DecodedIsNameable(c: Codec, at: Location)
    ensures Nameable(DecodeRoute(c, at).view)
  {
    var rating := AfterPrefix(at.pathname, "/group/rating/");
    if rating.Some? && |rating.value| == 1 && '0' <= rating.value[0] <= '5' {
      assert Read(rating.value[..0]) == 0;
    }
  }
}
