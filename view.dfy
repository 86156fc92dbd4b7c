/**
 * The `Home` component's state (page.tsx:39-50) and the handlers that
 * overwrite it: the completion of `fetchVideos` (page.tsx:60-92), the
 * filter, search and sort controls with the page reset (page.tsx:56-58), the
 * pagination buttons, and the series/season selection; plus what the
 * component derives from that state on every render.
 */
module View {
  import opened Wrappers
  import opened Media
  import opened Text
  import opened Ordering
  import opened Sorting
  import opened Content
  import opened Pagination

  // ---------------------------------------------------------------------------
  // The outcome of the HTTP request, which the model receives as an input.
  // ---------------------------------------------------------------------------

  /** The parsed JSON body; either list may be missing. */
  datatype RawLibrary = RawLibrary(series: Option<seq<Series>>, movies: Option<seq<Movie>>)

  /** What `response.json()` produced: a value, or the parse error's message. */
  datatype Body = Json(data: RawLibrary) | Malformed(message: string)

  /** A rejected `fetch`: an `Error` with its message, or some other thrown value. */
  datatype Thrown = ErrorObject(message: string) | NonError

  datatype FetchOutcome = Response(status: nat, body: Body) | Rejected(reason: Thrown)

  /** `response.ok` */
  predicate Ok(status: nat) {
    200 <= status <= 299
  }

  const HttpErrorPrefix: string := "Erreur HTTP: "
  const UnknownError: string := "Erreur inconnue"

  /** `{ series: data.series || [], movies: data.movies || [] }` (page.tsx:73-76) */
  function Adapt(raw: RawLibrary): LibraryResponse {
    LibraryResponse(raw.series.GetOr([]), raw.movies.GetOr([]))
  }

  /**
   * How the `try` block of `fetchVideos` ends: with the adapted snapshot, or
   * with the message the `catch` block stores (page.tsx:67-87).
   */
  function FetchResult(o: FetchOutcome): (r: Result<LibraryResponse, string>)
    ensures r.Success? <==> o.Response? && Ok(o.status) && o.body.Json?
    ensures r.Success? ==> r.value.series == o.body.data.series.GetOr([])
    ensures r.Success? ==> r.value.movies == o.body.data.movies.GetOr([])
  {
    match o
    case Response(status, body) =>
      if !Ok(status) then Failure(HttpErrorPrefix + DecimalString(status))
      else (match body
        case Json(raw) => Success(Adapt(raw))
        case Malformed(m) => Failure(m))
    case Rejected(ErrorObject(m)) => Failure(m)
    case Rejected(NonError) => Failure(UnknownError)
  }

  /** A response with a failing status yields a message from which the status can be read back. */
  lemma HttpErrorCarriesStatus(status: nat, body: Body)
    requires !Ok(status)
    ensures FetchResult(Response(status, body)).Failure?
    ensures var m := FetchResult(Response(status, body)).error;
      |m| > |HttpErrorPrefix| && m[..|HttpErrorPrefix|] == HttpErrorPrefix &&
      (forall i :: |HttpErrorPrefix| <= i < |m| ==> IsDigit(m[i])) &&
      DecimalValue(m[|HttpErrorPrefix|..]) == status
  {
    var digits := DecimalString(status);
    var m := HttpErrorPrefix + digits;
    assert m[|HttpErrorPrefix|..] == digits;
    assert m[..|HttpErrorPrefix|] == HttpErrorPrefix;
    DecimalRoundTrip(status);
  }

  // ---------------------------------------------------------------------------
  // Lookups by name.
  // ---------------------------------------------------------------------------

  /** `xs.findIndex(matches)`: the first index whose element matches. */
  function FindFirst<T>(xs: seq<T>, matches: T -> bool): (r: Option<nat>)
    ensures r.Some? ==> r.value < |xs| && matches(xs[r.value])
    ensures r.Some? ==> forall j :: 0 <= j < r.value ==> !matches(xs[j])
    ensures r.None? ==> forall j :: 0 <= j < |xs| ==> !matches(xs[j])
    decreases |xs|
  {
    if xs == [] then None
    else if matches(xs[0]) then Some(0)
    else match FindFirst(xs[1..], matches)
      case None => None
      case Some(i) => Some(i + 1)
  }

  /** `library.series.find(s => s.name === name)` */
  function FindSeries(ss: seq<Series>, name: string): Option<Series> {
    match FindFirst(ss, (s: Series) => s.name == name)
    case None => None
    case Some(i) => Some(ss[i])
  }

  /** `series.seasons.find(s => s.season_number === number)` */
  function FindSeason(seasons: seq<Season>, number: string): Option<Season> {
    match FindFirst(seasons, (s: Season) => s.seasonNumber == number)
    case None => None
    case Some(i) => Some(seasons[i])
  }

  /** `find` yields the first series of that name, and nothing exactly when there is none. */
  lemma FindSeriesSpec(ss: seq<Series>, name: string)
    ensures FindSeries(ss, name).Some? ==>
      FindSeries(ss, name).value in ss && FindSeries(ss, name).value.name == name
    ensures FindSeries(ss, name).None? <==> forall s :: s in ss ==> s.name != name
    ensures FindSeries(ss, name).Some? ==>
      exists i :: 0 <= i < |ss| && ss[i] == FindSeries(ss, name).value &&
        forall j :: 0 <= j < i ==> ss[j].name != name
  {
    var r := FindFirst(ss, (s: Series) => s.name == name);
    if r.None? {
      forall s | s in ss
        ensures s.name != name
      {
        var k :| 0 <= k < |ss| && ss[k] == s;
        assert !(((s: Series) => s.name == name)(ss[k]));
      }
    } else {
      var i := r.value;
      assert ss[i].name == name;
      assert forall j :: 0 <= j < i ==> !(((s: Series) => s.name == name)(ss[j]));
    }
  }

  /** `find` yields the first season of that number, and nothing exactly when there is none. */
  lemma FindSeasonSpec(seasons: seq<Season>, number: string)
    ensures FindSeason(seasons, number).Some? ==>
      FindSeason(seasons, number).value in seasons && FindSeason(seasons, number).value.seasonNumber == number
    ensures FindSeason(seasons, number).None? <==> forall s :: s in seasons ==> s.seasonNumber != number
    ensures FindSeason(seasons, number).Some? ==>
      exists i :: 0 <= i < |seasons| && seasons[i] == FindSeason(seasons, number).value &&
        forall j :: 0 <= j < i ==> seasons[j].seasonNumber != number
  {
    var r := FindFirst(seasons, (s: Season) => s.seasonNumber == number);
    if r.None? {
      forall s | s in seasons
        ensures s.seasonNumber != number
      {
        var k :| 0 <= k < |seasons| && seasons[k] == s;
        assert !(((s: Season) => s.seasonNumber == number)(seasons[k]));
      }
    } else {
      var i := r.value;
      assert seasons[i].seasonNumber == number;
      assert forall j :: 0 <= j < i ==> !(((s: Season) => s.seasonNumber == number)(seasons[j]));
    }
  }

  /** `item.seasons[0]?.season_number || null`: an empty number also counts as none. */
  function FirstSeasonNumber(s: Series): (r: Option<string>)
    ensures r.Some? <==> |s.seasons| > 0 && s.seasons[0].seasonNumber != ""
    ensures r.Some? ==> r.value == s.seasons[0].seasonNumber
  {
    var first := if |s.seasons| > 0 then Some(s.seasons[0].seasonNumber) else None;
    if Truthy(first) then first else None
  }

  /** JavaScript truthiness of a nullable string. */
  predicate Truthy(o: Option<string>) {
    o.Some? && o.value != ""
  }

  // ---------------------------------------------------------------------------
  // The state and the screen it shows.
  // ---------------------------------------------------------------------------

  datatype ViewState = ViewState(
    library: Option<LibraryResponse>,
    loading: bool,
    error: Option<string>,
    selectedSeries: Option<string>,
    selectedSeason: Option<string>,
    contentFilter: ContentType,
    sortBy: SortKey,
    searchTerm: string,
    currentPage: int)

  /** Below the controls: the card grid, the episode panel, or nothing. */
  datatype Panel = Grid | Episodes(series: Series, season: Season) | Blank

  /** Which of the component's four returns is taken (page.tsx:149-196). */
  datatype Screen = LoadingScreen | ErrorScreen(message: string) | EmptyScreen | Browser(panel: Panel)

  class LibraryView {
    var library: Option<LibraryResponse>
    var loading: bool
    var error: Option<string>
    var selectedSeries: Option<string>
    var selectedSeason: Option<string>
    var contentFilter: ContentType
    var sortBy: SortKey
    var searchTerm: string
    var currentPage: int

    /**
     * The page number never drops below 1. This is the only bound the state
     * keeps: a reload keeps the page, so it may lie past the last page of
     * a smaller catalogue, and VisibleContent then shows the empty slice.
     */
    ghost predicate Valid()
      reads this
    {
      currentPage >= 1
    }

    function State(): ViewState
      reads this
    {
      ViewState(library, loading, error, selectedSeries, selectedSeason,
        contentFilter, sortBy, searchTerm, currentPage)
    }

    /** The initial `useState` values. */
    constructor ()
      ensures Valid()
      ensures State() == ViewState(None, true, None, None, None, All, ByName, "", 1)
    {
      library, loading, error := None, true, None;
      selectedSeries, selectedSeason := None, None;
      contentFilter, sortBy, searchTerm, currentPage := All, ByName, "", 1;
    }

    // -------------------------------------------------------------------------
    // fetchVideos
    // -------------------------------------------------------------------------

    /** `setLoading(true); setError(null)` before the request. */
    method BeginFetch()
      requires Valid()
      modifies this
      ensures Valid()
      ensures State() == old(State()).(loading := true, error := None)
    {
      loading, error := true, None;
    }

    /**
     * The rest of `fetchVideos` once the request has settled. On success the
     * snapshot is replaced and the first series and its first season are
     * selected; on failure the message is stored and the snapshot kept. The
     * loading flag is cleared either way.
     */
    method CompleteFetch(o: FetchOutcome)
      requires Valid()
      modifies this
      ensures Valid()
      ensures !loading
      ensures FetchResult(o).Failure? ==>
        State() == old(State()).(loading := false, error := Some(FetchResult(o).error))
      ensures FetchResult(o).Success? ==> var lib := FetchResult(o).value;
        && library == Some(lib)
        && error == old(error)
        && selectedSeries == (if |lib.series| > 0 then Some(lib.series[0].name) else old(selectedSeries))
        && selectedSeason == (if |lib.series| > 0 && |lib.series[0].seasons| > 0
                              then Some(lib.series[0].seasons[0].seasonNumber) else old(selectedSeason))
        && contentFilter == old(contentFilter) && sortBy == old(sortBy)
        && searchTerm == old(searchTerm) && currentPage == old(currentPage)
    {
      match FetchResult(o) {
        case Success(lib) =>
          library := Some(lib);
          if |lib.series| > 0 {
            selectedSeries := Some(lib.series[0].name);
            if |lib.series[0].seasons| > 0 {
              selectedSeason := Some(lib.series[0].seasons[0].seasonNumber);
            }
          }
        case Failure(m) =>
          error := Some(m);
      }
      loading := false;
    }

    /** One whole run of `fetchVideos` (page.tsx:60-92). */
    method Load(o: FetchOutcome)
      requires Valid()
      modifies this
      ensures Valid()
      ensures !loading
      ensures FetchResult(o).Success? ==> error == None && library == Some(FetchResult(o).value)
      ensures FetchResult(o).Success? ==> var lib := FetchResult(o).value;
        && selectedSeries == (if |lib.series| > 0 then Some(lib.series[0].name) else old(selectedSeries))
        && selectedSeason == (if |lib.series| > 0 && |lib.series[0].seasons| > 0
                              then Some(lib.series[0].seasons[0].seasonNumber) else old(selectedSeason))
      ensures FetchResult(o).Failure? ==> error == Some(FetchResult(o).error) && library == old(library)
      ensures FetchResult(o).Failure? ==>
        selectedSeries == old(selectedSeries) && selectedSeason == old(selectedSeason)
      ensures FetchResult(o).Failure? && FetchResult(o).error != "" ==>
        Screen() == ErrorScreen(FetchResult(o).error)
      ensures contentFilter == old(contentFilter) && sortBy == old(sortBy)
      ensures searchTerm == old(searchTerm) && currentPage == old(currentPage)
    {
      BeginFetch();
      CompleteFetch(o);
    }

    // -------------------------------------------------------------------------
    // Controls
    // -------------------------------------------------------------------------

    /**
     * `setContentFilter(f)`, followed by the effect that resets the page when
     * the filter has changed.
     */
    method SetContentFilter(f: ContentType)
      requires Valid()
      modifies this
      ensures Valid()
      ensures State() == old(State()).(contentFilter := f,
        currentPage := if f == old(contentFilter) then old(currentPage) else 1)
    {
      if f != contentFilter {
        contentFilter := f;
        currentPage := 1;
      }
    }

    /** `setSearchTerm(t)`, followed by the same reset when the term has changed. */
    method SetSearchTerm(t: string)
      requires Valid()
      modifies this
      ensures Valid()
      ensures State() == old(State()).(searchTerm := t,
        currentPage := if t == old(searchTerm) then old(currentPage) else 1)
    {
      if t != searchTerm {
        searchTerm := t;
        currentPage := 1;
      }
    }

    /** `setSortBy(k)`: the page is not reset. */
    method SetSortBy(k: SortKey)
      requires Valid()
      modifies this
      ensures Valid()
      ensures State() == old(State()).(sortBy := k)
    {
      sortBy := k;
    }

    /** `totalPages` for the current state. */
    function PageCount(): nat
      reads this`library, this`contentFilter, this`searchTerm
    {
      TotalPages(ResultCount(library, contentFilter, searchTerm))
    }

    /** The "previous" button: shown when there are several pages, disabled on page 1. */
    method Previous()
      requires Valid()
      requires PageCount() > 1 && currentPage != 1
      modifies this
      ensures Valid()
      ensures State() == old(State()).(currentPage := Pagination.PreviousPage(old(currentPage)))
    {
      currentPage := Pagination.PreviousPage(currentPage);
    }

    /** The "next" button: shown when there are several pages, disabled on the last one. */
    method Next()
      requires Valid()
      requires PageCount() > 1 && currentPage != PageCount()
      modifies this
      ensures Valid()
      ensures State() == old(State()).(currentPage := FollowingPage(old(currentPage), old(PageCount())))
      ensures old(currentPage) <= PageCount() ==> currentPage <= PageCount()
    {
      currentPage := FollowingPage(currentPage, PageCount());
    }

    /** A page-number button: it exists only for a page the strip shows as a button. */
    method GoToPage(p: int)
      requires Valid()
      requires PageCount() > 1 && 1 <= p <= PageCount()
      requires Classify(p, currentPage, PageCount()) == Button
      modifies this
      ensures Valid()
      ensures State() == old(State()).(currentPage := p)
    {
      currentPage := p;
    }

    // -------------------------------------------------------------------------
    // Selection
    // -------------------------------------------------------------------------

    /** A series card's `onSelect` (page.tsx:329-332). */
    method SelectSeries(s: Series)
      requires Valid()
      modifies this
      ensures Valid()
      ensures State() == old(State()).(selectedSeries := Some(s.name), selectedSeason := FirstSeasonNumber(s))
    {
      selectedSeries := Some(s.name);
      selectedSeason := FirstSeasonNumber(s);
    }

    /** The back button (page.tsx:273-276). */
    method Back()
      requires Valid()
      modifies this
      ensures Valid()
      ensures State() == old(State()).(selectedSeries := None, selectedSeason := None)
    {
      selectedSeries, selectedSeason := None, None;
    }

    /** A season button (page.tsx:289): only the season changes. */
    method SelectSeason(number: string)
      requires Valid()
      modifies this
      ensures Valid()
      ensures State() == old(State()).(selectedSeason := Some(number))
    {
      selectedSeason := Some(number);
    }

    // -------------------------------------------------------------------------
    // Derived on every render
    // -------------------------------------------------------------------------

    /** `currentSeries` (page.tsx:193): a stale name finds nothing. */
    function CurrentSeries(): Option<Series>
      reads this
    {
      if library.None? || selectedSeries.None? then None
      else FindSeries(library.value.series, selectedSeries.value)
    }

    /** `currentSeason` (page.tsx:194) */
    function CurrentSeason(): Option<Season>
      reads this
    {
      match CurrentSeries()
      case None => None
      case Some(s) => if selectedSeason.None? then None else FindSeason(s.seasons, selectedSeason.value)
    }

    function Screen(): Screen
      reads this
    {
      if loading then LoadingScreen
      else if Truthy(error) then ErrorScreen(error.value)
      else if library.None? || (|library.value.series| == 0 && |library.value.movies| == 0) then EmptyScreen
      else if !Truthy(selectedSeries) then Browser(Grid)
      else if CurrentSeries().Some? && CurrentSeason().Some? then
        Browser(Episodes(CurrentSeries().value, CurrentSeason().value))
      else Browser(Blank)
    }

    /**
     * `filteredContent` and `paginatedContent` (page.tsx:144-147): the sorted
     * projection of the snapshot and the slice of it for the current page.
     */
    method VisibleContent() returns (filtered: seq<Item>, page: seq<Item>)
      ensures multiset(filtered) == multiset(Projection(library, contentFilter, searchTerm))
      ensures Sorted(filtered, sortBy)
      ensures SameTies(filtered, Projection(library, contentFilter, searchTerm), sortBy)
      ensures page == PageItems(filtered, currentPage)
      ensures |page| <= 12
      ensures currentPage == 1 ==> |page| == Min(|filtered|, 12)
    {
      filtered := FilteredContent(library, contentFilter, searchTerm, sortBy);
      page := PageItems(filtered, currentPage);
      PageItemsBounded(filtered, currentPage);
      FirstPageSize(filtered);
    }
  }

  /** An episode panel shows a series and a season that the snapshot really holds. */
  lemma EpisodePanelIsCurrent(v: LibraryView, s: Series, season: Season)
    requires v.Screen() == Browser(Episodes(s, season))
    ensures v.library.Some? && s in v.library.value.series && s.name == v.selectedSeries.value
    ensures season in s.seasons && season.seasonNumber == v.selectedSeason.value
  {
    FindSeriesSpec(v.library.value.series, v.selectedSeries.value);
    FindSeasonSpec(s.seasons, v.selectedSeason.value);
  }

  /** A selection whose series is no longer in the snapshot shows neither the panel nor the grid. */
  lemma StaleSelectionShowsNothing(v: LibraryView)
    requires !v.loading && !Truthy(v.error) && v.library.Some?
    requires |v.library.value.series| > 0 || |v.library.value.movies| > 0
    requires Truthy(v.selectedSeries)
    requires forall s :: s in v.library.value.series ==> s.name != v.selectedSeries.value
    ensures v.CurrentSeries() == None
    ensures v.Screen() == Browser(Blank)
  {
    FindSeriesSpec(v.library.value.series, v.selectedSeries.value);
  }
}
