/**
 * `getFilteredContent` (page.tsx:94-142): the content-type filter, the
 * case-insensitive search, and the sort of the resulting mixed list.
 */
module Content {
  import opened Wrappers
  import opened Media
  import opened Text
  import opened Ordering
  import opened Sorting

  datatype ContentType = All | MoviesOnly | SeriesOnly

  // ---------------------------------------------------------------------------
  // Wrapping the snapshot's lists into the mixed list, and projecting back.
  // ---------------------------------------------------------------------------

  /** `[...library.series]` as entries of the mixed list. */
  function SeriesItems(ss: seq<Series>): seq<Item>
    decreases |ss|
  {
    if ss == [] then [] else [SeriesItem(ss[0])] + SeriesItems(ss[1..])
  }

  /** `[...library.movies]` as entries of the mixed list. */
  function MovieItems(ms: seq<Movie>): seq<Item>
    decreases |ms|
  {
    if ms == [] then [] else [MovieItem(ms[0])] + MovieItems(ms[1..])
  }

  /** The series of a mixed list, in order. */
  function SeriesOf(items: seq<Item>): seq<Series>
    decreases |items|
  {
    if items == [] then []
    else (if items[0].SeriesItem? then [items[0].series] else []) + SeriesOf(items[1..])
  }

  /** The movies of a mixed list, in order. */
  function MoviesOf(items: seq<Item>): seq<Movie>
    decreases |items|
  {
    if items == [] then []
    else (if items[0].MovieItem? then [items[0].movie] else []) + MoviesOf(items[1..])
  }

  lemma {:induction false} SeriesOfAppend(a: seq<Item>, b: seq<Item>)
    ensures SeriesOf(a + b) == SeriesOf(a) + SeriesOf(b)
    decreases |a|
  {
    if a == [] {
      assert a + b == b;
    } else {
      assert (a + b)[0] == a[0];
      assert (a + b)[1..] == a[1..] + b;
      SeriesOfAppend(a[1..], b);
    }
  }

  lemma {:induction false} MoviesOfAppend(a: seq<Item>, b: seq<Item>)
    ensures MoviesOf(a + b) == MoviesOf(a) + MoviesOf(b)
    decreases |a|
  {
    if a == [] {
      assert a + b == b;
    } else {
      assert (a + b)[0] == a[0];
      assert (a + b)[1..] == a[1..] + b;
      MoviesOfAppend(a[1..], b);
    }
  }

  lemma {:induction false} ProjectSeriesItems(ss: seq<Series>)
    ensures SeriesOf(SeriesItems(ss)) == ss
    ensures MoviesOf(SeriesItems(ss)) == []
    ensures forall x :: x in SeriesItems(ss) ==> x.SeriesItem?
    decreases |ss|
  {
    if ss != [] {
      ProjectSeriesItems(ss[1..]);
      SeriesOfAppend([SeriesItem(ss[0])], SeriesItems(ss[1..]));
      MoviesOfAppend([SeriesItem(ss[0])], SeriesItems(ss[1..]));
    }
  }

  lemma {:induction false} ProjectMovieItems(ms: seq<Movie>)
    ensures MoviesOf(MovieItems(ms)) == ms
    ensures SeriesOf(MovieItems(ms)) == []
    ensures forall x :: x in MovieItems(ms) ==> x.MovieItem?
    decreases |ms|
  {
    if ms != [] {
      ProjectMovieItems(ms[1..]);
      SeriesOfAppend([MovieItem(ms[0])], MovieItems(ms[1..]));
      MoviesOfAppend([MovieItem(ms[0])], MovieItems(ms[1..]));
    }
  }

  /** A mixed list without series holds only movies, and conversely. */
  lemma {:induction false} EmptyProjection(items: seq<Item>)
    ensures SeriesOf(items) == [] ==> forall x :: x in items ==> x.MovieItem?
    ensures MoviesOf(items) == [] ==> forall x :: x in items ==> x.SeriesItem?
    decreases |items|
  {
    if items != [] {
      EmptyProjection(items[1..]);
      assert forall x :: x in items ==> x == items[0] || x in items[1..];
    }
  }

  /** No movie stands before a series. */
  predicate SeriesFirst(items: seq<Item>) {
    forall i, j :: 0 <= i < j < |items| && items[i].MovieItem? ==> items[j].MovieItem?
  }

  /** The list before search and sort (page.tsx:97-105). */
  function Selected(lib: LibraryResponse, filter: ContentType): seq<Item> {
    var front: seq<Item> := if filter == All || filter == SeriesOnly then SeriesItems(lib.series) else [];
    var back: seq<Item> := if filter == All || filter == MoviesOnly then MovieItems(lib.movies) else [];
    front + back
  }

  /**
   * The selected list holds the snapshot's series when the filter admits
   * series, followed by its movies when it admits movies; the three ensures
   * determine the list.
   */
  lemma SelectedSpec(lib: LibraryResponse, filter: ContentType)
    ensures SeriesOf(Selected(lib, filter)) == (if filter != MoviesOnly then lib.series else [])
    ensures MoviesOf(Selected(lib, filter)) == (if filter != SeriesOnly then lib.movies else [])
    ensures SeriesFirst(Selected(lib, filter))
  {
    ProjectSeriesItems(lib.series);
    ProjectMovieItems(lib.movies);
    match filter
    case All =>
      SeriesOfAppend(SeriesItems(lib.series), MovieItems(lib.movies));
      MoviesOfAppend(SeriesItems(lib.series), MovieItems(lib.movies));
      KindsAppend(SeriesItems(lib.series), MovieItems(lib.movies));
    case SeriesOnly =>
      assert Selected(lib, filter) == SeriesItems(lib.series) + [];
      SeriesOfAppend(SeriesItems(lib.series), []);
      MoviesOfAppend(SeriesItems(lib.series), []);
      KindsAppend(SeriesItems(lib.series), []);
    case MoviesOnly =>
      assert Selected(lib, filter) == [] + MovieItems(lib.movies);
      SeriesOfAppend([], MovieItems(lib.movies));
      MoviesOfAppend([], MovieItems(lib.movies));
      KindsAppend([], MovieItems(lib.movies));
  }

  /** Series followed by movies put no movie before a series. */
  lemma KindsAppend(front: seq<Item>, back: seq<Item>)
    requires forall x :: x in front ==> x.SeriesItem?
    requires forall x :: x in back ==> x.MovieItem?
    ensures SeriesFirst(front + back)
  {
    var items := front + back;
    forall k | 0 <= k < |items|
      ensures k < |front| ==> items[k].SeriesItem?
      ensures |front| <= k ==> items[k].MovieItem?
    {
      if k < |front| {
        assert items[k] == front[k];
        assert front[k] in front;
      } else {
        assert items[k] == back[k - |front|];
        assert back[k - |front|] in back;
      }
    }
  }

  /** `Selected` as the two appends of page.tsx:99-105 build it. */
  lemma SelectedUnfold(lib: LibraryResponse, filter: ContentType)
    ensures Selected(lib, filter) ==
      ([] + (if filter == All || filter == SeriesOnly then SeriesItems(lib.series) else []))
      + (if filter == All || filter == MoviesOnly then MovieItems(lib.movies) else [])
  {
    var front: seq<Item> := if filter == All || filter == SeriesOnly then SeriesItems(lib.series) else [];
    assert [] + front == front;
  }

  /** Only series pass the `series` filter, only movies the `movies` filter. */
  lemma SelectedKinds(lib: LibraryResponse, filter: ContentType)
    ensures filter == SeriesOnly ==> forall x :: x in Selected(lib, filter) ==> x.SeriesItem?
    ensures filter == MoviesOnly ==> forall x :: x in Selected(lib, filter) ==> x.MovieItem?
  {
    SelectedSpec(lib, filter);
    EmptyProjection(Selected(lib, filter));
  }

  // ---------------------------------------------------------------------------
  // Search (page.tsx:107-111).
  // ---------------------------------------------------------------------------

  /** `item.name.toLowerCase().includes(searchTerm.toLowerCase())` */
  predicate Matches(item: Item, term: string) {
    Contains(Lower(item.Name()), Lower(term))
  }

  /** `content.filter(matches)` */
  function Search(items: seq<Item>, term: string): (r: seq<Item>)
    ensures |r| <= |items|
    decreases |items|
  {
    if items == [] then []
    else (if Matches(items[0], term) then [items[0]] else []) + Search(items[1..], term)
  }

  /** Search keeps each entry exactly as often as it occurs, if it matches, and drops it otherwise. */
  lemma {:induction false} SearchCounts(items: seq<Item>, term: string)
    ensures forall x :: multiset(Search(items, term))[x] == if Matches(x, term) then multiset(items)[x] else 0
    decreases |items|
  {
    if items != [] {
      SearchCounts(items[1..], term);
      assert items == [items[0]] + items[1..];
    }
  }

  /** `r` is `s` with some entries dropped and the rest in their order. */
  predicate IsSubsequence(r: seq<Item>, s: seq<Item>)
    decreases |s|
  {
    if r == [] then true
    else if s == [] then false
    else (r[0] == s[0] && IsSubsequence(r[1..], s[1..])) || IsSubsequence(r, s[1..])
  }

  /** Search keeps the relative order of what it keeps. */
  lemma {:induction false} SearchIsSubsequence(items: seq<Item>, term: string)
    ensures IsSubsequence(Search(items, term), items)
    decreases |items|
  {
    if items != [] {
      SearchIsSubsequence(items[1..], term);
      var rest := Search(items[1..], term);
      if Matches(items[0], term) {
        assert ([items[0]] + rest)[1..] == rest;
      } else {
        assert Search(items, term) == rest;
      }
    }
  }

  /** Search distributes over concatenation, so it never moves an entry past another. */
  lemma {:induction false} SearchAppend(a: seq<Item>, b: seq<Item>, term: string)
    ensures Search(a + b, term) == Search(a, term) + Search(b, term)
    decreases |a|
  {
    if a == [] {
      assert a + b == b;
    } else {
      assert (a + b)[0] == a[0];
      assert (a + b)[1..] == a[1..] + b;
      SearchAppend(a[1..], b, term);
      var head := if Matches(a[0], term) then [a[0]] else [];
      assert Search(a + b, term) == head + Search(a[1..] + b, term);
      assert head + (Search(a[1..], term) + Search(b, term)) == (head + Search(a[1..], term)) + Search(b, term);
    }
  }

  /** Every entry matches the empty term, so searching for it keeps the list. */
  lemma {:induction false} SearchEmptyTerm(items: seq<Item>)
    ensures Search(items, "") == items
    decreases |items|
  {
    if items != [] {
      ContainsEmpty(Lower(items[0].Name()));
      assert Lower("") == "";
      SearchEmptyTerm(items[1..]);
    }
  }

  // ---------------------------------------------------------------------------
  // The whole projection.
  // ---------------------------------------------------------------------------

  /** The entries `getFilteredContent` returns, before they are sorted. */
  function Projection(library: Option<LibraryResponse>, filter: ContentType, term: string): seq<Item> {
    if library.None? then [] else Search(Selected(library.value, filter), term)
  }

  /** Two lists with the same multiset have the same members. */
  lemma SameMembers(a: seq<Item>, b: seq<Item>)
    requires multiset(a) == multiset(b)
    ensures forall x :: x in a <==> x in b
  {
    forall x
      ensures x in a <==> x in b
    {
      assert x in a <==> x in multiset(a);
      assert x in b <==> x in multiset(b);
    }
  }

  /** An entry is projected exactly when it is selected and matches the term. */
  lemma ProjectionMembers(library: Option<LibraryResponse>, filter: ContentType, term: string)
    ensures forall x :: x in Projection(library, filter, term) <==>
      library.Some? && x in Selected(library.value, filter) && Matches(x, term)
  {
    if library.Some? {
      var sel := Selected(library.value, filter);
      var r := Search(sel, term);
      SearchCounts(sel, term);
      forall x
        ensures x in r <==> x in sel && Matches(x, term)
      {
        assert x in r <==> x in multiset(r);
        assert x in sel <==> x in multiset(sel);
      }
    }
  }

  /** The list as a JavaScript array, sorted in place (stably), read back. */
  method SortArray(s: seq<Item>, key: SortKey) returns (r: seq<Item>)
    ensures multiset(r) == multiset(s)
    ensures |r| == |s|
    ensures Sorted(r, key)
    ensures SameTies(r, s, key)
    ensures NoInversions(s, key) ==> r == s
  {
    var items := new Item[|s|](i requires 0 <= i < |s| => s[i]);
    assert items[..] == s;
    SortInPlace(items, key);
    r := items[..];
    assert |multiset(r)| == |multiset(s)|;
  }

  /**
   * `getFilteredContent()`: built by reassignment, filtered when the term is
   * non-empty, then sorted in place. The result holds exactly the selected
   * entries that match the term, each as often as it was selected, in the
   * order of the sort key; entries the comparator ties keep their order of
   * selection, and a projection the comparator would not reorder comes back
   * as it is.
   */
  method FilteredContent(library: Option<LibraryResponse>, filter: ContentType, term: string, key: SortKey)
    returns (content: seq<Item>)
    ensures multiset(content) == multiset(Projection(library, filter, term))
    ensures |content| == |Projection(library, filter, term)|
    ensures Sorted(content, key)
    ensures SameTies(content, Projection(library, filter, term), key)
    ensures NoInversions(Projection(library, filter, term), key) ==> content == Projection(library, filter, term)
    ensures forall x :: x in content <==>
      library.Some? && x in Selected(library.value, filter) && Matches(x, term)
  {
    if library.None? {
      ProjectionMembers(library, filter, term);
      return [];
    }
    var lib := library.value;
    content := [];
    if filter == All || filter == SeriesOnly {
      content := content + SeriesItems(lib.series);
    }
    if filter == All || filter == MoviesOnly {
      content := content + MovieItems(lib.movies);
    }
    SelectedUnfold(lib, filter);
    ghost var selected := Selected(lib, filter);
    assert content == selected;
    ghost var projected := Projection(library, filter, term);
    assert projected == Search(selected, term);
    if term != "" {
      content := Search(content, term);
    } else {
      SearchEmptyTerm(content);
    }
    assert content == projected;
    content := SortArray(content, key);
    SameMembers(content, projected);
    ProjectionMembers(library, filter, term);
  }

  /** The number of entries `getFilteredContent` returns; sorting does not change it. */
  function ResultCount(library: Option<LibraryResponse>, filter: ContentType, term: string): nat {
    |Projection(library, filter, term)|
  }
}
