# PapyStreaming library viewer — a Dafny model

PapyStreaming's single web page loads a catalogue of series and movies from
the streaming server. It shows the catalogue as a grid of cards that can be
filtered by kind (all, movies, series), searched by name and sorted by name,
size or episode count, twelve cards to a page. A series card opens a panel
that lists the episodes of one season. This project models the logic of that
page, `app/page.tsx`:

- **Media** – the catalogue's values (videos, seasons, series, movies) and the
  two `reduce` aggregates of a series: its episode count and its total size.
- **Text** – the string operations the page relies on: `indexOf`/`includes`,
  `replace` with a string pattern (first occurrence only), an ASCII
  `toLowerCase`, and the decimal rendering of the HTTP status.
- **Ordering** – the comparator of `content.sort` for each sort key. For
  `name` and `size` it induces a total preorder. For `episodes` it does not,
  because two movies compare as "greater" both ways.
- **Sorting** – the in-place sort as an insertion sort on an `array`: a
  permutation of its input, ordered under the key.
- **Content** – `getFilteredContent`. It builds the mixed list by
  reassignment (series first, then movies), filters it by the search term, and
  sorts it.
- **Pagination** – `Math.ceil(len / 12)` pages, the slice of the current page,
  the previous/next arithmetic, and the button/ellipsis/omitted strip of page
  numbers.
- **Cards** – the thumbnail and stream URLs of the three card kinds, and the
  movie title with `.mp4` removed.
- **View** – the `Home` component's state as the class `LibraryView`. Its
  methods are the state transitions:
  - the completion of `fetchVideos`;
  - the filter, search and sort controls, with the effect that resets the page;
  - the pagination buttons;
  - series and season selection.

  Its functions derive what a render shows: the `find` lookups and which of
  the four screens appears.

The HTTP request is an input: a `FetchOutcome` is either a response (status
and parsed body) or a rejection. The server's base URL and the API key are
string parameters of the URL builders.

Three behaviours of the code are easy to misread:

- A successful load always selects the first series and its first season. It
  does not check whether a selection already exists (page.tsx:80-85). When
  the first series has no season, the previous season number is kept.
- Selecting a series stores `seasons[0]?.season_number || null`, so an
  empty season number is stored as "none" (page.tsx:331).
- Under `episodes`, two movies compare as `1` in both orders (page.tsx:135).
  No order among movies is promised: the lemmas state the comparator's cases,
  and the sorted shape is stated only for the series.

## Model

| member | source | states |
|---|---|---|
| Media.EpisodeSizeFromIsSum | app/page.tsx:123 | the inner `reduce` over a season's episodes, started at any accumulator, adds exactly the sum of the episode sizes |
| Media.SeasonSizeFromIsSum | app/page.tsx:122-125 | the nested fold over the seasons adds the sum of the sizes of all episodes of all seasons |
| Media.EpisodeCountFromIsLength | app/page.tsx:131 | the episode-count fold adds the number of episodes over all seasons |
| Media.TotalSizeIsEpisodeSum | app/page.tsx:406-407 | a series' total size is the sum of the sizes of all its episodes, and is never negative |
| Media.TotalEpisodesIsLength | app/page.tsx:405 | a series' episode count is the number of all its episodes, season after season |
| Media.AllEpisodesAppend | app/page.tsx:405-407 | the episodes of a split season list are those of the first part followed by those of the second |
| Media.AggregatesAdditive | app/page.tsx:405-407 | splitting the season list splits both the episode count and the total size into the sum of the parts |
| Media.SizeSumAppend | app/page.tsx:406-407 | the size sum of two concatenated episode lists is the sum of their size sums |
| Text.IndexOfFrom | app/page.tsx:109 | `indexOf` from a start position returns the first occurrence at or after it, or none exactly when no occurrence exists there |
| Text.ContainsIff | app/page.tsx:109 | `includes` holds exactly when the pattern occurs at some position |
| Text.ContainsEmpty | app/page.tsx:107-111 | every string includes the empty string |
| Text.ReplaceFirstAbsent | app/page.tsx:461 | `replace` is the identity when the pattern does not occur |
| Text.ReplaceFirstAt | app/page.tsx:461 | when the first occurrence is at `i`, `replace` splices the replacement in at `i` and keeps the rest |
| Text.ReplaceFirstLength | app/page.tsx:461 | with an occurrence, the length changes by the length difference; `.mp4` to `.jpg` keeps the length |
| Text.ReplaceFirstOnlyFirst | app/page.tsx:461 | when the replacement has the pattern's length, a later occurrence that does not overlap the first one survives the replacement |
| Text.OccursShift | app/page.tsx:535 | occurrences in `p + t` past `p` are the occurrences in `t`, shifted by `|p|` |
| Text.IndexOfSkipsPrefix | app/page.tsx:535 | with no occurrence starting in the prefix, `indexOf` on `p + t` is `indexOf` on `t` shifted by `|p|` |
| Text.ReplaceFirstSkipsPrefix | app/page.tsx:535 | with no occurrence starting in the prefix, `replace` leaves the prefix and acts on the rest |
| Text.SpliceShift | app/page.tsx:535 | splicing at `|p| + i` in `p + t` is `p` followed by splicing at `i` in `t` |
| Text.Lower | app/page.tsx:109 | lowering keeps the length and lowers each character on its own |
| Text.LowerIdempotent | app/page.tsx:109 | lowering twice is lowering once, and the result has no upper-case ASCII letter |
| Text.DecimalString | app/page.tsx:68 | the status renders as at least one decimal digit, without a leading zero |
| Text.DecimalRoundTrip | app/page.tsx:68 | reading the rendered digits back gives the status |
| Ordering.LocaleCompare | app/page.tsx:116 | the name comparison returns -1, 0 or 1 |
| Ordering.LocaleCompareAntisymmetric | app/page.tsx:116 | swapping the names negates the comparison |
| Ordering.LocaleCompareZero | app/page.tsx:116 | the comparison is 0 exactly for equal names |
| Ordering.LocaleCompareTransitive | app/page.tsx:116 | the name order is transitive |
| Ordering.CompareAntisymmetric | app/page.tsx:113-128 | for `name` and `size`, swapping the arguments negates the comparator |
| Ordering.LeReflexive | app/page.tsx:113-139 | every entry may stand before itself, for every key |
| Ordering.LeTotal | app/page.tsx:113-139 | of any two entries, one may stand before the other, for every key |
| Ordering.LeTransitive | app/page.tsx:113-139 | the order is transitive for every key |
| Ordering.SizeCompareIsTotalPreorder | app/page.tsx:117-128 | the `size` comparator is 0 on equal arguments, total, and transitive in its `<= 0` |
| Ordering.CompareAgreesWithLe | app/page.tsx:113-139 | a pair the comparator keeps is in order, and a pair it reverses is in order once reversed |
| Ordering.TiedWithSameEntry | app/page.tsx:113-139 | for every key, two entries tied with a third are tied with each other, so ties form classes |
| Ordering.SizeMoviesBeforeSeries | app/page.tsx:128 | under `size`, a movie ranks before a series in both argument orders |
| Ordering.SizeSameKind | app/page.tsx:118-127 | under `size`, movies compare by decreasing size and series by decreasing total size |
| Ordering.EpisodesSeriesBeforeMovies | app/page.tsx:135 | under `episodes`, a series ranks before a movie in both argument orders |
| Ordering.EpisodesSeriesByCount | app/page.tsx:130-133 | under `episodes`, series compare by decreasing total episode count, equal exactly on equal counts |
| Ordering.EpisodesMoviesInconsistent | app/page.tsx:135 | under `episodes`, two movies compare as greater both ways, even a movie with itself |
| Sorting.AdjacentSortedIsSorted | app/page.tsx:113 | a list whose neighbours are in order is ordered in every pair |
| Sorting.SortedHasNoInversions | app/page.tsx:113 | for `name` and `size`, an ordered list has no neighbours the comparator would swap |
| Sorting.SwapLeft | app/page.tsx:113 | exchanges two neighbours and nothing else, keeping the multiset |
| Sorting.InsertAt | app/page.tsx:113 | moves one entry left into an ordered prefix, keeping the multiset, the rest of the array and the order within every class of tied entries |
| Sorting.Ties | app/page.tsx:113-139 | the entries the comparator ties with a given entry, in list order; `TiesAppend` states that it distributes over concatenation |
| Sorting.TiesAppend | app/page.tsx:113 | the tied entries of a concatenation are those of each part, in order |
| Sorting.PairTies | app/page.tsx:113 | exchanging two neighbours that are not tied leaves every class of tied entries in order |
| Sorting.SwapKeepsTies | app/page.tsx:113 | the exchange the sort performs, of neighbours the comparator reverses, keeps every class of tied entries in order |
| Sorting.SortInPlace | app/page.tsx:113-139 | the array ends as a permutation of its input, ordered under the key, and stable: entries the comparator ties keep their relative order; an input with no inversions is left unchanged |
| Sorting.NameSortedShape | app/page.tsx:115-116 | sorted by `name`, names are non-decreasing under `localeCompare` |
| Sorting.SizeSortedShape | app/page.tsx:117-128 | sorted by `size`, every movie precedes every series; movies by non-increasing size, series by non-increasing total size |
| Sorting.EpisodesSortedShape | app/page.tsx:129-135 | sorted by `episodes` in the model, series come first, by non-increasing episode count |
| Content.SeriesOfAppend | app/page.tsx:100 | the series of a concatenation are the series of each part, in order |
| Content.MoviesOfAppend | app/page.tsx:104 | the movies of a concatenation are the movies of each part, in order |
| Content.ProjectSeriesItems | app/page.tsx:100 | spreading the series list gives back exactly the series and no movie |
| Content.ProjectMovieItems | app/page.tsx:104 | spreading the movie list gives back exactly the movies and no series |
| Content.EmptyProjection | app/page.tsx:99-105 | a mixed list without series holds only movies, and one without movies holds only series |
| Content.SelectedSpec | app/page.tsx:97-105 | before search, the list holds the snapshot's series exactly when the filter admits series, and its movies exactly when it admits movies, series first |
| Content.KindsAppend | app/page.tsx:97-105 | series followed by movies put no movie before a series |
| Content.SelectedKinds | app/page.tsx:99-105 | the `series` filter lets only series through and the `movies` filter only movies |
| Content.Search | app/page.tsx:107-111 | filtering never lengthens the list |
| Content.SearchCounts | app/page.tsx:107-111 | each entry is kept as often as it occurs when its lowered name includes the lowered term, and dropped otherwise |
| Content.SearchIsSubsequence | app/page.tsx:107-111 | the kept entries keep their relative order |
| Content.SearchAppend | app/page.tsx:107-111 | filtering distributes over concatenation |
| Content.SearchEmptyTerm | app/page.tsx:107 | an empty term keeps every entry |
| Content.SameMembers | app/page.tsx:113 | two lists with one multiset have the same members |
| Content.ProjectionMembers | app/page.tsx:95-111 | an entry is in the projection exactly when there is a snapshot, the filter selects the entry, and it matches the term |
| Content.SortArray | app/page.tsx:113-139 | the list sorted in place and read back is a permutation of the input, of the same length, ordered under the key, with tied entries in their input order, and a list the comparator would not reorder comes back unchanged |
| Content.FilteredContent | app/page.tsx:94-142 | the result is a permutation of the projection, ordered under the key, with tied entries in the order of selection, unchanged when the comparator would reorder nothing, and holds exactly the selected entries that match the term; no snapshot gives the empty list |
| Pagination.TotalPages | app/page.tsx:145 | the page count is the least number of 12-entry pages that hold all entries |
| Pagination.SliceIndex | app/page.tsx:147 | a `slice` bound in range is kept, any bound past the length lands on `len`, and a negative one counts from the end, clamped at 0 |
| Pagination.PageItemsBounded | app/page.tsx:146-147 | no page holds more than 12 entries |
| Pagination.PageItemsWindow | app/page.tsx:146-147 | page `p >= 1` is the stretch from `(p - 1) * 12` to `p * 12`, clamped to the list |
| Pagination.FirstPageSize | app/page.tsx:146-147 | the first page holds `min(len, 12)` entries |
| Pagination.PagesInRange | app/page.tsx:145-147 | every page from 1 to the page count is non-empty, and every later page is empty |
| Pagination.PagesUpToPrefix | app/page.tsx:146-147 | pages 1 to `n` concatenated are the first `min(12n, len)` entries |
| Pagination.PagesReassemble | app/page.tsx:145-147 | pages 1 to the page count concatenated give back the whole list |
| Pagination.NavigationBounds | app/page.tsx:343-381 | previous never goes below 1, next never beyond a non-zero page count, and from a page in range both stay in range and move by at most one |
| Pagination.MarksUpTo | app/page.tsx:351 | the strip has one mark per page |
| Pagination.MarksUpToAt | app/page.tsx:351-377 | mark `i` of the first `n` is the classification of page `i + 1` |
| Pagination.PageMarksAt | app/page.tsx:351-377 | mark `i` of the strip is the classification of page `i + 1` |
| Pagination.ButtonsUpTo | app/page.tsx:352-369 | the buttons among the first `n` pages are at most the first page, the last page and the window of five around the current page |
| Pagination.EllipsesUpTo | app/page.tsx:370-374 | the ellipses among the first `n` pages are at most those on either side of the current page |
| Pagination.AtMostSevenButtons | app/page.tsx:351-377 | the strip shows at most seven page buttons |
| Pagination.AtMostTwoEllipses | app/page.tsx:351-377 | the strip shows at most two ellipses |
| Pagination.EndsAndCurrentShown | app/page.tsx:352-356 | the first, the last and the current page always get a button |
| Pagination.OmittedPageHasEllipsis | app/page.tsx:352-376 | an omitted page lies beyond the ellipsis three pages from the current one, on its side |
| Cards.SeriesThumbnailEmptyIff | app/page.tsx:409-412 | the series thumbnail URL is empty exactly when the series has no first episode in its first season |
| Cards.ThumbnailNameShape | app/page.tsx:411-461 | the thumbnail name keeps the file name's length, leaves a name without `.mp4` alone, and turns only the first `.mp4` into `.jpg` |
| Cards.NoStraddle | app/page.tsx:461 | no `.mp4` starts inside a stem and runs into the `.mp4` that follows it |
| Cards.FirstAfterStem | app/page.tsx:461-535 | in `<stem>.mp4<rest>` with no `.mp4` in the stem, the first `.mp4` is the one after the stem |
| Cards.ThumbnailOfPlainVideo | app/page.tsx:461 | `<stem>.mp4` with no `.mp4` in the stem gets the thumbnail `<stem>.jpg` |
| Cards.DisplayNameShape | app/page.tsx:491 | the movie title is the name with its first `.mp4` cut out, four characters shorter, and is the name itself without `.mp4` |
| Cards.DisplayNameOfPlainVideo | app/page.tsx:491 | a movie file `<stem>.mp4` with no `.mp4` in the stem is titled `<stem>` |
| Cards.VideoThumbnailOfPlainFolders | app/page.tsx:534-535 | with no `.mp4` starting in the `series/season/` prefix, the episode thumbnail is the file's thumbnail name under that prefix |
| Cards.VideoThumbnailRewritesFolder | app/page.tsx:534-535 | a series folder `<stem>.mp4` is renamed `<stem>.jpg` in the episode thumbnail URL, and the episode's own `.mp4` is kept |
| View.FetchResult | app/page.tsx:67-87 | the load succeeds exactly for an ok status with a parsed body, and then each list is the body's list or empty when missing |
| View.HttpErrorCarriesStatus | app/page.tsx:67-68 | a failing status ends in `Erreur HTTP: ` followed by digits that read back as the status |
| View.FindFirst | app/page.tsx:193-194 | the found index is the first whose element matches, and none means no element matches |
| View.FindSeriesSpec | app/page.tsx:193 | `find` yields the first series of that name, and nothing exactly when there is none |
| View.FindSeasonSpec | app/page.tsx:194 | `find` yields the first season of that number, and nothing exactly when there is none |
| View.FirstSeasonNumber | app/page.tsx:331 | written as the source's optional chain on the first season followed by the logical or with null; its contract states that a season is stored exactly when the first season exists with a non-empty number, and then it is that number |
| View.LibraryView.constructor | app/page.tsx:39-50 | the initial state: no snapshot, loading, no error, no selection, filter `all`, sort `name`, empty term, page 1 |
| View.LibraryView.BeginFetch | app/page.tsx:62-63 | sets loading, clears the error, and changes nothing else |
| View.LibraryView.CompleteFetch | app/page.tsx:73-91 | on failure stores the message and keeps everything else; on success replaces the snapshot and selects the first series and its first season when they exist; clears loading in both cases |
| View.LibraryView.Load | app/page.tsx:60-92 | after a load, loading is off; success leaves no error, the new snapshot, and the first series and its first season selected when they exist; failure keeps the snapshot and the selection and shows the message |
| View.LibraryView.SetContentFilter | app/page.tsx:56-58 | sets the filter, and resets the page to 1 exactly when the filter changed |
| View.LibraryView.SetSearchTerm | app/page.tsx:56-58 | sets the term, and resets the page to 1 exactly when the term changed |
| View.LibraryView.SetSortBy | app/page.tsx:248 | sets the sort key and keeps the page |
| View.LibraryView.Previous | app/page.tsx:343-344 | moves to `max(p - 1, 1)`, changes nothing else, and the page stays at least 1 |
| View.LibraryView.Next | app/page.tsx:381-382 | moves to `min(p + 1, totalPages)`, changes nothing else, and a page in range stays in range |
| View.LibraryView.GoToPage | app/page.tsx:358-360 | a page button sets exactly that page |
| View.LibraryView.SelectSeries | app/page.tsx:329-332 | selects the series by name and its first season number, or none by `||` |
| View.LibraryView.Back | app/page.tsx:273-276 | clears both selections and nothing else |
| View.LibraryView.SelectSeason | app/page.tsx:289 | changes only the selected season |
| View.LibraryView.VisibleContent | app/page.tsx:144-147 | the filtered list is a sorted, stable permutation of the projection, the page is its slice for the current page, holds at most 12 entries, and page 1 holds `min(len, 12)` |
| View.EpisodePanelIsCurrent | app/page.tsx:193-265 | an episode panel shows a series and season that the snapshot holds under the selected names |
| View.StaleSelectionShowsNothing | app/page.tsx:193-321 | a selected name that no series has shows neither the panel nor the grid |
| Media.EpisodeCountFrom | app/page.tsx:131 | the episode-count `reduce` as a left fold from an accumulator; `EpisodeCountFromIsLength` states its value |
| Media.EpisodeSizeFrom | app/page.tsx:123 | the inner size `reduce` as a left fold; `EpisodeSizeFromIsSum` states its value |
| Media.SeasonSizeFrom | app/page.tsx:122-125 | the outer size `reduce`, each season adding its inner fold; `SeasonSizeFromIsSum` states its value |
| Media.TotalEpisodes | app/page.tsx:405 | the card's and the `episodes` sort's episode count, the fold from 0; `TotalEpisodesIsLength` states its value |
| Media.TotalSize | app/page.tsx:406-407 | the card's and the `size` sort's total size, the nested fold from 0; `TotalSizeIsEpisodeSum` states its value |
| Text.IndexOf | app/page.tsx:109 | `indexOf` from position 0; `IndexOfFrom` states what it finds |
| Text.Contains | app/page.tsx:109 | `includes` as "`indexOf` finds something"; `ContainsIff` states its meaning |
| Text.ReplaceFirst | app/page.tsx:461 | `replace` with a string pattern: splice at the first occurrence, if any; the `ReplaceFirst` lemmas state its behaviour |
| Ordering.Compare | app/page.tsx:113-139 | the comparator, case by case as the source writes it; the Ordering lemmas state its cases and properties |
| Ordering.Le | app/page.tsx:113-139 | "may stand before": the comparator's `<= 0` for `name` and `size`, and its consistent cases for `episodes`; `LeReflexive`, `LeTotal`, `LeTransitive` and `CompareAgreesWithLe` state its properties |
| Content.Selected | app/page.tsx:97-105 | the two appends to the empty list; `SelectedSpec` and `SelectedKinds` state what they select |
| Content.Matches | app/page.tsx:108-109 | the lowered name includes the lowered term |
| Content.Projection | app/page.tsx:94-111 | the selected, searched entries, or none without a snapshot; `ProjectionMembers` states its members |
| Pagination.Slice | app/page.tsx:147 | `Array.prototype.slice` with both bounds placed by `SliceIndex` |
| Pagination.PageItems | app/page.tsx:146-147 | the slice from `(page - 1) * 12` of length 12; the `Page` lemmas state its window and size |
| Pagination.PreviousPage | app/page.tsx:343 | `Math.max(prev - 1, 1)`; `NavigationBounds` states its bounds |
| Pagination.FollowingPage | app/page.tsx:381 | `Math.min(prev + 1, totalPages)`; `NavigationBounds` states its bounds |
| Pagination.Classify | app/page.tsx:352-376 | a button for the first page, the last page and pages within two of the current one, otherwise an ellipsis three away, otherwise nothing; the strip lemmas state its consequences |
| Pagination.PageMarks | app/page.tsx:351-377 | the mark of every page from 1 to the page count; `PageMarksAt` states each entry |
| Cards.ThumbnailName | app/page.tsx:411 | the file name with its first `.mp4` turned into `.jpg`; `ThumbnailNameShape` states its shape |
| Cards.SeriesThumbnailUrl | app/page.tsx:409-412 | the first episode's thumbnail under `thumbs/<series>/<season>/`, or empty; `SeriesThumbnailEmptyIff` states when it is empty |
| Cards.MovieThumbnailUrl | app/page.tsx:461 | the movie's thumbnail name under `thumbs/`, with the token |
| Cards.MovieStreamUrl | app/page.tsx:462 | the movie's name under `stream/`, with the token |
| Cards.DisplayName | app/page.tsx:491 | the name with its first `.mp4` removed; `DisplayNameShape` states its shape |
| Cards.VideoPath | app/page.tsx:534 | `series/season/name` |
| Cards.VideoThumbnailUrl | app/page.tsx:535 | `replace` over the whole path, under `thumbs/`, with the token; the two `VideoThumbnail` lemmas state its shape |
| Cards.VideoStreamUrl | app/page.tsx:536 | the path under `stream/`, with the token |
| View.Adapt | app/page.tsx:73-76 | each list of the body, or the empty list when missing; `FetchResult` states the result |
| View.FindSeries | app/page.tsx:193 | `find` by name through `FindFirst`; `FindSeriesSpec` states what it finds |
| View.FindSeason | app/page.tsx:194 | `find` by season number through `FindFirst`; `FindSeasonSpec` states what it finds |
| View.LibraryView.CurrentSeries | app/page.tsx:193 | the selected series looked up in the snapshot; `StaleSelectionShowsNothing` states the stale case |
| View.LibraryView.CurrentSeason | app/page.tsx:194 | the selected season looked up in the current series |
| View.LibraryView.Screen | app/page.tsx:149-196 | loading, error, empty, or the browser with the episode panel, the grid or nothing; `EpisodePanelIsCurrent` and `StaleSelectionShowsNothing` state its panels |
| View.LibraryView.PageCount | app/page.tsx:145 | `totalPages` of the current projection; `TotalPages` states its value |

## Left out

- The HTTP `fetch` and `response.json()` calls (page.tsx:65-71) are network I/O. Their outcome is the input `FetchOutcome`.
- A body that parses to `null` is not modelled: the code would throw on `data.series`. The body is either a value with two optional lists or a parse failure.
- Overlapping `fetchVideos` runs started by the retry button are concurrency and are not modelled; each load is one `BeginFetch` followed by one `CompleteFetch`.
- `localeCompare` collation is modelled as code-point lexicographic order, and `toLowerCase` as ASCII lower case. The real ones come from locale libraries.
- Sizes are non-negative reals. Floating-point rounding, NaN and non-finite values are not modelled.
- The GB/MB display (`/ 1024`, `toFixed(1)`; page.tsx:447, 495, 570) is floating-point formatting and is left out.
- JSX markup, styling, `Image` rendering, the per-card `imageError` flag and `console.error` are UI and logging.
- `app/config.ts` and `next.config.ts` are not part of this model: they hold environment reads and framework settings. The base URL and the API key are parameters.
- Sorting.EpisodesSortedShape: for `episodes` the comparator is inconsistent, so ECMAScript leaves the order implementation-defined. The lemma describes the model's sort, not every engine. Two movies always compare as `1`, so the model's insertion sort moves each movie past every earlier one and reverses the movies; the lemma promises nothing about their order.
- Entry kinds: the model takes an entry's kind from the list it came from. The code reads a `type` field (page.tsx:118, 121, 130, 325) that it never sets: page.tsx:73-76 copies the server's lists as they are. A server that omits `type` makes every entry render as a movie card and the `size` comparator return 1 for every pair; that case is not modelled.
- A series without a `seasons` field is not modelled: `Series` always has a season list. If `series[0]` lacks `seasons`, page.tsx:82 throws after `setLibrary` and `setSelectedSeries` have run, so the snapshot, the selection and the error message all end up set. A later series without `seasons` loads without error and then makes rendering throw: in the `size` and `episodes` comparators (page.tsx:122, 131), in its SeriesCard (page.tsx:405) and when the card is clicked (page.tsx:331).
- SetContentFilter and SetSearchTerm: the page reset runs in an effect after a render (page.tsx:56-58), so one render shows the new filter or term with the old page. The model merges the setter and the effect into one step.
- View.LibraryView.Previous: it requires more than one page and a current page other than 1, because the button exists only with several pages and is disabled on page 1.
- View.LibraryView.Next: it requires more than one page and a current page other than the last, because the button exists only with several pages and is disabled on the last page.
- View.LibraryView.GoToPage: it requires the page to be one the strip shows as a button, because other pages have no button to click.
