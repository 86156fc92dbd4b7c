/**
 * The comparator that `getFilteredContent` hands to `Array.prototype.sort`
 * (page.tsx:113-139), one case per sort key, and the ordering of the mixed
 * list that each key induces.
 */
module Ordering {
  import opened Media

  datatype SortKey = ByName | BySize | ByEpisodes

  /**
   * The stand-in for `a.localeCompare(b)`: code-point lexicographic order,
   * with a proper prefix before its extensions. Only the sign is meaningful.
   */
  function LocaleCompare(a: string, b: string): (r: int)
    ensures -1 <= r <= 1
    decreases |a|
  {
    if a == [] && b == [] then 0
    else if a == [] then -1
    else if b == [] then 1
    else if a[0] < b[0] then -1
    else if a[0] > b[0] then 1
    else LocaleCompare(a[1..], b[1..])
  }

  lemma {:induction false} LocaleCompareAntisymmetric(a: string, b: string)
    ensures LocaleCompare(a, b) == -LocaleCompare(b, a)
    decreases |a|
  {
    if a != [] && b != [] && a[0] == b[0] {
      LocaleCompareAntisymmetric(a[1..], b[1..]);
    }
  }

  lemma {:induction false} LocaleCompareZero(a: string, b: string)
    ensures LocaleCompare(a, b) == 0 <==> a == b
    decreases |a|
  {
    if a != [] && b != [] && a[0] == b[0] {
      LocaleCompareZero(a[1..], b[1..]);
      if a[1..] == b[1..] {
        assert a == [a[0]] + a[1..] && b == [b[0]] + b[1..];
      }
    }
  }

  lemma {:induction false} LocaleCompareTransitive(a: string, b: string, c: string)
    requires LocaleCompare(a, b) <= 0 && LocaleCompare(b, c) <= 0
    ensures LocaleCompare(a, c) <= 0
    decreases |a|
  {
    if a != [] && b != [] && c != [] && a[0] == b[0] == c[0] {
      LocaleCompareTransitive(a[1..], b[1..], c[1..]);
    }
  }

  /** The comparator of page.tsx:113-139; its sign says which of `a`, `b` goes first. */
  function Compare(key: SortKey, a: Item, b: Item): real {
    match key
    case ByName =>
      LocaleCompare(a.Name(), b.Name()) as real
    case BySize =>
      if a.MovieItem? && b.MovieItem? then b.movie.sizeMb - a.movie.sizeMb
      else if a.SeriesItem? && b.SeriesItem? then TotalSize(b.series) - TotalSize(a.series)
      else if a.MovieItem? then -1.0 else 1.0
    case ByEpisodes =>
      if a.SeriesItem? && b.SeriesItem? then (TotalEpisodes(b.series) - TotalEpisodes(a.series)) as real
      else if a.SeriesItem? then -1.0 else 1.0
  }

  /**
   * "`a` may stand before `b`" under `key`. For `name` and `size` this is
   * exactly the comparator's `<= 0`; for `episodes`, whose comparator is not
   * consistent, it is the order its consistent cases describe: series first,
   * by decreasing episode count, and movies in any order.
   */
  predicate Le(key: SortKey, a: Item, b: Item) {
    match key
    case ByEpisodes =>
      if a.SeriesItem? && b.SeriesItem? then TotalEpisodes(a.series) >= TotalEpisodes(b.series)
      else a.SeriesItem? || b.MovieItem?
    case _ =>
      Compare(key, a, b) <= 0.0
  }

  // ---------------------------------------------------------------------------
  // The comparators of `name` and `size` are consistent: antisymmetric in sign
  // and inducing a total preorder.
  // ---------------------------------------------------------------------------

  lemma CompareAntisymmetric(key: SortKey, a: Item, b: Item)
    requires key != ByEpisodes
    ensures Compare(key, a, b) == -Compare(key, b, a)
  {
    if key == ByName {
      LocaleCompareAntisymmetric(a.Name(), b.Name());
    }
  }

  lemma LeReflexive(key: SortKey, a: Item)
    ensures Le(key, a, a)
  {
    if key == ByName {
      LocaleCompareZero(a.Name(), a.Name());
    }
  }

  lemma LeTotal(key: SortKey, a: Item, b: Item)
    ensures Le(key, a, b) || Le(key, b, a)
  {
    if key != ByEpisodes {
      CompareAntisymmetric(key, a, b);
    }
  }

  lemma LeTransitive(key: SortKey, a: Item, b: Item, c: Item)
    requires Le(key, a, b) && Le(key, b, c)
    ensures Le(key, a, c)
  {
    if key == ByName {
      LocaleCompareTransitive(a.Name(), b.Name(), c.Name());
    }
  }

  /** The `size` comparator is a total preorder, and `Le` is exactly its `<= 0`. */
  lemma SizeCompareIsTotalPreorder(a: Item, b: Item, c: Item)
    ensures Compare(BySize, a, a) == 0.0
    ensures Compare(BySize, a, b) <= 0.0 || Compare(BySize, b, a) <= 0.0
    ensures Compare(BySize, a, b) <= 0.0 && Compare(BySize, b, c) <= 0.0 ==> Compare(BySize, a, c) <= 0.0
  {
  }

  /**
   * What the sort does with the comparator's sign, for every key: a pair the
   * comparator leaves in place is in `Le` order, and a pair it reverses is in
   * `Le` order once reversed.
   */
  lemma CompareAgreesWithLe(key: SortKey, a: Item, b: Item)
    ensures Compare(key, a, b) <= 0.0 ==> Le(key, a, b)
    ensures Compare(key, a, b) > 0.0 ==> Le(key, b, a)
  {
    if key == ByName {
      LocaleCompareAntisymmetric(a.Name(), b.Name());
    }
  }

  /**
   * Two entries the comparator ties with a third are tied with each other,
   * for every key; so "tied" groups the entries into classes.
   */
  lemma TiedWithSameEntry(key: SortKey, u: Item, v: Item, x: Item)
    ensures Compare(key, u, x) == 0.0 && Compare(key, v, x) == 0.0 ==> Compare(key, u, v) == 0.0
  {
    if key == ByName {
      LocaleCompareZero(u.Name(), x.Name());
      LocaleCompareZero(v.Name(), x.Name());
      LocaleCompareZero(u.Name(), v.Name());
    }
  }

  // ---------------------------------------------------------------------------
  // The cases of the comparator, as the source writes them.
  // ---------------------------------------------------------------------------

  /** `size`: a movie goes before a series, in either argument order. */
  lemma SizeMoviesBeforeSeries(m: Movie, s: Series)
    ensures Compare(BySize, MovieItem(m), SeriesItem(s)) < 0.0
    ensures Compare(BySize, SeriesItem(s), MovieItem(m)) > 0.0
  {
  }

  /** `size`: same kinds are compared by decreasing size (total size for series). */
  lemma SizeSameKind(m1: Movie, m2: Movie, s1: Series, s2: Series)
    ensures Compare(BySize, MovieItem(m1), MovieItem(m2)) <= 0.0 <==> m1.sizeMb >= m2.sizeMb
    ensures Compare(BySize, SeriesItem(s1), SeriesItem(s2)) <= 0.0 <==> TotalSize(s1) >= TotalSize(s2)
  {
  }

  /** `episodes`: a series goes before a movie, in either argument order. */
  lemma EpisodesSeriesBeforeMovies(s: Series, m: Movie)
    ensures Compare(ByEpisodes, SeriesItem(s), MovieItem(m)) < 0.0
    ensures Compare(ByEpisodes, MovieItem(m), SeriesItem(s)) > 0.0
  {
  }

  /** `episodes`: series are compared by decreasing total episode count. */
  lemma EpisodesSeriesByCount(s1: Series, s2: Series)
    ensures Compare(ByEpisodes, SeriesItem(s1), SeriesItem(s2)) < 0.0 <==> TotalEpisodes(s1) > TotalEpisodes(s2)
    ensures Compare(ByEpisodes, SeriesItem(s1), SeriesItem(s2)) == 0.0 <==> TotalEpisodes(s1) == TotalEpisodes(s2)
  {
  }

  /**
   * `episodes`: two movies compare as "greater" in both argument orders, so
   * the comparator is not consistent and ECMAScript leaves the resulting
   * order implementation-defined.
   */
  lemma EpisodesMoviesInconsistent(m1: Movie, m2: Movie)
    ensures Compare(ByEpisodes, MovieItem(m1), MovieItem(m2)) > 0.0
    ensures Compare(ByEpisodes, MovieItem(m2), MovieItem(m1)) > 0.0
    ensures Compare(ByEpisodes, MovieItem(m1), MovieItem(m1)) != 0.0
  {
  }
}
