/**
 * `content.sort(comparator)` (page.tsx:113-139), an in-place sort of the
 * mixed list. ECMAScript requires a stable sort; the model uses insertion by
 * adjacent swaps, which moves an element left only while the comparator says
 * its left neighbour should go after it.
 */
module Sorting {
  import opened Media
  import opened Ordering

  /** Every pair of positions is in `Le` order. */
  predicate Sorted(s: seq<Item>, key: SortKey) {
    forall i, j :: 0 <= i < j < |s| ==> Le(key, s[i], s[j])
  }

  /** Every pair of neighbours is in `Le` order. */
  predicate AdjacentSorted(s: seq<Item>, key: SortKey) {
    forall i :: 0 <= i < |s| - 1 ==> Le(key, s[i], s[i + 1])
  }

  /** Ordered neighbours give an ordered list, because `Le` is transitive. */
  lemma {:induction false} AdjacentSortedIsSorted(s: seq<Item>, key: SortKey)
    requires AdjacentSorted(s, key)
    ensures Sorted(s, key)
    decreases |s|
  {
    if |s| > 1 {
      var rest := s[1..];
      assert AdjacentSorted(rest, key) by {
        forall i | 0 <= i < |rest| - 1
          ensures Le(key, rest[i], rest[i + 1])
        {
          assert rest[i] == s[i + 1] && rest[i + 1] == s[i + 2];
        }
      }
      AdjacentSortedIsSorted(rest, key);
      forall i, j | 0 <= i < j < |s|
        ensures Le(key, s[i], s[j])
      {
        if i == 0 && j > 1 {
          assert Le(key, s[1], s[j]) by {
            assert rest[0] == s[1] && rest[j - 1] == s[j];
          }
          LeTransitive(key, s[0], s[1], s[j]);
        } else if i > 0 {
          assert rest[i - 1] == s[i] && rest[j - 1] == s[j];
        }
      }
    }
  }

  /** A list whose neighbours the comparator does not reverse is already sorted. */
  predicate NoInversions(s: seq<Item>, key: SortKey) {
    forall i :: 0 <= i < |s| - 1 ==> Compare(key, s[i], s[i + 1]) <= 0.0
  }

  /**
   * For `name` and `size` a sorted list has no neighbours the comparator
   * reverses, so sorting it again changes nothing.
   */
  lemma SortedHasNoInversions(s: seq<Item>, key: SortKey)
    requires key != ByEpisodes && Sorted(s, key)
    ensures NoInversions(s, key)
  {
    forall i | 0 <= i < |s| - 1
      ensures Compare(key, s[i], s[i + 1]) <= 0.0
    {
      assert Le(key, s[i], s[i + 1]);
    }
  }

  // ---------------------------------------------------------------------------
  // Stability: entries the comparator ties keep their relative order.
  // ---------------------------------------------------------------------------

  /** The entries of `s` that the comparator ties with `x`, in their order in `s`. */
  function Ties(s: seq<Item>, key: SortKey, x: Item): seq<Item>
    decreases |s|
  {
    if s == [] then []
    else (if Compare(key, s[0], x) == 0.0 then [s[0]] else []) + Ties(s[1..], key, x)
  }

  /** `t` lists every class of tied entries in the same order as `s` does. */
  ghost predicate SameTies(t: seq<Item>, s: seq<Item>, key: SortKey) {
    forall x :: Ties(t, key, x) == Ties(s, key, x)
  }

  lemma {:induction false} TiesAppend(a: seq<Item>, b: seq<Item>, key: SortKey, x: Item)
    ensures Ties(a + b, key, x) == Ties(a, key, x) + Ties(b, key, x)
    decreases |a|
  {
    if a == [] {
      assert a + b == b;
    } else {
      assert (a + b)[0] == a[0];
      assert (a + b)[1..] == a[1..] + b;
      TiesAppend(a[1..], b, key, x);
    }
  }

  /** Two neighbours that are not tied belong to different classes, so exchanging them reorders no class. */
  lemma PairTies(u: Item, v: Item, key: SortKey, x: Item)
    requires Compare(key, u, v) != 0.0
    ensures Ties([u, v], key, x) == Ties([v, u], key, x)
  {
    TiedWithSameEntry(key, u, v, x);
    assert [u, v][1..] == [v];
    assert [v, u][1..] == [u];
  }

  /** Exchanging neighbours the comparator reverses keeps every class of tied entries in order. */
  lemma SwapKeepsTies(s: seq<Item>, j: int, key: SortKey)
    requires 0 < j < |s| && Compare(key, s[j - 1], s[j]) > 0.0
    ensures SameTies(s[j - 1 := s[j]][j := s[j - 1]], s, key)
  {
    var t := s[j - 1 := s[j]][j := s[j - 1]];
    var p, q := s[..j - 1], s[j + 1..];
    assert s == p + [s[j - 1], s[j]] + q;
    assert t == p + [s[j], s[j - 1]] + q;
    forall x
      ensures Ties(t, key, x) == Ties(s, key, x)
    {
      TiesAppend(p + [s[j - 1], s[j]], q, key, x);
      TiesAppend(p, [s[j - 1], s[j]], key, x);
      TiesAppend(p + [s[j], s[j - 1]], q, key, x);
      TiesAppend(p, [s[j], s[j - 1]], key, x);
      PairTies(s[j - 1], s[j], key, x);
    }
  }

  /** Exchanges `a[j - 1]` and `a[j]`. */
  method SwapLeft(a: array<Item>, j: int)
    requires 0 < j < a.Length
    modifies a
    ensures a[..] == old(a[..])[j - 1 := old(a[j])][j := old(a[j - 1])]
    ensures multiset(a[..]) == multiset(old(a[..]))
  {
    a[j - 1], a[j] := a[j], a[j - 1];
  }

  /**
   * One pass of insertion: moves `a[i]` left past every neighbour the
   * comparator puts after it, so that `a[..i + 1]` becomes ordered.
   */
  method InsertAt(a: array<Item>, i: int, key: SortKey)
    requires 0 < i < a.Length
    requires forall k :: 0 <= k < i - 1 ==> Le(key, a[k], a[k + 1])
    modifies a
    ensures multiset(a[..]) == multiset(old(a[..]))
    ensures forall k :: 0 <= k < i ==> Le(key, a[k], a[k + 1])
    ensures a[i + 1..] == old(a[i + 1..])
    ensures Compare(key, old(a[i - 1]), old(a[i])) <= 0.0 ==> a[..] == old(a[..])
    ensures SameTies(a[..], old(a[..]), key)
  {
    var j := i;
    while j > 0 && Compare(key, a[j - 1], a[j]) > 0.0
      invariant 0 <= j <= i
      invariant multiset(a[..]) == multiset(old(a[..]))
      invariant forall k :: 0 <= k < i && k + 1 != j ==> Le(key, a[k], a[k + 1])
      invariant 0 < j < i ==> Le(key, a[j - 1], a[j + 1])
      invariant a[i + 1..] == old(a[i + 1..])
      invariant j == i ==> a[..] == old(a[..])
      invariant Compare(key, old(a[i - 1]), old(a[i])) <= 0.0 ==> j == i
      invariant SameTies(a[..], old(a[..]), key)
    {
      CompareAgreesWithLe(key, a[j - 1], a[j]);
      SwapKeepsTies(a[..], j, key);
      SwapLeft(a, j);
      j := j - 1;
    }
    if j > 0 {
      CompareAgreesWithLe(key, a[j - 1], a[j]);
    }
  }

  /**
   * Sorts `a` in place. The result is a permutation of the input, sorted
   * under `key`, stable (entries the comparator ties keep their relative
   * order), and an input without inversions is left as it is.
   */
  method SortInPlace(a: array<Item>, key: SortKey)
    modifies a
    ensures multiset(a[..]) == multiset(old(a[..]))
    ensures Sorted(a[..], key)
    ensures NoInversions(old(a[..]), key) ==> a[..] == old(a[..])
    ensures SameTies(a[..], old(a[..]), key)
  {
    ghost var untouched := NoInversions(a[..], key);
    var i := 1;
    while i < a.Length
      invariant a.Length == 0 || 1 <= i <= a.Length
      invariant multiset(a[..]) == multiset(old(a[..]))
      invariant forall k :: 0 <= k < i - 1 && k + 1 < a.Length ==> Le(key, a[k], a[k + 1])
      invariant untouched ==> a[..] == old(a[..])
      invariant SameTies(a[..], old(a[..]), key)
    {
      InsertAt(a, i, key);
      i := i + 1;
    }
    AdjacentSortedIsSorted(a[..], key);
  }

  // ---------------------------------------------------------------------------
  // What a sorted list looks like, key by key.
  // ---------------------------------------------------------------------------

  /** `name`: names in non-decreasing `localeCompare` order. */
  lemma NameSortedShape(s: seq<Item>)
    requires Sorted(s, ByName)
    ensures forall i, j :: 0 <= i < j < |s| ==> LocaleCompare(s[i].Name(), s[j].Name()) <= 0
  {
    forall i, j | 0 <= i < j < |s|
      ensures LocaleCompare(s[i].Name(), s[j].Name()) <= 0
    {
      assert Le(ByName, s[i], s[j]);
    }
  }

  /**
   * `size`: every movie precedes every series, movies by non-increasing size,
   * series by non-increasing total episode size.
   */
  lemma SizeSortedShape(s: seq<Item>)
    requires Sorted(s, BySize)
    ensures forall i, j :: 0 <= i < j < |s| && s[j].MovieItem? ==> s[i].MovieItem?
    ensures forall i, j :: 0 <= i < j < |s| && s[i].MovieItem? && s[j].MovieItem? ==>
      s[i].movie.sizeMb >= s[j].movie.sizeMb
    ensures forall i, j :: 0 <= i < j < |s| && s[i].SeriesItem? && s[j].SeriesItem? ==>
      TotalSize(s[i].series) >= TotalSize(s[j].series)
  {
    forall i, j | 0 <= i < j < |s|
      ensures s[j].MovieItem? ==> s[i].MovieItem?
    {
      assert Le(BySize, s[i], s[j]);
    }
  }

  /**
   * `episodes`, as the model's sort leaves it (ECMAScript does not fix this
   * order, the comparator being inconsistent): series first, by
   * non-increasing episode count.
   */
  lemma EpisodesSortedShape(s: seq<Item>)
    requires Sorted(s, ByEpisodes)
    ensures forall i, j :: 0 <= i < j < |s| && s[j].SeriesItem? ==> s[i].SeriesItem?
    ensures forall i, j :: 0 <= i < j < |s| && s[i].SeriesItem? && s[j].SeriesItem? ==>
      TotalEpisodes(s[i].series) >= TotalEpisodes(s[j].series)
  {
    forall i, j | 0 <= i < j < |s|
      ensures s[j].SeriesItem? ==> s[i].SeriesItem?
    {
      assert Le(ByEpisodes, s[i], s[j]);
    }
  }
}
