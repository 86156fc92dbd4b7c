/**
 * The library snapshot returned by the video API (page.tsx, interfaces Video,
 * Season, Series, Movie and LibraryResponse) and the two per-series aggregates
 * the viewer computes with `reduce`: the number of episodes and the total size.
 */
module Media {
  import opened Wrappers

  /** A size in megabytes; the API never reports a negative size. */
  type Megabytes = r: real | r >= 0.0

  datatype Video = Video(name: string, sizeMb: Megabytes, episode: Option<string>)

  datatype Season = Season(seasonNumber: string, episodes: seq<Video>)

  datatype Series = Series(name: string, seasons: seq<Season>)

  datatype Movie = Movie(name: string, sizeMb: Megabytes)

  /** An entry of the mixed list; the constructor plays the role of the `type` tag. */
  datatype Item = SeriesItem(series: Series) | MovieItem(movie: Movie)
  {
    function Name(): string {
      match this
      case SeriesItem(s) => s.name
      case MovieItem(m) => m.name
    }
  }

  datatype LibraryResponse = LibraryResponse(series: seq<Series>, movies: seq<Movie>)

  // ---------------------------------------------------------------------------
  // The aggregates, written as the left folds that `reduce(f, 0)` performs.
  // ---------------------------------------------------------------------------

  /** `seasons.reduce((acc, season) => acc + season.episodes.length, acc)` */
  function EpisodeCountFrom(acc: nat, seasons: seq<Season>): nat
    decreases |seasons|
  {
    if seasons == [] then acc
    else EpisodeCountFrom(acc + |seasons[0].episodes|, seasons[1..])
  }

  /** `episodes.reduce((sum, ep) => sum + ep.size_mb, acc)` */
  function EpisodeSizeFrom(acc: real, episodes: seq<Video>): real
    decreases |episodes|
  {
    if episodes == [] then acc
    else EpisodeSizeFrom(acc + episodes[0].sizeMb, episodes[1..])
  }

  /** The outer fold: each season contributes the inner fold of its episodes. */
  function SeasonSizeFrom(acc: real, seasons: seq<Season>): real
    decreases |seasons|
  {
    if seasons == [] then acc
    else SeasonSizeFrom(acc + EpisodeSizeFrom(0.0, seasons[0].episodes), seasons[1..])
  }

  /** Total episode count of a series, as the card and the `episodes` sort compute it. */
  function TotalEpisodes(s: Series): nat {
    EpisodeCountFrom(0, s.seasons)
  }

  /** Total size of a series, as the card and the `size` sort compute it. */
  function TotalSize(s: Series): real {
    SeasonSizeFrom(0.0, s.seasons)
  }

  // ---------------------------------------------------------------------------
  // Reference view: every episode of a series, season after season.
  // ---------------------------------------------------------------------------

  function AllEpisodes(seasons: seq<Season>): seq<Video>
    decreases |seasons|
  {
    if seasons == [] then [] else seasons[0].episodes + AllEpisodes(seasons[1..])
  }

  /** The plain sum of the sizes of a list of videos; never negative. */
  function SizeSum(videos: seq<Video>): (r: real)
    ensures r >= 0.0
    decreases |videos|
  {
    if videos == [] then 0.0 else videos[0].sizeMb + SizeSum(videos[1..])
  }

  lemma {:induction false} SizeSumAppend(a: seq<Video>, b: seq<Video>)
    ensures SizeSum(a + b) == SizeSum(a) + SizeSum(b)
    decreases |a|
  {
    if a == [] {
      assert a + b == b;
    } else {
      assert (a + b)[1..] == a[1..] + b;
      SizeSumAppend(a[1..], b);
    }
  }

  lemma {:induction false} EpisodeSizeFromIsSum(acc: real, episodes: seq<Video>)
    ensures EpisodeSizeFrom(acc, episodes) == acc + SizeSum(episodes)
    decreases |episodes|
  {
    if episodes != [] {
      EpisodeSizeFromIsSum(acc + episodes[0].sizeMb, episodes[1..]);
    }
  }

  lemma {:induction false} SeasonSizeFromIsSum(acc: real, seasons: seq<Season>)
    ensures SeasonSizeFrom(acc, seasons) == acc + SizeSum(AllEpisodes(seasons))
    decreases |seasons|
  {
    if seasons != [] {
      var first, rest := seasons[0].episodes, seasons[1..];
      var inner := EpisodeSizeFrom(0.0, first);
      EpisodeSizeFromIsSum(0.0, first);
      assert inner == SizeSum(first);
      SeasonSizeFromIsSum(acc + inner, rest);
      SizeSumAppend(first, AllEpisodes(rest));
      assert AllEpisodes(seasons) == first + AllEpisodes(rest);
    }
  }

  lemma {:induction false} EpisodeCountFromIsLength(acc: nat, seasons: seq<Season>)
    ensures EpisodeCountFrom(acc, seasons) == acc + |AllEpisodes(seasons)|
    decreases |seasons|
  {
    if seasons != [] {
      EpisodeCountFromIsLength(acc + |seasons[0].episodes|, seasons[1..]);
    }
  }

  /** The size of a series is the sum over all its episodes, whatever the season split. */
  lemma TotalSizeIsEpisodeSum(s: Series)
    ensures TotalSize(s) == SizeSum(AllEpisodes(s.seasons))
    ensures TotalSize(s) >= 0.0
  {
    SeasonSizeFromIsSum(0.0, s.seasons);
  }

  /** The episode count of a series is the number of its episodes over all seasons. */
  lemma TotalEpisodesIsLength(s: Series)
    ensures TotalEpisodes(s) == |AllEpisodes(s.seasons)|
  {
    EpisodeCountFromIsLength(0, s.seasons);
  }

  /** The episodes of a split season list are the episodes of each part, in order. */
  lemma {:induction false} AllEpisodesAppend(a: seq<Season>, b: seq<Season>)
    ensures AllEpisodes(a + b) == AllEpisodes(a) + AllEpisodes(b)
    decreases |a|
  {
    if a == [] {
      assert a + b == b;
    } else {
      assert (a + b)[1..] == a[1..] + b;
      AllEpisodesAppend(a[1..], b);
    }
  }

  /** Both aggregates are additive over a split of the season list. */
  lemma AggregatesAdditive(name: string, a: seq<Season>, b: seq<Season>)
    ensures TotalEpisodes(Series(name, a + b)) == TotalEpisodes(Series(name, a)) + TotalEpisodes(Series(name, b))
    ensures TotalSize(Series(name, a + b)) == TotalSize(Series(name, a)) + TotalSize(Series(name, b))
  {
    AllEpisodesAppend(a, b);
    TotalEpisodesIsLength(Series(name, a + b));
    TotalEpisodesIsLength(Series(name, a));
    TotalEpisodesIsLength(Series(name, b));
    TotalSizeIsEpisodeSum(Series(name, a + b));
    TotalSizeIsEpisodeSum(Series(name, a));
    TotalSizeIsEpisodeSum(Series(name, b));
    SizeSumAppend(AllEpisodes(a), AllEpisodes(b));
  }
}
