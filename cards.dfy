/**
 * What the three cards compute (page.tsx:396-594): thumbnail and stream URLs,
 * the movie title shown without its `.mp4`, and the series aggregates. The
 * base URL and the API key are configuration values and come in as
 * parameters.
 */
module Cards {
  import opened Media
  import opened Text
  import opened Wrappers

  /** `name.replace('.mp4', '.jpg')` */
  function ThumbnailName(name: string): string {
    ReplaceFirst(name, ".mp4", ".jpg")
  }

  /** `?token=${API_KEY}` */
  function TokenQuery(key: string): string {
    "?token=" + key
  }

  /**
   * `SeriesCard`'s thumbnail (page.tsx:409-412): the first episode of the
   * first season, under `thumbs/<series>/<season>/`, or the empty string when
   * there is no such episode.
   */
  function SeriesThumbnailUrl(base: string, key: string, s: Series): string {
    if |s.seasons| > 0 && |s.seasons[0].episodes| > 0 then
      base + "/thumbs/" + s.name + "/" + s.seasons[0].seasonNumber + "/"
        + ThumbnailName(s.seasons[0].episodes[0].name) + TokenQuery(key)
    else ""
  }

  /** `MovieCard`'s thumbnail (page.tsx:461). */
  function MovieThumbnailUrl(base: string, key: string, m: Movie): string {
    base + "/thumbs/" + ThumbnailName(m.name) + TokenQuery(key)
  }

  /** `MovieCard`'s stream and download link (page.tsx:462): the name as it is. */
  function MovieStreamUrl(base: string, key: string, m: Movie): string {
    base + "/stream/" + m.name + TokenQuery(key)
  }

  /** `MovieCard`'s title (page.tsx:491): the first `.mp4` removed. */
  function DisplayName(m: Movie): string {
    ReplaceFirst(m.name, ".mp4", "")
  }

  /** `VideoCard`'s logical path (page.tsx:534). */
  function VideoPath(series: string, season: string, v: Video): string {
    series + "/" + season + "/" + v.name
  }

  /** `VideoCard`'s thumbnail (page.tsx:535): `replace` runs over the whole path. */
  function VideoThumbnailUrl(base: string, key: string, series: string, season: string, v: Video): string {
    base + "/thumbs/" + ReplaceFirst(VideoPath(series, season, v), ".mp4", ".jpg") + TokenQuery(key)
  }

  /** `VideoCard`'s stream and download link (page.tsx:536). */
  function VideoStreamUrl(base: string, key: string, series: string, season: string, v: Video): string {
    base + "/stream/" + VideoPath(series, season, v) + TokenQuery(key)
  }

  // ---------------------------------------------------------------------------
  // Properties.
  // ---------------------------------------------------------------------------

  /** The series thumbnail is empty exactly when there is no first episode. */
  lemma SeriesThumbnailEmptyIff(base: string, key: string, s: Series)
    ensures SeriesThumbnailUrl(base, key, s) == "" <==> !(|s.seasons| > 0 && |s.seasons[0].episodes| > 0)
  {
    if |s.seasons| > 0 && |s.seasons[0].episodes| > 0 {
      var u := SeriesThumbnailUrl(base, key, s);
      assert |u| >= |"/thumbs/"|;
    }
  }

  /**
   * The thumbnail name keeps the length of the file name, leaves a name
   * without `.mp4` alone, and otherwise turns its first `.mp4` into `.jpg`.
   */
  lemma ThumbnailNameShape(name: string, i: nat)
    ensures |ThumbnailName(name)| == |name|
    ensures !Contains(name, ".mp4") ==> ThumbnailName(name) == name
    ensures OccursAt(name, ".mp4", i) && (forall j :: 0 <= j < i ==> !OccursAt(name, ".mp4", j)) ==>
      ThumbnailName(name) == name[..i] + ".jpg" + name[i + 4..]
  {
    ReplaceFirstLength(name, ".mp4", ".jpg");
    if OccursAt(name, ".mp4", i) && (forall j :: 0 <= j < i ==> !OccursAt(name, ".mp4", j)) {
      ReplaceFirstAt(name, ".mp4", ".jpg", i);
    }
  }

  /** No `.mp4` straddles a stem and the `.mp4` that follows it: that would need a second '.'. */
  lemma NoStraddle(stem: string, rest: string, j: nat)
    requires j < |stem| < j + 4
    ensures !OccursAt(stem + ".mp4" + rest, ".mp4", j)
  {
    var name := stem + ".mp4" + rest;
    var d := |stem| - j;
    assert name[|stem|] == '.';
    assert ".mp4"[d] != '.';
    if j + 4 <= |name| {
      assert name[j..j + 4][d] == name[|stem|];
    }
  }

  /**
   * In `<stem>.mp4<rest>`, with no `.mp4` in the stem, the first `.mp4` is
   * the one right after the stem.
   */
  lemma FirstAfterStem(stem: string, rest: string)
    requires !Contains(stem, ".mp4")
    ensures OccursAt(stem + ".mp4" + rest, ".mp4", |stem|)
    ensures forall j :: 0 <= j < |stem| ==> !OccursAt(stem + ".mp4" + rest, ".mp4", j)
  {
    var name := stem + ".mp4" + rest;
    assert name[|stem|..|stem| + 4] == ".mp4";
    forall j | 0 <= j < |stem|
      ensures !OccursAt(name, ".mp4", j)
    {
      if j + 4 <= |stem| {
        assert stem[j..j + 4] == name[j..j + 4];
        ContainsIff(stem, ".mp4");
        assert !OccursAt(stem, ".mp4", j);
      } else {
        NoStraddle(stem, rest, j);
      }
    }
  }

  /** A file name `<stem>.mp4` whose stem has no `.mp4` gets the thumbnail `<stem>.jpg`. */
  lemma ThumbnailOfPlainVideo(stem: string)
    requires !Contains(stem, ".mp4")
    ensures ThumbnailName(stem + ".mp4") == stem + ".jpg"
  {
    var name := stem + ".mp4";
    assert name == stem + ".mp4" + [];
    FirstAfterStem(stem, []);
    ReplaceFirstAt(name, ".mp4", ".jpg", |stem|);
    assert name[..|stem|] == stem;
    assert name[|stem| + 4..] == [];
  }

  /**
   * The title is the name with its first `.mp4` cut out, four characters
   * shorter, or the name itself when it has no `.mp4`.
   */
  lemma DisplayNameShape(m: Movie, i: nat)
    ensures Contains(m.name, ".mp4") ==> |DisplayName(m)| == |m.name| - 4
    ensures !Contains(m.name, ".mp4") ==> DisplayName(m) == m.name
    ensures OccursAt(m.name, ".mp4", i) && (forall j :: 0 <= j < i ==> !OccursAt(m.name, ".mp4", j)) ==>
      DisplayName(m) == m.name[..i] + m.name[i + 4..]
  {
    ReplaceFirstLength(m.name, ".mp4", "");
    if OccursAt(m.name, ".mp4", i) && (forall j :: 0 <= j < i ==> !OccursAt(m.name, ".mp4", j)) {
      ReplaceFirstAt(m.name, ".mp4", "", i);
      assert m.name[..i] + "" == m.name[..i];
    }
  }

  /** A movie file `<stem>.mp4` whose stem has no `.mp4` is titled `<stem>`. */
  lemma DisplayNameOfPlainVideo(stem: string, size: Megabytes)
    requires !Contains(stem, ".mp4")
    ensures DisplayName(Movie(stem + ".mp4", size)) == stem
  {
    var name := stem + ".mp4";
    assert name == stem + ".mp4" + [];
    FirstAfterStem(stem, []);
    ReplaceFirstAt(name, ".mp4", "", |stem|);
    assert name[..|stem|] == stem;
    assert name[|stem| + 4..] == [];
  }

  /**
   * When no `.mp4` starts inside the `series/season/` prefix, the episode
   * thumbnail is the file's own thumbnail name under that prefix.
   */
  lemma VideoThumbnailOfPlainFolders(base: string, key: string, series: string, season: string, v: Video)
    requires forall k :: 0 <= k < |series + "/" + season + "/"| ==>
      !OccursAt(series + "/" + season + "/" + v.name, ".mp4", k)
    ensures VideoThumbnailUrl(base, key, series, season, v) ==
      base + "/thumbs/" + series + "/" + season + "/" + ThumbnailName(v.name) + TokenQuery(key)
  {
    var prefix := series + "/" + season + "/";
    assert VideoPath(series, season, v) == prefix + v.name;
    ReplaceFirstSkipsPrefix(prefix, v.name, ".mp4", ".jpg");
  }

  /**
   * Because `replace` runs over the whole path, a series folder `<stem>.mp4`
   * (no `.mp4` in the stem) is renamed `<stem>.jpg` in the thumbnail URL,
   * while the episode's own file name is left as it is.
   */
  lemma VideoThumbnailRewritesFolder(base: string, key: string, stem: string, season: string, v: Video)
    requires !Contains(stem, ".mp4")
    ensures VideoThumbnailUrl(base, key, stem + ".mp4", season, v) ==
      base + "/thumbs/" + stem + ".jpg" + "/" + season + "/" + v.name + TokenQuery(key)
  {
    var rest := "/" + season + "/" + v.name;
    var path := VideoPath(stem + ".mp4", season, v);
    assert path == stem + ".mp4" + rest;
    FirstAfterStem(stem, rest);
    ReplaceFirstAt(path, ".mp4", ".jpg", |stem|);
    assert path[..|stem|] == stem;
    assert path[|stem| + 4..] == rest;
  }
}
