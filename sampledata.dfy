/**
 * The desktop app's placeholder data (apps/desktop/src/renderer/data/sampleData.ts):
 * the episode generator and the trending / recent / featured views of the
 * sample catalogue.
 */
module SampleData {
  import opened Wrappers
  import opened JsString

  datatype Episode = Episode(
    id: string, title: string, episodeNumber: int,
    duration: Option<int>, thumbnail: Option<string>, url: Option<string>)

  datatype Status = Ongoing | Completed | Upcoming

  datatype Anime = Anime(
    id: string, title: string, poster: Option<string>, year: int,
    description: Option<string>, episodes: seq<Episode>, genre: seq<string>, status: Status)

  /** 24 minutes, in seconds. */
  const EpisodeSeconds: int := 24 * 60

  // ---------------------------------------------------------------- slug

  predicate NoWhitespace(s: string) {
    forall i :: 0 <= i < |s| ==> !IsWhitespace(s[i])
  }

  lemma NoWhitespaceConcat(a: string, b: string)
    requires NoWhitespace(a) && NoWhitespace(b)
    ensures NoWhitespace(a + b)
  {
    assert forall i :: |a| <= i < |a + b| ==> (a + b)[i] == b[i - |a|];
  }

  /** `replace(/\s+/g, '-')`: every maximal run of whitespace becomes one `-`. */
  function CollapseWhitespace(s: string): (r: string)
    ensures |r| <= |s|
    decreases |s|
  {
    if s == [] then []
    else if IsWhitespace(s[0]) then
      var rest := TrimStart(s);
      "-" + CollapseWhitespace(rest)
    else [s[0]] + CollapseWhitespace(s[1..])
  }

  /** No whitespace survives collapsing: each run turns into `-`. */
  lemma {:induction false} CollapseLeavesNoWhitespace(s: string)
    ensures NoWhitespace(CollapseWhitespace(s))
    decreases |s|
  {
    if s != [] {
      if IsWhitespace(s[0]) {
        CollapseLeavesNoWhitespace(TrimStart(s));
        NoWhitespaceConcat("-", CollapseWhitespace(TrimStart(s)));
      } else {
        CollapseLeavesNoWhitespace(s[1..]);
        NoWhitespaceConcat([s[0]], CollapseWhitespace(s[1..]));
      }
    }
  }

  /** Collapsing only ever writes `-` or a character of the input. */
  lemma {:induction false} CollapseKeepsCharacters(s: string)
    ensures forall c :: c in CollapseWhitespace(s) ==> c == '-' || c in s
    decreases |s|
  {
    if s != [] {
      if IsWhitespace(s[0]) {
        TrimStartIsSuffix(s);
        CollapseKeepsCharacters(TrimStart(s));
      } else {
        CollapseKeepsCharacters(s[1..]);
      }
    }
  }

  /** `title.toLowerCase().replace(/\s+/g, '-')` */
  function Slug(title: string): (r: string)
    ensures NoWhitespace(r)
    ensures forall i :: 0 <= i < |r| ==> !('A' <= r[i] <= 'Z')
  {
    var lower := ToLower(title);
    var r := CollapseWhitespace(lower);
    CollapseLeavesNoWhitespace(lower);
    CollapseKeepsCharacters(lower);
    assert forall i :: 0 <= i < |r| ==> r[i] in r;
    r
  }

  /** A text without whitespace is left as it is. */
  lemma {:induction false} CollapseNoWhitespace(s: string)
    requires forall i :: 0 <= i < |s| ==> !IsWhitespace(s[i])
    ensures CollapseWhitespace(s) == s
  {
    if s != [] {
      CollapseNoWhitespace(s[1..]);
      assert [s[0]] + s[1..] == s;
    }
  }

  lemma {:induction false} TrimStartAppend(a: string, x: string)
    requires exists k :: 0 <= k < |a| && !IsWhitespace(a[k])
    ensures TrimStart(a + x) == TrimStart(a) + x
  {
    if IsWhitespace(a[0]) {
      assert (a + x)[1..] == a[1..] + x;
      var k :| 0 <= k < |a| && !IsWhitespace(a[k]);
      assert a[1..][k - 1] == a[k];
      TrimStartAppend(a[1..], x);
    } else {
      assert (a + x)[0] == a[0];
    }
  }

  lemma CollapseWord(c: char, s: string)
    requires !IsWhitespace(c)
    ensures CollapseWhitespace([c] + s) == [c] + CollapseWhitespace(s)
  {
    assert ([c] + s)[0] == c && ([c] + s)[1..] == s;
  }

  lemma CollapseSpace(s: string)
    requires s != [] && IsWhitespace(s[0])
    ensures CollapseWhitespace(s) == "-" + CollapseWhitespace(TrimStart(s))
  {
  }

  /** Collapsing works piece by piece when the first piece does not end inside a whitespace run. */
  lemma {:induction false} CollapseAppend(a: string, x: string)
    requires a == [] || !IsWhitespace(a[|a| - 1])
    ensures CollapseWhitespace(a + x) == CollapseWhitespace(a) + CollapseWhitespace(x)
    decreases |a|
  {
    if a == [] {
      assert a + x == x;
    } else if IsWhitespace(a[0]) {
      CollapseAppendSpace(a, x);
    } else {
      var tail := a[1..];
      assert a == [a[0]] + tail;
      assert a + x == [a[0]] + (tail + x);
      CollapseAppend(tail, x);
      CollapseWord(a[0], tail + x);
      CollapseWord(a[0], tail);
      SeqAssoc([a[0]], CollapseWhitespace(tail), CollapseWhitespace(x));
    }
  }

  lemma {:induction false} CollapseAppendSpace(a: string, x: string)
    requires a != [] && IsWhitespace(a[0]) && !IsWhitespace(a[|a| - 1])
    ensures CollapseWhitespace(a + x) == CollapseWhitespace(a) + CollapseWhitespace(x)
    decreases |a|, 0
  {
    var t := TrimStart(a);
    TrimStartAppend(a, x);
    TrimStartIsSuffix(a);
    assert t != [] && t[|t| - 1] == a[|a| - 1] by {
      assert a[|a| - |t|..] == t;
    }
    CollapseAppend(t, x);
    assert (a + x)[0] == a[0];
    CollapseSpace(a + x);
    CollapseSpace(a);
    SeqAssoc("-", CollapseWhitespace(t), CollapseWhitespace(x));
  }

  /** A maximal whitespace run between two pieces becomes exactly one `-`. */
  lemma CollapseRun(a: string, run: string, b: string)
    requires a == [] || !IsWhitespace(a[|a| - 1])
    requires run != [] && AllWhitespace(run)
    requires b == [] || !IsWhitespace(b[0])
    ensures CollapseWhitespace(a + run + b) == CollapseWhitespace(a) + "-" + CollapseWhitespace(b)
  {
    var y := run + b;
    CollapseAppend(a, y);
    CollapseLeadingRun(run, b);
    var ca, cb := CollapseWhitespace(a), CollapseWhitespace(b);
    assert a + run + b == a + y;
    SeqAssoc(ca, "-", cb);
  }

  lemma CollapseLeadingRun(run: string, b: string)
    requires run != [] && AllWhitespace(run)
    requires b == [] || !IsWhitespace(b[0])
    ensures CollapseWhitespace(run + b) == "-" + CollapseWhitespace(b)
  {
    TrimStartPadded(run, b);
    assert (run + b)[0] == run[0];
  }

  /** Slugging a slug changes nothing. */
  lemma SlugIdempotent(title: string)
    ensures Slug(Slug(title)) == Slug(title)
  {
    var s := Slug(title);
    assert ToLower(s) == s;
    CollapseNoWhitespace(s);
  }

  // ---------------------------------------------------------------- episodes

  /** The episode at 0-based `index`: number, id, thumbnail and URL all use `index + 1`. */
  function MakeEpisode(animeTitle: string, index: nat): (e: Episode)
    ensures e.episodeNumber == index + 1 && e.duration == Some(1440)
    ensures |e.id| > 3 && e.id[..3] == "ep-" && ParseInt(e.id[3..]) == Some(e.episodeNumber)
    ensures |e.title| > |animeTitle| && e.title[..|animeTitle|] == animeTitle
  {
    var n := NatToDecimal(index + 1);
    assert ("ep-" + n)[3..] == [] + n + [];
    ParseIntDecimal([], index + 1, []);
    Episode(
      id := "ep-" + n,
      title := animeTitle + " Episode " + n,
      episodeNumber := index + 1,
      duration := Some(EpisodeSeconds),
      thumbnail := Some("/thumbnails/ep-" + n + ".jpg"),
      url := Some("/episodes/" + Slug(animeTitle) + "-episode-" + n))
  }

  /** `Array.from({length: count}, ...)`: a negative count gives no episodes. */
  function CreateEpisodes(count: int, animeTitle: string): (eps: seq<Episode>)
    ensures |eps| == if count < 0 then 0 else count
    ensures forall i :: 0 <= i < |eps| ==> eps[i] == MakeEpisode(animeTitle, i)
  {
    seq(if count < 0 then 0 else count, i requires 0 <= i => MakeEpisode(animeTitle, i))
  }

  /** Episode `i` is numbered `i + 1`, lasts 1440 seconds and takes its texts from that number. */
  lemma EpisodeFields(count: int, animeTitle: string, i: nat)
    requires i < count
    ensures var e := CreateEpisodes(count, animeTitle)[i]; var n := NatToDecimal(i + 1);
      && e.episodeNumber == i + 1
      && e.id == "ep-" + n
      && e.title == animeTitle + " Episode " + n
      && e.duration == Some(1440)
      && e.thumbnail == Some("/thumbnails/ep-" + n + ".jpg")
      && e.url == Some("/episodes/" + Slug(animeTitle) + "-episode-" + n)
  {
  }

  /** The number after the `ep-` prefix of an id reads back as the episode number. */
  lemma EpisodeIdReadsBack(count: int, animeTitle: string, i: nat)
    requires i < count
    ensures var e := CreateEpisodes(count, animeTitle)[i]; ParseInt(e.id[3..]) == Some(e.episodeNumber)
  {
  }

  /** Episode numbers strictly increase along the sequence. */
  lemma EpisodeNumbersIncrease(count: int, animeTitle: string, i: nat, j: nat)
    requires i < j < count
    ensures CreateEpisodes(count, animeTitle)[i].episodeNumber < CreateEpisodes(count, animeTitle)[j].episodeNumber
  {
  }

  /** No two generated episodes share an id: each id reads back as its own number. */
  lemma EpisodeIdsDistinct(count: int, animeTitle: string, i: nat, j: nat)
    requires i < count && j < count && i != j
    ensures CreateEpisodes(count, animeTitle)[i].id != CreateEpisodes(count, animeTitle)[j].id
  {
  }

  /** Episode URLs carry no whitespace: the slug has none, nor do the fixed parts. */
  lemma EpisodeUrlHasNoWhitespace(count: int, animeTitle: string, i: nat)
    requires i < count
    ensures NoWhitespace(CreateEpisodes(count, animeTitle)[i].url.value)
  {
    var n := NatToDecimal(i + 1);
    assert NoWhitespace(n);
    assert NoWhitespace("/episodes/");
    assert NoWhitespace("-episode-");
    NoWhitespaceConcat("/episodes/", Slug(animeTitle));
    NoWhitespaceConcat("/episodes/" + Slug(animeTitle), "-episode-");
    NoWhitespaceConcat("/episodes/" + Slug(animeTitle) + "-episode-", n);
  }

  // ---------------------------------------------------------------- catalogue views

  /** `sampleAnime.slice(0, 4)` */
  function TrendingAnime(sample: seq<Anime>): (r: seq<Anime>)
    ensures |r| == Min(|sample|, 4)
    ensures r == sample[..|r|]
  {
    Slice(sample, 0, 4)
  }

  /** `sampleAnime.slice(1, 5)` */
  function RecentAnime(sample: seq<Anime>): (r: seq<Anime>)
    ensures |sample| <= 1 ==> r == []
    ensures |sample| > 1 ==> |r| == Min(|sample| - 1, 4) && r == sample[1..1 + |r|]
  {
    Slice(sample, 1, 5)
  }

  /** `sampleAnime[0]`, which is `undefined` for an empty catalogue. */
  function FeaturedAnime(sample: seq<Anime>): (r: Option<Anime>)
    ensures r.Some? <==> |sample| > 0
    ensures r.Some? ==> r.value == sample[0]
  {
    if |sample| > 0 then Some(sample[0]) else None
  }

  /** On a catalogue of at least five, the recent view is the trending view shifted by one. */
  lemma RecentOverlapsTrending(sample: seq<Anime>)
    requires |sample| >= 5
    ensures |TrendingAnime(sample)| == 4 && |RecentAnime(sample)| == 4
    ensures RecentAnime(sample)[..3] == TrendingAnime(sample)[1..]
    ensures FeaturedAnime(sample) == Some(TrendingAnime(sample)[0])
  {
  }
}
