/**
 * The field extraction of apps/api/src/index.js over already-selected
 * values. cheerio's parsing and CSS matching are replaced by records that
 * hold, per selector, what the source reads from it: `attr(...)` is an
 * optional string (the first matching element's attribute, `None` when no
 * element or no attribute), `text()` is a string (the text of every match,
 * concatenated, `""` when nothing matches).
 */
module Extractor {
  import opened Wrappers
  import opened JsString

  /** One `.film_list-wrap .flw-item` card. */
  datatype Card = Card(
    href: Option<string>,           // `a` href
    anchorTitle: Option<string>,    // `a` title
    filmNameTitle: Option<string>,  // `.film-name a` title
    posterDataSrc: Option<string>,  // `.film-poster-img` data-src
    imgSrc: Option<string>,         // `img` src
    typeText: string,               // `.fdi-type`
    episodeText: string,            // `.fdi-episode`
    durationText: string,           // `.fdi-duration`
    ratingText: string,             // `.film-rating`
    yearText: string)               // `.fdi-year`

  datatype AnimeSummary = AnimeSummary(
    id: string, title: string, poster: string, animeType: string,
    episodes: string, duration: string, rating: string, year: string)

  /** What the details handler selects on an anime page. */
  datatype DetailSelection = DetailSelection(
    filmNameText: string,           // `.film-name`
    posterSrc: Option<string>,      // `.film-poster-img` src
    posterDataSrc: Option<string>,  // `.film-poster-img` data-src
    descriptionText: string,        // `.film-description`
    typeText: string,               // `.item:contains("Type:") .name`
    statusText: string,             // `.item:contains("Status:") .name`
    releasedText: string,           // `.item:contains("Released:") .name`
    episodesText: string,           // `.item:contains("Episodes:") .name`
    durationText: string,           // `.item:contains("Duration:") .name`
    ratingText: string,             // `.film-rating`
    genreTexts: seq<string>)        // each `.item:contains("Genres:") .name a`, in document order

  datatype AnimeDetails = AnimeDetails(
    id: string, title: string, poster: Option<string>, description: string,
    animeType: string, status: string, releaseDate: string, genres: seq<string>,
    episodes: string, duration: string, rating: string)

  /** One `.genre-list a` anchor. */
  datatype Anchor = Anchor(href: Option<string>, text: string)

  datatype Genre = Genre(id: Option<string>, name: string, url: Option<string>)

  /** A loaded page: everything the handlers select from it. */
  datatype Document = Document(
    cards: seq<Card>,               // `.film_list-wrap .flw-item`
    pageLinkTexts: seq<string>,     // texts of `.pagination .page-link`
    detail: DetailSelection,
    genreAnchors: seq<Anchor>)      // `.genre-list a`

  datatype Pagination = Pagination(currentPage: Option<int>, totalPages: int, hasNext: bool)

  // ---------------------------------------------------------------- fallback chains

  /** A value JavaScript's `||` keeps: present and not the empty string. */
  predicate Truthy(v: Option<string>) {
    v.Some? && v.value != ""
  }

  /** `c0 || c1 || ... || ''`: the first truthy candidate, else the empty string. */
  function FirstTruthy(candidates: seq<Option<string>>): (r: string)
    ensures r == "" <==> forall i :: 0 <= i < |candidates| ==> !Truthy(candidates[i])
    ensures r != "" ==> exists k :: 0 <= k < |candidates| && candidates[k] == Some(r) && forall j :: 0 <= j < k ==> !Truthy(candidates[j])
  {
    if candidates == [] then ""
    else if Truthy(candidates[0]) then candidates[0].value
    else
      var r := FirstTruthy(candidates[1..]);
      assert forall i :: 1 <= i < |candidates| ==> candidates[i] == candidates[1..][i - 1];
      r
  }

  /** The first truthy candidate of two is the first if truthy, else the second if truthy, else `""`. */
  lemma FirstTruthyOfTwo(a: Option<string>, b: Option<string>)
    ensures Truthy(a) ==> FirstTruthy([a, b]) == a.value
    ensures !Truthy(a) && Truthy(b) ==> FirstTruthy([a, b]) == b.value
    ensures !Truthy(a) && !Truthy(b) ==> FirstTruthy([a, b]) == ""
  {
    var r := FirstTruthy([a, b]);
    if r != "" {
      var k :| 0 <= k < 2 && [a, b][k] == Some(r) && forall j :: 0 <= j < k ==> !Truthy([a, b][j]);
    }
  }

  // ---------------------------------------------------------------- ids

  /**
   * `href?.split('/')[2] || ''`: the segment after the second `/`, or `""`
   * when there is no href, fewer than two slashes, or that segment is empty.
   */
  function IdFromHref(href: Option<string>): (id: string)
    ensures '/' !in id
    ensures href.None? ==> id == ""
    ensures href.Some? && multiset(href.value)['/'] < 2 ==> id == ""
  {
    match href
    case None => ""
    case Some(h) =>
      var parts := Split(h, '/');
      SplitCount(h, '/');
      if |parts| > 2 then parts[2] else ""
  }

  /** On a path `p0/p1/p2[/...]` the id is the third segment `p2`. */
  lemma IdOfPath(p0: string, p1: string, p2: string, tail: string)
    requires '/' !in p0 && '/' !in p1 && '/' !in p2
    requires tail == [] || tail[0] == '/'
    ensures IdFromHref(Some(p0 + "/" + p1 + "/" + p2 + tail)) == p2
  {
    var rest := p2 + tail;
    var r1 := p1 + ['/'] + rest;
    var h := p0 + ['/'] + r1;
    assert p0 + "/" + p1 + "/" + p2 + tail == h;
    SplitAfterPiece(p0, '/', r1);
    SplitAfterPiece(p1, '/', rest);
    var parts := Split(h, '/');
    assert parts == [p0] + ([p1] + Split(rest, '/'));
    SplitHead(p2, tail);
    assert parts[2] == Split(rest, '/')[0];
  }

  lemma SplitHead(p: string, tail: string)
    requires '/' !in p
    requires tail == [] || tail[0] == '/'
    ensures Split(p + tail, '/')[0] == p
  {
    if tail == [] {
      assert p + tail == p;
      SplitPiece(p, '/');
    } else {
      assert p + tail == p + ['/'] + tail[1..];
      SplitAfterPiece(p, '/', tail[1..]);
    }
  }

  /** `href?.split('/').pop()`: the segment after the last `/`, or the whole href when it has none. */
  function LastSegment(href: Option<string>): (id: Option<string>)
    ensures id.Some? <==> href.Some?
    ensures id.Some? ==> '/' !in id.value && |id.value| <= |href.value| && href.value[|href.value| - |id.value|..] == id.value
    ensures id.Some? ==> |id.value| == |href.value| || href.value[|href.value| - |id.value| - 1] == '/'
  {
    match href
    case None => None
    case Some(h) =>
      var parts := Split(h, '/');
      JoinSplit(h, '/');
      JoinEndsWithLast(parts, '/');
      Some(parts[|parts| - 1])
  }

  lemma {:induction false} JoinEndsWithLast(parts: seq<string>, sep: char)
    requires |parts| >= 1
    ensures var j := Join(parts, sep); var last := parts[|parts| - 1];
      && |last| <= |j| && j[|j| - |last|..] == last
      && (|parts| == 1 ==> |last| == |j|)
      && (|parts| > 1 ==> |last| < |j| && j[|j| - |last| - 1] == sep)
  {
    if |parts| > 1 {
      JoinEndsWithLast(parts[1..], sep);
      var j := Join(parts, sep);
      var t := Join(parts[1..], sep);
      assert j == parts[0] + [sep] + t;
      assert j[|j| - |t|..] == t;
    }
  }

  /** The genre id of `.../slug` is `slug`. */
  lemma LastSegmentOfPath(dir: string, slug: string)
    requires '/' !in slug
    ensures LastSegment(Some(dir + "/" + slug)) == Some(slug)
  {
    SplitLast(dir, '/', slug);
  }

  // ---------------------------------------------------------------- records

  /** extractAnimeData: one summary per card. */
  function ExtractAnimeData(card: Card): (r: AnimeSummary)
    ensures '/' !in r.id
    ensures r.title == "" <==> !Truthy(card.filmNameTitle) && !Truthy(card.anchorTitle)
    ensures r.poster == "" <==> !Truthy(card.posterDataSrc) && !Truthy(card.imgSrc)
    ensures r.title != "" ==> Some(r.title) == card.filmNameTitle || Some(r.title) == card.anchorTitle
    ensures r.poster != "" ==> Some(r.poster) == card.posterDataSrc || Some(r.poster) == card.imgSrc
    ensures IsTrimmed(r.animeType) && IsTrimmed(r.episodes) && IsTrimmed(r.duration)
    ensures IsTrimmed(r.rating) && IsTrimmed(r.year)
  {
    FirstTruthyOfTwo(card.filmNameTitle, card.anchorTitle);
    FirstTruthyOfTwo(card.posterDataSrc, card.imgSrc);
    AnimeSummary(
      id := IdFromHref(card.href),
      title := FirstTruthy([card.filmNameTitle, card.anchorTitle]),
      poster := FirstTruthy([card.posterDataSrc, card.imgSrc]),
      animeType := Trim(card.typeText),
      episodes := Trim(card.episodeText),
      duration := Trim(card.durationText),
      rating := Trim(card.ratingText),
      year := Trim(card.yearText))
  }

  /**
   * Every summary field is a string, never absent: the title falls back
   * from `.film-name a` to the first anchor's title to `""`, the poster
   * from `data-src` to `img src` to `""`, and the rest are trimmed texts.
   */
  lemma ExtractAnimeDataFields(card: Card)
    ensures var r := ExtractAnimeData(card);
      && r.id == IdFromHref(card.href)
      && (Truthy(card.filmNameTitle) ==> r.title == card.filmNameTitle.value)
      && (!Truthy(card.filmNameTitle) && Truthy(card.anchorTitle) ==> r.title == card.anchorTitle.value)
      && (!Truthy(card.filmNameTitle) && !Truthy(card.anchorTitle) ==> r.title == "")
      && (Truthy(card.posterDataSrc) ==> r.poster == card.posterDataSrc.value)
      && (!Truthy(card.posterDataSrc) && Truthy(card.imgSrc) ==> r.poster == card.imgSrc.value)
      && (!Truthy(card.posterDataSrc) && !Truthy(card.imgSrc) ==> r.poster == "")
      && r.animeType == Trim(card.typeText) && r.episodes == Trim(card.episodeText)
      && r.duration == Trim(card.durationText) && r.rating == Trim(card.ratingText)
      && r.year == Trim(card.yearText)
      && IsTrimmed(r.animeType) && IsTrimmed(r.episodes) && IsTrimmed(r.duration)
      && IsTrimmed(r.rating) && IsTrimmed(r.year)
  {
    FirstTruthyOfTwo(card.filmNameTitle, card.anchorTitle);
    FirstTruthyOfTwo(card.posterDataSrc, card.imgSrc);
  }

  /** `src || data-src`, with no empty-string fallback: absent when both are. */
  function PreferSrc(src: Option<string>, dataSrc: Option<string>): (r: Option<string>)
    ensures Truthy(src) ==> r == src
    ensures !Truthy(src) ==> r == dataSrc
  {
    if Truthy(src) then src else dataSrc
  }

  /**
   * `d` is the details record of the page: the requested id as given, the
   * poster's `src` else `data-src`, the trimmed texts, and one trimmed genre
   * name per genre anchor, in document order, duplicates kept.
   */
  predicate DetailsOf(d: AnimeDetails, id: string, sel: DetailSelection) {
    && d.id == id
    && d.poster == PreferSrc(sel.posterSrc, sel.posterDataSrc)
    && d.title == Trim(sel.filmNameText) && d.description == Trim(sel.descriptionText)
    && d.animeType == Trim(sel.typeText) && d.status == Trim(sel.statusText)
    && d.releaseDate == Trim(sel.releasedText) && d.episodes == Trim(sel.episodesText)
    && d.duration == Trim(sel.durationText) && d.rating == Trim(sel.ratingText)
    && |d.genres| == |sel.genreTexts|
    && forall i :: 0 <= i < |d.genres| ==> d.genres[i] == Trim(sel.genreTexts[i])
  }

  /**
   * The details handler: the record with an empty genre list, then one
   * trimmed genre name pushed per anchor, in document order.
   */
  method ExtractDetails(id: string, sel: DetailSelection) returns (d: AnimeDetails)
    ensures DetailsOf(d, id, sel)
  {
    var base := AnimeDetails(
      id := id,
      title := Trim(sel.filmNameText),
      poster := PreferSrc(sel.posterSrc, sel.posterDataSrc),
      description := Trim(sel.descriptionText),
      animeType := Trim(sel.typeText),
      status := Trim(sel.statusText),
      releaseDate := Trim(sel.releasedText),
      genres := [],
      episodes := Trim(sel.episodesText),
      duration := Trim(sel.durationText),
      rating := Trim(sel.ratingText));
    d := base;
    var i := 0;
    while i < |sel.genreTexts|
      invariant 0 <= i <= |sel.genreTexts|
      invariant d == base.(genres := d.genres)
      invariant |d.genres| == i
      invariant forall k :: 0 <= k < i ==> d.genres[k] == Trim(sel.genreTexts[k])
    {
      d := d.(genres := d.genres + [Trim(sel.genreTexts[i])]);
      i := i + 1;
    }
  }

  /** One `/genres` entry: id from the href's last segment, trimmed name, raw href. */
  function GenreOf(a: Anchor): (g: Genre)
    ensures g.url == a.href
    ensures g.id == LastSegment(a.href)
    ensures IsTrimmed(g.name) && g.name == Trim(a.text)
  {
    Genre(LastSegment(a.href), Trim(a.text), a.href)
  }

  /** The `/genres` loop: one entry per anchor, in order. */
  method CollectGenres(anchors: seq<Anchor>) returns (genres: seq<Genre>)
    ensures |genres| == |anchors|
    ensures forall i :: 0 <= i < |genres| ==> genres[i] == GenreOf(anchors[i])
  {
    genres := EachPush(anchors, GenreOf, None);
  }

  // ---------------------------------------------------------------- listings

  /** How many cards a listing keeps: all of them, or at most `limit`. */
  function Capped(n: nat, limit: Option<nat>): (m: nat)
    ensures m <= n
    ensures limit.Some? ==> m == Min(n, limit.value)
    ensures limit.None? ==> m == n
  {
    if limit.Some? && limit.value < n then limit.value else n
  }

  /** `items` are the summaries of the first cards, in document order, as many as the cap allows. */
  predicate Summarises(items: seq<AnimeSummary>, cards: seq<Card>, limit: Option<nat>) {
    && |items| == Capped(|cards|, limit)
    && forall i :: 0 <= i < |items| ==> items[i] == ExtractAnimeData(cards[i])
  }

  /**
   * A `.each` over the selected elements whose callback pushes `f(element)`
   * while the index is below `limit` (every element when there is none).
   */
  method EachPush<A, B>(elements: seq<A>, f: A -> B, limit: Option<nat>) returns (out: seq<B>)
    ensures |out| == Capped(|elements|, limit)
    ensures forall k :: 0 <= k < |out| ==> out[k] == f(elements[k])
  {
    out := [];
    var i := 0;
    while i < |elements|
      invariant 0 <= i <= |elements|
      invariant |out| == Capped(i, limit)
      invariant forall k :: 0 <= k < |out| ==> out[k] == f(elements[k])
    {
      if limit.None? || i < limit.value {
        out := out + [f(elements[i])];
      }
      i := i + 1;
    }
  }

  /**
   * The listing loop of `/trending`, `/recent-episodes` (with an index
   * guard) and `/search` (without one).
   */
  method CollectSummaries(cards: seq<Card>, limit: Option<nat>) returns (items: seq<AnimeSummary>)
    ensures Summarises(items, cards, limit)
  {
    items := EachPush(cards, ExtractAnimeData, limit);
  }

  /** The shorter listing of the same page is a prefix of the longer one. */
  lemma SummariesPrefix(cards: seq<Card>, short: seq<AnimeSummary>, long: seq<AnimeSummary>, m: nat, n: nat)
    requires m <= n
    requires Summarises(short, cards, Some(m)) && Summarises(long, cards, Some(n))
    ensures |short| <= |long| && short == long[..|short|]
  {
  }

  // ---------------------------------------------------------------- pagination

  /**
   * `$('.pagination .page-link').last().prev().text()`, with the page links
   * taken as siblings: the second-to-last link's text, `""` when there is
   * no such link.
   */
  function PrevOfLastText(links: seq<string>): (r: string)
    ensures |links| >= 2 ==> links == links[..|links| - 2] + [r, links[|links| - 1]]
    ensures |links| < 2 ==> r == "" && ParseInt(r).None?
  {
    if |links| >= 2 then links[|links| - 2] else ""
  }

  /** `parseInt(text) || 1`: NaN and 0 fall back to 1. */
  function TotalPages(links: seq<string>): (n: int)
    ensures n != 0
    ensures ParseInt(PrevOfLastText(links)).Some? && ParseInt(PrevOfLastText(links)).value != 0 ==> n == ParseInt(PrevOfLastText(links)).value
    ensures ParseInt(PrevOfLastText(links)) == None || ParseInt(PrevOfLastText(links)) == Some(0) ==> n == 1
  {
    var p := ParseInt(PrevOfLastText(links));
    if p.Some? && p.value != 0 then p.value else 1
  }

  /**
   * The pagination block of `/search`: `currentPage` is `parseInt(page)`
   * (NaN is `None`) with `page` defaulting to 1, and there is a next page
   * exactly when the current page is a number below the total.
   */
  function Paginate(page: Option<string>, links: seq<string>): (p: Pagination)
    ensures p.totalPages == TotalPages(links)
    ensures p.currentPage == ParseInt(page.GetOr("1"))
    ensures p.hasNext <==> p.currentPage.Some? && p.currentPage.value < p.totalPages
  {
    var current := ParseInt(page.GetOr("1"));
    var total := TotalPages(links);
    Pagination(current, total, current.Some? && current.value < total)
  }

  /**
   * With page `k` requested and the second-to-last link reading `n >= 1`
   * (whitespace around it allowed), the block is exactly `{k, n, k < n}`.
   */
  lemma PaginateDecimal(k: nat, links: seq<string>, front: string, n: nat, back: string)
    requires n >= 1 && |links| >= 2
    requires AllWhitespace(front) && AllWhitespace(back)
    requires links[|links| - 2] == front + NatToDecimal(n) + back
    ensures Paginate(Some(NatToDecimal(k)), links) == Pagination(Some(k), n, k < n)
  {
    TotalPagesDecimal(links, front, n, back);
    ParseDecimal(k);
  }

  /** The total is the number the second-to-last link reads. */
  lemma TotalPagesDecimal(links: seq<string>, front: string, n: nat, back: string)
    requires n >= 1 && |links| >= 2
    requires AllWhitespace(front) && AllWhitespace(back)
    requires links[|links| - 2] == front + NatToDecimal(n) + back
    ensures TotalPages(links) == n
  {
    assert PrevOfLastText(links) == front + NatToDecimal(n) + back;
    ParseIntDecimal(front, n, back);
  }

  lemma ParseDecimal(k: nat)
    ensures ParseInt(NatToDecimal(k)) == Some(k)
  {
    assert [] + NatToDecimal(k) + [] == NatToDecimal(k);
    ParseIntDecimal([], k, []);
  }

  /** Without a page parameter the current page is 1. */
  lemma PaginateDefaultPage(links: seq<string>)
    ensures Paginate(None, links).currentPage == Some(1)
    ensures Paginate(None, links).hasNext <==> 1 < TotalPages(links)
  {
    assert NatToDecimal(1) == "1";
    ParseDecimal(1);
  }

  /** With fewer than two page links there is a single page. */
  lemma PaginateNoLinks(page: Option<string>, links: seq<string>)
    requires |links| < 2
    ensures Paginate(page, links).totalPages == 1
  {
    assert TrimStart("") == "";
  }
}
