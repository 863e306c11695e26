/**
 * The route handlers of apps/api/src/index.js. Each handler is one pass:
 * it asks the upstream for one page through makeRequest, extracts from the
 * loaded page and wraps the result in the `{success, data | error}`
 * envelope. The upstream is a parameter: for a request it gives the loaded
 * page, or `None` when the fetch fails or the page cannot be loaded. Each
 * handler also returns the requests it sent.
 */
module Dispatcher {
  import opened Wrappers
  import opened JsString
  import opened Fetcher
  import opened Extractor

  type Upstream = Request -> Option<Document>

  datatype Data =
    | Summaries(items: seq<AnimeSummary>)
    | SearchData(results: seq<AnimeSummary>, pagination: Pagination)
    | Details(details: AnimeDetails)
    | GenreList(genres: seq<Genre>)

  datatype Body = Success(data: Data) | Failure(error: string)

  datatype Reply = Reply(status: int, body: Body)

  const TrendingLimit: nat := 12
  const RecentLimit: nat := 20

  // ---------------------------------------------------------------- upstream targets

  function HomeRequest(): Request {
    MakeRequest(BaseUrl + "/home", NoOptions)
  }

  function GenreIndexRequest(): Request {
    MakeRequest(BaseUrl + "/genre", NoOptions)
  }

  /** `${BASE}/search?keyword=${encodeURIComponent(query)}&page=${page}` */
  function SearchUrl(query: string, page: string): (url: string)
    ensures url == BaseUrl + "/search?keyword=" + EncodeUriComponent(query) + "&page=" + page
    ensures '&' !in EncodeUriComponent(query) && '#' !in EncodeUriComponent(query)
  {
    var keyword := EncodeUriComponent(query);
    assert forall i :: 0 <= i < |keyword| ==> keyword[i] != '&' && keyword[i] != '#';
    BaseUrl + "/search?keyword=" + keyword + "&page=" + page
  }

  /** `${BASE}/${id}`: the id goes into the path as it is, unchecked and unencoded. */
  function AnimeUrl(id: string): (url: string)
    ensures |url| == |BaseUrl| + 1 + |id|
    ensures url[..|BaseUrl| + 1] == BaseUrl + "/" && url[|BaseUrl| + 1..] == id
  {
    BaseUrl + "/" + id
  }

  /** `!query`: an absent parameter and the empty string are both rejected. */
  predicate HasQuery(query: Option<string>): (b: bool)
    ensures !b <==> query == None || query == Some("")
  {
    Truthy(query)
  }

  // ---------------------------------------------------------------- handlers

  /** Shared shape of `/trending` and `/recent-episodes`: the home page's first `limit` cards. */
  method HomeListing(upstream: Upstream, limit: nat, error: string) returns (reply: Reply, sent: seq<Request>)
    ensures sent == [HomeRequest()]
    ensures upstream(HomeRequest()).None? ==> reply == Reply(500, Failure(error))
    ensures upstream(HomeRequest()).Some? ==>
      && reply.status == 200 && reply.body.Success? && reply.body.data.Summaries?
      && Summarises(reply.body.data.items, upstream(HomeRequest()).value.cards, Some(limit))
  {
    sent := [HomeRequest()];
    var page := upstream(HomeRequest());
    if page.None? {
      reply := Reply(500, Failure(error));
    } else {
      var items := CollectSummaries(page.value.cards, Some(limit));
      reply := Reply(200, Success(Summaries(items)));
    }
  }

  /** GET /trending: at most the first 12 cards of the home page, in order. */
  method Trending(upstream: Upstream) returns (reply: Reply, sent: seq<Request>)
    ensures sent == [HomeRequest()]
    ensures upstream(HomeRequest()).None? ==> reply == Reply(500, Failure("Failed to fetch trending anime"))
    ensures upstream(HomeRequest()).Some? ==>
      && reply.status == 200 && reply.body.Success? && reply.body.data.Summaries?
      && Summarises(reply.body.data.items, upstream(HomeRequest()).value.cards, Some(12))
  {
    reply, sent := HomeListing(upstream, TrendingLimit, "Failed to fetch trending anime");
  }

  /** GET /recent-episodes: at most the first 20 cards of the home page, in order. */
  method RecentEpisodes(upstream: Upstream) returns (reply: Reply, sent: seq<Request>)
    ensures sent == [HomeRequest()]
    ensures upstream(HomeRequest()).None? ==> reply == Reply(500, Failure("Failed to fetch recent episodes"))
    ensures upstream(HomeRequest()).Some? ==>
      && reply.status == 200 && reply.body.Success? && reply.body.data.Summaries?
      && Summarises(reply.body.data.items, upstream(HomeRequest()).value.cards, Some(20))
  {
    reply, sent := HomeListing(upstream, RecentLimit, "Failed to fetch recent episodes");
  }

  /**
   * GET /search?q=&page=: a missing or empty query is a 400 and nothing is
   * fetched; otherwise every card, in order, and the pagination block.
   */
  method Search(query: Option<string>, page: Option<string>, upstream: Upstream) returns (reply: Reply, sent: seq<Request>)
    ensures !HasQuery(query) ==> sent == [] && reply == Reply(400, Failure("Query parameter is required"))
    ensures HasQuery(query) ==>
      var request := MakeRequest(SearchUrl(query.value, page.GetOr("1")), NoOptions);
      && sent == [request]
      && (upstream(request).None? ==> reply == Reply(500, Failure("Failed to search anime")))
      && (upstream(request).Some? ==>
            && reply.status == 200 && reply.body.Success? && reply.body.data.SearchData?
            && Summarises(reply.body.data.results, upstream(request).value.cards, None)
            && reply.body.data.pagination == Paginate(page, upstream(request).value.pageLinkTexts))
  {
    if !HasQuery(query) {
      reply := Reply(400, Failure("Query parameter is required"));
      sent := [];
      return;
    }
    var request := MakeRequest(SearchUrl(query.value, page.GetOr("1")), NoOptions);
    sent := [request];
    var doc := upstream(request);
    if doc.None? {
      reply := Reply(500, Failure("Failed to search anime"));
    } else {
      var results := CollectSummaries(doc.value.cards, None);
      var pagination := Paginate(page, doc.value.pageLinkTexts);
      reply := Reply(200, Success(SearchData(results, pagination)));
    }
  }

  /** GET /anime/:id: the details of the page at `/{id}`, the id echoed back as given. */
  method AnimeDetailsOf(id: string, upstream: Upstream) returns (reply: Reply, sent: seq<Request>)
    ensures sent == [MakeRequest(AnimeUrl(id), NoOptions)]
    ensures upstream(sent[0]).None? ==> reply == Reply(500, Failure("Failed to fetch anime details"))
    ensures upstream(sent[0]).Some? ==>
      var sel := upstream(sent[0]).value.detail;
      && reply.status == 200 && reply.body.Success? && reply.body.data.Details?
      && DetailsOf(reply.body.data.details, id, sel)
  {
    var request := MakeRequest(AnimeUrl(id), NoOptions);
    sent := [request];
    var doc := upstream(request);
    if doc.None? {
      reply := Reply(500, Failure("Failed to fetch anime details"));
    } else {
      var details := ExtractDetails(id, doc.value.detail);
      reply := Reply(200, Success(Details(details)));
    }
  }

  /** GET /genres: one entry per `.genre-list a` anchor, in order. */
  method Genres(upstream: Upstream) returns (reply: Reply, sent: seq<Request>)
    ensures sent == [GenreIndexRequest()]
    ensures upstream(GenreIndexRequest()).None? ==> reply == Reply(500, Failure("Failed to fetch genres"))
    ensures upstream(GenreIndexRequest()).Some? ==>
      var anchors := upstream(GenreIndexRequest()).value.genreAnchors;
      && reply.status == 200 && reply.body.Success? && reply.body.data.GenreList?
      && |reply.body.data.genres| == |anchors|
      && (forall i :: 0 <= i < |anchors| ==> reply.body.data.genres[i] == GenreOf(anchors[i]))
  {
    sent := [GenreIndexRequest()];
    var doc := upstream(GenreIndexRequest());
    if doc.None? {
      reply := Reply(500, Failure("Failed to fetch genres"));
    } else {
      var genres := CollectGenres(doc.value.genreAnchors);
      reply := Reply(200, Success(GenreList(genres)));
    }
  }

  // ---------------------------------------------------------------- properties across handlers

  /** A listing never holds more cards than its cap, and search keeps them all. */
  lemma ListingSizes(cards: seq<Card>, trending: seq<AnimeSummary>, recent: seq<AnimeSummary>, results: seq<AnimeSummary>)
    requires Summarises(trending, cards, Some(TrendingLimit))
    requires Summarises(recent, cards, Some(RecentLimit))
    requires Summarises(results, cards, None)
    ensures |trending| == Min(|cards|, 12) && |recent| == Min(|cards|, 20) && |results| == |cards|
    ensures trending == recent[..|trending|] && recent == results[..|recent|]
  {
  }

  /** Every request the handlers send carries the browser identity, the referer and the 10 s timeout. */
  lemma RequestsCarryDefaults(url: string)
    ensures MakeRequest(url, NoOptions).config == MergeConfig(NoOptions)
    ensures MergeConfig(NoOptions) == RequestConfig(map["User-Agent" := UserAgent, "Referer" := BaseUrl], 10000)
  {
    MergeConfigAgreesWithoutHeaders(NoOptions);
  }
}
