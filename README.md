# HiAnime API and sample data, modelled in Dafny

This project models the data-shaping core of a small anime-browsing app.

- **The API server** (apps/api/src/index.js) scrapes hianime.to. Each route does the same thing:
  - builds one upstream URL;
  - sends it through `makeRequest`, which merges a browser User-Agent, a Referer and a 10 s timeout into the request;
  - picks values out of the returned HTML;
  - normalises them into JSON records (anime summaries, search results with pagination, anime details, genres);
  - or replies with a fixed error message.
- **The desktop client's sample-data module** (apps/desktop/src/renderer/data/sampleData.ts) generates episode lists. It also cuts the trending, recent and featured selections from the sample catalogue.

Modules, one per concern:

- `Wrappers`: `Option`.
- `JsString`: the JavaScript string and number primitives the code relies on. They are written out with their real edge cases:
  - `String.prototype.trim` and its whitespace set;
  - `split` on one character;
  - `toLowerCase` on ASCII;
  - `parseInt` with leading whitespace, a sign, a `0x` prefix and the longest digit prefix; NaN is `None`;
  - `encodeURIComponent` over UTF-8, with `decodeURIComponent` as its inverse. The decoder does not appear in the program; it is there to state that the keyword reaches the upstream intact;
  - number-to-decimal;
  - `Array.prototype.slice`.
- `Fetcher`: the request `makeRequest` builds, meaning its URL and merged configuration.
- `Extractor`:
  - `extractAnimeData`, with the `||` fallback chains;
  - the details record and its genre loop;
  - the genre entries;
  - the `each`/`push` list building, with and without an index cap;
  - the pagination block.
- `Dispatcher`: the five data routes as methods. Each takes the upstream as a function from request to `Option<Document>`, where `None` means the fetch or parse threw. It returns the reply and the requests it sent.
- `SampleData`:
  - `createEpisodes`;
  - the URL slug `toLowerCase().replace(/\s+/g, '-')`;
  - the three slices of the catalogue.

The HTML itself is not parsed. A `Document` holds what the route's CSS selectors yield, in document order:

- one `Card` per `.film_list-wrap .flw-item`, holding the attribute or text each field reads; `None` stands for an absent attribute;
- the texts of the `.pagination .page-link` elements;
- the detail-page selections;
- the `.genre-list a` anchors.

The code and the intended behaviour disagree at one point: request headers. Caller headers are meant only to add to the defaults. The code lets them replace the defaults (see "## Findings"). `Fetcher.MergeConfig` models the code as written. The rest of the model uses the intended merge, `Fetcher.MergeConfigIntended`. No route passes options, so every request the routes send is the same under either merge (`Fetcher.MergeConfigAgreesWithoutHeaders`).

## Model

| member | source | states |
|---|---|---|
| Fetcher.DefaultHeaders | apps/api/src/index.js:24-26 | exactly the keys User-Agent (the Chrome 91 string) and Referer (`https://hianime.to`) |
| Fetcher.MergeConfig | apps/api/src/index.js:23-31 | as written: the caller's `headers`, when given, are the whole header set; otherwise the defaults; the caller's timeout wins over 10000 |
| Fetcher.MergeConfigDropsDefaults | apps/api/src/index.js:23-31 | caller headers without User-Agent lead to a request with no User-Agent |
| Fetcher.MergeConfigIntended | apps/api/src/index.js:24-28 | the default keys are always present; caller header values win on their keys; defaults stay on the other keys; the timeout is as in the code |
| Fetcher.MergeConfigAgreesWithoutHeaders | apps/api/src/index.js:21-31 | with no caller headers, the written and the intended merges are equal |
| Fetcher.MakeRequest | apps/api/src/index.js:21-31 | makeRequest with the corrected merge: the URL is kept; User-Agent and Referer are always present; User-Agent is the caller's if given, else the default; with no options the config is exactly the defaults and 10000 ms |
| Fetcher.MakeRequestAsWritten | apps/api/src/index.js:21-31 | when the caller passes no headers, the corrected request equals the one the code as written builds |
| Extractor.ExtractAnimeData | apps/api/src/index.js:40-52 | the id has no '/'; title and poster are "" exactly when neither candidate is truthy, and otherwise one of the candidates; the five texts are trimmed |
| Extractor.FirstTruthy | apps/api/src/index.js:44-45 | `a \|\| b \|\| ''` is "" exactly when no candidate is truthy; otherwise it is the first truthy candidate |
| Extractor.FirstTruthyOfTwo | apps/api/src/index.js:44-45 | the three cases of a two-candidate chain |
| Extractor.IdFromHref | apps/api/src/index.js:43 | the card id contains no '/'; it is "" when there is no href or the href has fewer than two slashes |
| Extractor.IdOfPath | apps/api/src/index.js:43 | for an href `p0/p1/p2...` the id is the third segment `p2` |
| Extractor.ExtractAnimeDataFields | apps/api/src/index.js:40-52 | id from the href; title and poster follow their fallback chains down to ""; the five text fields are the trimmed texts |
| Extractor.PreferSrc | apps/api/src/index.js:131 | a truthy `src` is taken as is; otherwise `data-src`, which may be absent |
| Extractor.ExtractDetails | apps/api/src/index.js:128-145 | the details record: id as given; preferred poster; every text trimmed; one trimmed genre per genre anchor, in order |
| Extractor.LastSegment | apps/api/src/index.js:184 | `href?.split('/').pop()` is present exactly when the href is; it contains no '/', is a suffix of the href, and is either the whole href or preceded by a '/' |
| Extractor.LastSegmentOfPath | apps/api/src/index.js:184 | for `dir/slug` the genre id is `slug` |
| Extractor.GenreOf | apps/api/src/index.js:182-187 | the url is the anchor's href; the id is its last segment; the name is the trimmed text |
| Extractor.CollectGenres | apps/api/src/index.js:179-188 | one genre per anchor, in order |
| Extractor.Capped | apps/api/src/index.js:69 | the number of kept elements: `min(n, limit)` under a cap, else `n` |
| Extractor.EachPush | apps/api/src/index.js:68-72 | the loop that pushes `f(element)` while `i < limit` yields `f` of exactly the first `min(n, limit)` elements, in order |
| Extractor.CollectSummaries | apps/api/src/index.js:96-98 | the summaries are the extracted cards, in order, truncated to the cap if one is given |
| Extractor.SummariesPrefix | apps/api/src/index.js:161-165 | a listing with the smaller cap is a prefix of the one with the larger cap |
| Extractor.PrevOfLastText | apps/api/src/index.js:101 | `.last().prev().text()`: the text of the link just before the last one; "" (NaN to parseInt) with fewer than two links |
| Extractor.TotalPages | apps/api/src/index.js:101 | never 0; the parsed text of the link before the last when that is a nonzero number; 1 otherwise |
| Extractor.Paginate | apps/api/src/index.js:107-111 | currentPage is `parseInt(page)` with `page` defaulting to "1"; totalPages as above; hasNext exactly when currentPage is a number below totalPages |
| Extractor.PaginateDecimal | apps/api/src/index.js:101-111 | page "k" and a link text reading n, padded by whitespace, give `{k, n, k < n}` |
| Extractor.TotalPagesDecimal | apps/api/src/index.js:101 | a whitespace-padded decimal n >= 1 before the last link is the page count |
| Extractor.ParseDecimal | apps/api/src/index.js:108 | `parseInt` reads back every decimal rendering of a natural number |
| Extractor.PaginateDefaultPage | apps/api/src/index.js:83 | without `page` the current page is 1, and a next page exists exactly when the total exceeds 1 |
| Extractor.PaginateNoLinks | apps/api/src/index.js:101 | with fewer than two page links, totalPages is 1 |
| Dispatcher.HasQuery | apps/api/src/index.js:85 | `!query` holds exactly for a missing and an empty `q` |
| Dispatcher.SearchUrl | apps/api/src/index.js:91 | the search URL spelled out; the encoded keyword cannot contain '&' or '#' |
| Dispatcher.AnimeUrl | apps/api/src/index.js:125 | the details URL is the base, '/', then the id verbatim |
| Dispatcher.HomeListing | apps/api/src/index.js:64-77 | one request to `/home`; 500 with the given message on failure; otherwise 200 with the first `limit` summaries |
| Dispatcher.Trending | apps/api/src/index.js:62-79 | one request to `/home`; 500 "Failed to fetch trending anime"; otherwise the first 12 summaries |
| Dispatcher.RecentEpisodes | apps/api/src/index.js:155-172 | one request to `/home`; 500 "Failed to fetch recent episodes"; otherwise the first 20 summaries |
| Dispatcher.Search | apps/api/src/index.js:82-118 | a missing or empty `q` gives 400 "Query parameter is required" and sends nothing; otherwise one request to the search URL; 500 "Failed to search anime" on failure; otherwise every summary and the pagination |
| Dispatcher.AnimeDetailsOf | apps/api/src/index.js:121-152 | one request to `/{id}`; 500 "Failed to fetch anime details"; otherwise the details record of the page |
| Dispatcher.Genres | apps/api/src/index.js:175-195 | one request to `/genre`; 500 "Failed to fetch genres"; otherwise one genre per anchor |
| Dispatcher.ListingSizes | apps/api/src/index.js:68-72 | trending holds `min(n,12)` items, recent `min(n,20)` and search `n`; each is a prefix of the next |
| Dispatcher.RequestsCarryDefaults | apps/api/src/index.js:23-31 | a request without options carries exactly User-Agent, Referer and a 10000 ms timeout, under either merge |
| JsString.IsWhitespace | apps/api/src/index.js:46 | the `trim` and `\s` set: on ASCII exactly tab, LF, VT, FF, CR and space; never a digit, an ASCII capital, '-' or '/' |
| JsString.TrimStart | apps/api/src/index.js:46 | the result is no longer than the input and does not start with whitespace |
| JsString.TrimEnd | apps/api/src/index.js:46 | the result is no longer than the input and does not end with whitespace |
| JsString.TrimStartIsSuffix | apps/api/src/index.js:46 | trimming the start removes a whitespace-only prefix |
| JsString.TrimEndIsPrefix | apps/api/src/index.js:46 | trimming the end removes a whitespace-only suffix |
| JsString.Trim | apps/api/src/index.js:46-50 | the result neither starts nor ends with whitespace |
| JsString.TrimIsInfix | apps/api/src/index.js:46-50 | the trimmed text is a contiguous slice of the input with only whitespace around it |
| JsString.TrimPadded | apps/api/src/index.js:46-50 | trimming whitespace-padded trimmed text gives that text back |
| JsString.TrimIdempotent | apps/api/src/index.js:46-50 | trimming twice equals trimming once |
| JsString.Split | apps/api/src/index.js:43 | at least one piece; no piece contains the separator |
| JsString.JoinSplit | apps/api/src/index.js:43 | joining the pieces with the separator rebuilds the string |
| JsString.SplitJoin | apps/api/src/index.js:43 | splitting a join of separator-free pieces gives the pieces back |
| JsString.SplitCount | apps/api/src/index.js:43 | the piece count is one more than the number of separators |
| JsString.SplitLast | apps/api/src/index.js:184 | the last piece is the text after the last separator |
| JsString.ToLower | apps/desktop/src/renderer/data/sampleData.ts:11 | the length is kept; each ASCII capital becomes its lower-case letter (code + 32); other characters are unchanged; no ASCII capital remains; whitespace stays whitespace |
| JsString.NatToDecimal | apps/desktop/src/renderer/data/sampleData.ts:6 | at least one decimal digit; no leading zero except for 0 itself |
| JsString.DecimalInjective | apps/desktop/src/renderer/data/sampleData.ts:6 | different numbers render differently |
| JsString.ParseInt | apps/api/src/index.js:101-108 | NaN for blank text and for text whose first non-whitespace character is neither a sign nor a digit; a leading '-' gives a number <= 0, otherwise >= 0 |
| JsString.ParseIntDecimal | apps/api/src/index.js:101 | `parseInt` of a decimal rendering, after leading whitespace and before any non-digit tail, is that number, except that a rendered 0 followed by 'x' or 'X' reads as a `0x` prefix and is excluded |
| JsString.ParseIntNegative | apps/api/src/index.js:108 | `parseInt("-n")` is the negative number |
| JsString.Utf8 | apps/api/src/index.js:91 | one to four bytes, each below 256; a single byte exactly for ASCII |
| JsString.PercentEncode | apps/api/src/index.js:91 | three characters per byte |
| JsString.PercentEncodeShape | apps/api/src/index.js:91 | '%' sits exactly at every third position, and the hex digits are URI-safe |
| JsString.EncodeUriComponent | apps/api/src/index.js:91 | the output is at least as long and holds only unreserved characters and '%' |
| JsString.EncodeUnreserved | apps/api/src/index.js:91 | a string of unreserved characters is left unchanged |
| JsString.DecodeEncode | apps/api/src/index.js:91 | decoding the encoded keyword (decodeURIComponent: escapes read as UTF-8, overlong forms and surrogates refused) gives back the query exactly |
| JsString.EncodeInjective | apps/api/src/index.js:91 | two different queries never yield the same keyword |
| JsString.Slice | apps/desktop/src/renderer/data/sampleData.ts:100 | the clamped length of `slice(start, end)`; element i is `s[start + i]` |
| SampleData.CollapseWhitespace | apps/desktop/src/renderer/data/sampleData.ts:11 | `replace(/\s+/g, '-')` never lengthens the text |
| SampleData.CollapseLeavesNoWhitespace | apps/desktop/src/renderer/data/sampleData.ts:11 | no whitespace is left after collapsing |
| SampleData.CollapseKeepsCharacters | apps/desktop/src/renderer/data/sampleData.ts:11 | every output character is '-' or came from the input |
| SampleData.CollapseNoWhitespace | apps/desktop/src/renderer/data/sampleData.ts:11 | text without whitespace is unchanged |
| SampleData.CollapseRun | apps/desktop/src/renderer/data/sampleData.ts:11 | a maximal whitespace run between words becomes one '-' |
| SampleData.Slug | apps/desktop/src/renderer/data/sampleData.ts:11 | the URL slug has no whitespace and no ASCII capital letter |
| SampleData.SlugIdempotent | apps/desktop/src/renderer/data/sampleData.ts:11 | slugging a slug changes nothing |
| SampleData.MakeEpisode | apps/desktop/src/renderer/data/sampleData.ts:5-12 | episode `index` is numbered index + 1 and lasts 1440 s; its id is `ep-` followed by text that parseInt reads back as that number; its title starts with the anime title |
| SampleData.CreateEpisodes | apps/desktop/src/renderer/data/sampleData.ts:4-13 | `max(0, count)` episodes; episode i is built from index i |
| SampleData.EpisodeFields | apps/desktop/src/renderer/data/sampleData.ts:6-11 | episode i: id `ep-{i+1}`, title `{title} Episode {i+1}`, number i+1, 1440 s, thumbnail and url as spelled |
| SampleData.EpisodeIdReadsBack | apps/desktop/src/renderer/data/sampleData.ts:6-8 | the number after `ep-` parses back to the episode number |
| SampleData.EpisodeNumbersIncrease | apps/desktop/src/renderer/data/sampleData.ts:8 | episode numbers strictly increase with the index |
| SampleData.EpisodeIdsDistinct | apps/desktop/src/renderer/data/sampleData.ts:6 | no two episodes share an id, since each id reads back as its own number |
| SampleData.EpisodeUrlHasNoWhitespace | apps/desktop/src/renderer/data/sampleData.ts:11 | episode URLs contain no whitespace |
| SampleData.TrendingAnime | apps/desktop/src/renderer/data/sampleData.ts:100 | the first `min(n, 4)` entries of the catalogue |
| SampleData.RecentAnime | apps/desktop/src/renderer/data/sampleData.ts:103 | entries 1 to 4 of the catalogue, clamped; empty for a catalogue of at most one entry |
| SampleData.FeaturedAnime | apps/desktop/src/renderer/data/sampleData.ts:106 | the first entry; absent exactly when the catalogue is empty |
| SampleData.RecentOverlapsTrending | apps/desktop/src/renderer/data/sampleData.ts:100-106 | with at least five entries, recent and trending share three entries in a row, and the featured entry leads trending |

## Left out

- HTTP transport: axios, the network, timeouts as elapsed time. The upstream is a function parameter, and a thrown error is `None`.
- Fastify wiring: CORS, logging, the generic error handler (index.js:198-204), PORT/HOST and start-up and shutdown signals. Each route already catches its own failures.
- GET /health: it reports the wall-clock time, which a model has no access to.
- HTML parsing and CSS selection, `:contains` included. The model starts from the values the selectors yield. `.text()` of several matches being their concatenation is taken as given.
- Extractor.TotalPages: `.last().prev()` is the previous sibling of the last page link. The model takes the link before it in the list of links, assuming the links are siblings.
- Extractor.Paginate: `parseInt` yields a floating-point number, so digit strings beyond 2^53 lose precision. The model's integers are exact. A NaN currentPage (`None` here) serialises as JSON null.
- Fetcher.MakeRequest: modelled with the corrected merge. With caller `headers`, the code as written drops User-Agent and Referer (`Fetcher.MergeConfig`, see "## Findings"); no route passes headers, and `Fetcher.MakeRequestAsWritten` shows the two agree there.
- Fetcher.Options: only `headers` and `timeout` of the caller's options are modelled. Other axios keys, and keys present with value `undefined`, are not.
- Dispatcher.Search: `q` or `page` given more than once (arrays in the parsed query) is not modelled. Both are strings or absent.
- JsString.ToLower: maps ASCII letters only. `toLowerCase` also folds non-ASCII letters.
- JsString.NatToDecimal: JavaScript switches to exponent notation at 1e21. Counts that large are not modelled.
- JsString.EncodeUriComponent: lone surrogates, which make `encodeURIComponent` throw, are not modelled. A Dafny string cannot hold them.
- SampleData.CreateEpisodes: a fractional or NaN `count` is not modelled; the count is an integer. A count of 2^32 or more makes `Array.from` throw a RangeError (invalid array length); the model's count is an unbounded integer, so that error is not modelled and the model returns `count` episodes there.
- The literal sample records in sampleData.ts:16-97 are not modelled. The slices are proved for every catalogue.
- The desktop client's API wrapper, the Electron main process and the React components are not part of this model.

## Findings

| source | as written | input that shows it | evidently intended | confidence | as-written member | corrected member |
|---|---|---|---|---|---|---|
| apps/api/src/index.js:23-31 | `...options` after the merged `headers` object copies `options.headers` over it, so caller headers replace the defaults | `makeRequest(url, {headers: {Accept: 'text/html'}})` builds a config with neither User-Agent nor Referer, so the client falls back to its own `axios/<version>` agent | caller headers laid over the defaults, as the inner `...options.headers` spread is written to do | not executed; high (plain object-spread semantics) | Fetcher.MergeConfigDropsDefaults | Fetcher.MergeConfigIntended |
