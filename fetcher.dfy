/**
 * The request that `makeRequest` (apps/api/src/index.js) hands to the HTTP
 * client: the target URL and the configuration merged from the defaults and
 * the caller's options. Sending it and waiting for the reply is not modelled.
 */
module Fetcher {
  import opened Wrappers

  const BaseUrl: string := "https://hianime.to"
  const UserAgent: string := "Mozilla/5.0 (Windows NT 10.0; Win64; x64) AppleWebKit/537.36 (KHTML, like Gecko) Chrome/91.0.4472.124 Safari/537.36"
  const DefaultTimeoutMs: int := 10000

  type Headers = map<string, string>

  /** The caller's `options` object: `None` for a key it does not carry. */
  datatype Options = Options(headers: Option<Headers>, timeout: Option<int>)

  const NoOptions: Options := Options(None, None)

  datatype RequestConfig = RequestConfig(headers: Headers, timeout: int)

  datatype Request = Request(url: string, config: RequestConfig)

  /** The browser identity and referer every request is meant to carry. */
  function DefaultHeaders(): (h: Headers)
    ensures h.Keys == {"User-Agent", "Referer"}
    ensures h["User-Agent"] == UserAgent && h["Referer"] == BaseUrl
  {
    map["User-Agent" := UserAgent, "Referer" := BaseUrl]
  }

  /**
   * The merge as written: `{headers: {...defaults, ...options.headers},
   * timeout: 10000, ...options}`. The trailing spread copies the caller's own
   * `headers` key over the merged object, so caller headers replace the
   * defaults instead of adding to them.
   */
  function MergeConfig(options: Options): (c: RequestConfig)
    ensures options.headers.None? ==> c.headers == DefaultHeaders()
    ensures options.headers.Some? ==> c.headers == options.headers.value
    ensures options.timeout.Some? ==> c.timeout == options.timeout.value
    ensures options.timeout.None? ==> c.timeout == DefaultTimeoutMs
  {
    var merged := DefaultHeaders() + options.headers.GetOr(map[]);
    RequestConfig(
      if options.headers.Some? then options.headers.value else merged,
      options.timeout.GetOr(DefaultTimeoutMs))
  }

  /** With caller headers that lack a User-Agent, the request as written goes out without one. */
  lemma MergeConfigDropsDefaults(callerHeaders: Headers, timeout: Option<int>)
    requires "User-Agent" !in callerHeaders
    ensures "User-Agent" !in MergeConfig(Options(Some(callerHeaders), timeout)).headers
  {
  }

  /**
   * The merge the inner spread evidently intends: caller headers are laid
   * over the defaults, so they may change a default but never remove one.
   */
  function MergeConfigIntended(options: Options): (c: RequestConfig)
    ensures DefaultHeaders().Keys <= c.headers.Keys
    ensures options.headers.Some? ==> c.headers.Keys == DefaultHeaders().Keys + options.headers.value.Keys
    ensures options.headers.Some? ==> forall k :: k in options.headers.value ==> c.headers[k] == options.headers.value[k]
    ensures forall k :: k in DefaultHeaders() && (options.headers.None? || k !in options.headers.value) ==> c.headers[k] == DefaultHeaders()[k]
    ensures c.timeout == MergeConfig(options).timeout
  {
    RequestConfig(DefaultHeaders() + options.headers.GetOr(map[]), options.timeout.GetOr(DefaultTimeoutMs))
  }

  /** Every call site passes no options, and there the two merges agree. */
  lemma MergeConfigAgreesWithoutHeaders(options: Options)
    requires options.headers.None?
    ensures MergeConfig(options) == MergeConfigIntended(options)
  {
    assert DefaultHeaders() + map[] == DefaultHeaders();
  }

  /**
   * makeRequest(url, options) as intended: a GET of `url` whose headers are
   * the caller's laid over the defaults. With no options it carries exactly
   * the two default headers and a 10000 ms timeout.
   */
  function MakeRequest(url: string, options: Options): (r: Request)
    ensures r.url == url
    ensures "User-Agent" in r.config.headers && "Referer" in r.config.headers
    ensures r.config.headers["User-Agent"] == (if options.headers.Some? && "User-Agent" in options.headers.value then options.headers.value["User-Agent"] else UserAgent)
    ensures options == NoOptions ==> r.config == RequestConfig(DefaultHeaders(), DefaultTimeoutMs)
  {
    Request(url, MergeConfigIntended(options))
  }

  /**
   * Wherever the caller passes no headers, which is at every call site,
   * the intended request is the one the code as written builds.
   */
  lemma MakeRequestAsWritten(url: string, options: Options)
    requires options.headers.None?
    ensures MakeRequest(url, options) == Request(url, MergeConfig(options))
  {
    MergeConfigAgreesWithoutHeaders(options);
  }
}
