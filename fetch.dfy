/** The conditional GET of `fetch_feed_data`.

    The HTTP exchange is a parameter `net`: given the URL and the request headers it
    yields the response, or `None` when the request fails below HTTP (connection,
    DNS, timeout), which the code lets propagate as an exception. */
module ConditionalFetch {
  import opened Wrappers
  import opened FeedTypes

  type Headers = map<string, string>

  const IfModifiedSince: string := "If-Modified-Since"
  const IfNoneMatch: string := "If-None-Match"

  /** What the code reads of a response: its status, its text and two of its headers. */
  datatype Response = Response(status: int, body: string, lastModified: Option<string>, etag: Option<string>)

  /** The exchange with the feed server. */
  type Network = (string, Headers) -> Option<Response>

  /** `feed_data, new_last_modified, new_etag`. On a 304 the code returns the empty tuple
      `()` as data; only its falsiness matters, so it is the empty string here. */
  datatype Fetched = Fetched(data: string, lastModified: Validator, etag: Validator)

  /** A response header as `headers.get` returns it: the string or `None`. */
  function OfHeader(h: Option<string>): (v: Validator)
    ensures v.NoValue? <==> h.None?
    ensures h.Some? ==> v == Text(h.value)
  {
    match h
    case Some(s) => Text(s)
    case None => NoValue
  }

  /** The request headers: each conditional header is present exactly when its validator is truthy. */
  function ConditionalHeaders(lastModified: Validator, etag: Validator): (h: Headers)
    ensures IfModifiedSince in h <==> Truthy(lastModified)
    ensures IfNoneMatch in h <==> Truthy(etag)
    ensures IfModifiedSince in h ==> h[IfModifiedSince] == lastModified.text
    ensures IfNoneMatch in h ==> h[IfNoneMatch] == etag.text
    ensures h.Keys <= {IfModifiedSince, IfNoneMatch}
  {
    var modified := if Truthy(lastModified) then map[IfModifiedSince := lastModified.text] else map[];
    if Truthy(etag) then modified[IfNoneMatch := etag.text] else modified
  }

  /** The outcome of `fetch_feed_data`. */
  function Fetch(url: string, lastModified: Validator, etag: Validator, net: Network): (r: Result<Fetched, SyncError>)
    ensures r.Failure? <==> net(url, ConditionalHeaders(lastModified, etag)).None?
    ensures r.Failure? ==> r.error == NetworkFailure
    ensures r.Success? && net(url, ConditionalHeaders(lastModified, etag)).value.status == 304 ==>
              r.value == Fetched("", lastModified, etag)
  {
    match net(url, ConditionalHeaders(lastModified, etag))
    case None => Failure(NetworkFailure)
    case Some(resp) =>
      if resp.status == 304 then Success(Fetched("", lastModified, etag))
      else Success(Fetched(resp.body, OfHeader(resp.lastModified), OfHeader(resp.etag)))
  }

  /** `fetch_feed_data`: builds the headers one by one, sends the request, and
      distinguishes 304 from every other status. */
  method FetchFeedData(url: string, lastModified: Validator, etag: Validator, net: Network)
    returns (r: Result<Fetched, SyncError>)
    ensures r == Fetch(url, lastModified, etag, net)
  {
    var headers: Headers := map[];
    if Truthy(lastModified) {
      headers := headers[IfModifiedSince := lastModified.text];
    }
    if Truthy(etag) {
      headers := headers[IfNoneMatch := etag.text];
    }
    assert headers == ConditionalHeaders(lastModified, etag);
    var response := net(url, headers);
    if response.None? {
      return Failure(NetworkFailure);
    }
    if response.value.status == 304 {
      return Success(Fetched("", lastModified, etag));
    }
    var newLastModified := OfHeader(response.value.lastModified);
    var newEtag := OfHeader(response.value.etag);
    r := Success(Fetched(response.value.body, newLastModified, newEtag));
  }

  /** The placeholder validators of a missing config file, and empty strings, send no conditional header. */
  lemma UntruthyValidatorsSendNothing(lastModified: Validator, etag: Validator)
    requires !Truthy(lastModified) && !Truthy(etag)
    ensures ConditionalHeaders(lastModified, etag) == map[]
  {
  }

  /** A 304 yields no data and hands the request's validators back unchanged. */
  lemma NotModifiedPassesValidators(url: string, lastModified: Validator, etag: Validator, net: Network)
    requires net(url, ConditionalHeaders(lastModified, etag)).Some?
    requires net(url, ConditionalHeaders(lastModified, etag)).value.status == 304
    ensures Fetch(url, lastModified, etag, net) == Success(Fetched("", lastModified, etag))
  {
  }

  /** Any other status (not only 2xx) yields the body and the response's own validators, each possibly absent. */
  lemma OtherStatusTakesResponse(url: string, lastModified: Validator, etag: Validator, net: Network)
    requires net(url, ConditionalHeaders(lastModified, etag)).Some?
    requires net(url, ConditionalHeaders(lastModified, etag)).value.status != 304
    ensures var resp := net(url, ConditionalHeaders(lastModified, etag)).value;
            Fetch(url, lastModified, etag, net) == Success(Fetched(resp.body, OfHeader(resp.lastModified), OfHeader(resp.etag)))
  {
  }

  /** A transport failure is the only way the fetch fails. */
  lemma FetchFailsOnlyOnTransport(url: string, lastModified: Validator, etag: Validator, net: Network)
    ensures Fetch(url, lastModified, etag, net).Failure? <==> net(url, ConditionalHeaders(lastModified, etag)).None?
  {
  }
}
