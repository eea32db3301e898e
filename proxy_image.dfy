/** The image relay route (`GET /api/proxy-image?url=...`) as a decision
    from the request URL and the upstream outcome to the upstream request it
    makes, if any, and the response record it returns. The fetch and the
    body read are the abstract outcome; `console.error` is left out. */
module ProxyImage {
  import opened Wrappers
  import Uri
  import Utf8

  type byte = Utf8.byte

  type Headers = seq<(string, string)>

  datatype Body = Json(error: string) | Bytes(data: seq<byte>)

  /** What the route returns: status, headers and body. */
  datatype Response = Response(status: nat, headers: Headers, body: Body)

  /** The upstream request the route issues. */
  datatype Request = Request(url: string, headers: Headers)

  /** The upstream exchange: the fetch rejects, or an answer arrives with
      its status, its `content-type` header (if any) and its body, `None`
      when reading the body rejects. */
  datatype Upstream = Unreachable | Answered(status: nat, contentType: Option<string>, body: Option<seq<byte>>)

  /** The upstream request made (none on a bad request) and the response. */
  datatype Exchange = Exchange(fetched: Option<Request>, response: Response)

  const SkipBrowserWarning := ("ngrok-skip-browser-warning", "true")
  const MissingUrl := "Missing url parameter"
  const FetchFailed := "Failed to fetch image"
  const DefaultContentType := "image/jpeg"
  /** One year, immutable (section 5.2.2 of RFC 9111, RFC 8246). */
  const CacheForever := "public, max-age=31536000, immutable"

  /** Response.ok: the status is in the range 200 to 299. */
  predicate IsOk(status: nat) {
    200 <= status <= 299
  }

  /** The first value given for `name`. */
  function HeaderValue(headers: Headers, name: string): (v: Option<string>)
    ensures v.Some? ==> (name, v.value) in headers
    ensures v.None? ==> forall i :: 0 <= i < |headers| ==> headers[i].0 != name
  {
    if headers == [] then None
    else if headers[0].0 == name then Some(headers[0].1)
    else HeaderValue(headers[1..], name)
  }

  /** `NextResponse.json({ error: message }, { status })`. */
  function JsonError(status: nat, message: string): Response {
    Response(status, [("content-type", "application/json")], Json(message))
  }

  /** `!imageUrl`: no parameter, or an empty one. */
  predicate MissingParam(param: Option<string>) {
    param.None? || param.value == ""
  }

  /** After the fetch: a non-ok status and a failed body read both land in
      the catch; otherwise the bytes are passed through. */
  function Relay(upstream: Upstream): (resp: Response)
    ensures resp.status == 200 <==> Delivered(upstream)
    ensures resp.status != 200 ==> resp == JsonError(500, FetchFailed)
    ensures resp.status == 200 ==> resp.body == Bytes(upstream.body.value)
  {
    match upstream
    case Unreachable => JsonError(500, FetchFailed)
    case Answered(status, contentType, body) =>
      if !IsOk(status) || body.None? then JsonError(500, FetchFailed)
      else
        var ct := if contentType.None? || contentType.value == "" then DefaultContentType else contentType.value;
        Response(200, [("Content-Type", ct), ("Cache-Control", CacheForever), ("Access-Control-Allow-Origin", "*")],
                 Bytes(body.value))
  }

  /** The upstream exchange succeeded: an ok status and a body. */
  predicate Delivered(upstream: Upstream) {
    upstream.Answered? && IsOk(upstream.status) && upstream.body.Some?
  }

  /** The route handler. */
  function Get(requestUrl: string, upstream: Upstream): (x: Exchange)
    ensures var param := Uri.SearchParam(requestUrl, "url");
      && (x.fetched.None? <==> MissingParam(param))
      && (x.fetched.Some? ==> x.fetched.value == Request(param.value, [SkipBrowserWarning]))
    ensures x.response.status == 400 <==> x.fetched.None?
    ensures x.response.status == 200 <==> x.fetched.Some? && Delivered(upstream)
    ensures x.response.status == 500 <==> x.fetched.Some? && !Delivered(upstream)
    ensures x.response.status == 400 ==> x.response.body == Json(MissingUrl)
    ensures x.response.status == 500 ==> x.response.body == Json(FetchFailed)
    ensures x.response.status == 200 ==> x.response.body == Bytes(upstream.body.value)
  {
    var imageUrl := Uri.SearchParam(requestUrl, "url");
    if MissingParam(imageUrl) then
      Exchange(None, JsonError(400, MissingUrl))
    else
      Exchange(Some(Request(imageUrl.value, [SkipBrowserWarning])), Relay(upstream))
  }

  /** Every upstream request carries the tunnel's skip-warning header. */
  lemma UpstreamRequestSkipsWarning(requestUrl: string, upstream: Upstream)
    ensures var x := Get(requestUrl, upstream);
      x.fetched.Some? ==> HeaderValue(x.fetched.value.headers, "ngrok-skip-browser-warning") == Some("true")
  {
  }

  /** A successful response carries the upstream content type (or
      `image/jpeg` when there is none or it is empty), the one-year immutable
      cache policy and the open CORS header. */
  lemma SuccessHeaders(requestUrl: string, upstream: Upstream)
    requires Get(requestUrl, upstream).response.status == 200
    ensures var h := Get(requestUrl, upstream).response.headers;
      var ct := upstream.contentType;
      && HeaderValue(h, "Content-Type") == Some(if ct.Some? && ct.value != "" then ct.value else DefaultContentType)
      && HeaderValue(h, "Cache-Control") == Some(CacheForever)
      && HeaderValue(h, "Access-Control-Allow-Origin") == Some("*")
  {
    var h := Get(requestUrl, upstream).response.headers;
    assert h[1..][1..] == [("Access-Control-Allow-Origin", "*")];
    assert HeaderValue(h[1..], "Access-Control-Allow-Origin") == Some("*");
  }
}
