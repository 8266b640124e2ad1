/** The page-side `geocode` and `initCompany` of js/mpa.js. The HTTP round
    trip to /api/geocode is an input: `Reply` is what `fetch` and
    `res.json()` handed back, or the error a rejected `fetch` threw.
    Number parsing (`Number(data?.x)` with the `Number.isFinite` check)
    is an optional coordinate already computed. */
module ClientGeocode {
  import opened Wrappers
  import opened JsString
  import opened Links
  import GeocodeProxy

  /** `COMPANY`. */
  const CompanyName := "선두에너지"
  const CompanyAddress := "인천 서구 청마로34번길 32-9"

  /** The proxy's reply as the page sees it. In `Json`, `x` and `y` are
      `Number(data?.x)` / `Number(data?.y)` when finite, and the strings
      are "" when the field is missing or falsy. */
  datatype Reply =
    | NetworkError(message: string)  // `fetch` rejected, with the error's message
    | NotJson
    | Json(ok: bool, x: Option<Numeral>, y: Option<Numeral>,
           addressName: string, message: string, error: string)

  /** What `geocode` returns or throws: a thrown `Error`'s message, `null`,
      or `{x, y, label, raw}`. */
  datatype Geo =
    | Failed(message: string)
    | NoMatch
    | Found(x: Numeral, y: Numeral, labelText: string, raw: string)

  const NonJsonMessage := "GEOCODE_NON_JSON_RESPONSE"
  const CompanyNotFoundMessage := "COMPANY_GEOCODE_NOT_FOUND"

  /** `data?.message || data?.error || "API error"`. */
  function ApiErrorDetail(message: string, error: string): string {
    if message != "" then message else if error != "" then error else "API error"
  }

  /** Whether `geocode(address)` sends a request at all. */
  predicate Requests(address: string) {
    Trim(address) != ""
  }

  /** `geocode(address)`. */
  function Geocode(address: string, reply: Reply): (g: Geo)
    ensures !Requests(address) ==> g == NoMatch
    ensures g.Failed? <==> Requests(address) && !(reply.Json? && reply.ok)
    ensures Requests(address) && reply.NetworkError? ==> g == Failed(reply.message)
    ensures g.Found? ==> && reply.Json? && reply.ok
                         && reply.x == Some(g.x) && reply.y == Some(g.y)
                         && g.raw == Trim(address) && g.raw != ""
                         && g.labelText != ""
                         && (reply.addressName != "" ==> g.labelText == reply.addressName)
                         && (reply.addressName == "" ==> g.labelText == g.raw)
    ensures Requests(address) && reply.Json? && reply.ok && reply.x.Some? && reply.y.Some? ==> g.Found?
  {
    var q := Trim(address);
    if q == "" then NoMatch
    else
      match reply
      case NetworkError(m) => Failed(m)
      case NotJson => Failed(NonJsonMessage)
      case Json(ok, x, y, name, message, error) =>
        if !ok then Failed("KAKAOMAP_ERROR: " + ApiErrorDetail(message, error))
        else if x.None? || y.None? then NoMatch
        else Found(x.value, y.value, if name != "" then name else q, q)
  }

  /** How a proxy response reaches the page: `res.ok` is a 2xx status, the
      405 has an empty body on which `res.json()` throws, and `toNumber`
      stands for `Number(...)` followed by the finiteness check. */
  function ReplyOf(r: GeocodeProxy.Response, toNumber: string -> Option<Numeral>): Reply {
    var ok := 200 <= r.status < 300;
    match r.body
    case NoBody => NotJson
    case Location(x, y, name) => Json(ok, toNumber(x), toNumber(y), name, "", "")
    case ErrorBody(e) => Json(ok, None, None, "", "", e)
  }

  /** A response of one of the handler's shapes: 200 with a location,
      404 or 500 with an error, or the bodiless 405. */
  predicate HandlerShaped(r: GeocodeProxy.Response) {
    && r.status in {200, 404, 405, 500}
    && (r.status == 200 <==> r.body.Location?)
    && (r.status == 404 || r.status == 500 <==> r.body.ErrorBody?)
  }

  lemma ShapedReplyFails(address: string, r: GeocodeProxy.Response, toNumber: string -> Option<Numeral>)
    requires Requests(address) && HandlerShaped(r)
    ensures r.status != 200 <==> Geocode(address, ReplyOf(r, toNumber)).Failed?
    ensures r.body.ErrorBody? && r.body.error != "" ==>
              Geocode(address, ReplyOf(r, toNumber)) == Failed("KAKAOMAP_ERROR: " + r.body.error)
  {
    var reply := ReplyOf(r, toNumber);
    match r.body
    case NoBody =>
      assert reply == NotJson;
    case Location(x, y, name) =>
      assert reply.Json? && reply.ok;
    case ErrorBody(e) =>
      assert reply == Json(false, None, None, "", "", e);
  }

  /** When the proxy finds nothing (404) the page's `geocode` throws rather
      than returning `null`, and the same holds for 405 and 500. */
  lemma ProxyFailuresThrow(address: string, verb: string,
                           a: GeocodeProxy.Upstream<GeocodeProxy.AddressDoc>,
                           k: GeocodeProxy.Upstream<GeocodeProxy.KeywordDoc>,
                           toNumber: string -> Option<Numeral>)
    requires Requests(address)
    ensures var r := GeocodeProxy.Handle(verb, a, k).response;
      r.status != 200 <==> Geocode(address, ReplyOf(r, toNumber)).Failed?
    ensures var r := GeocodeProxy.Handle(verb, a, k).response;
      r.status == 404 ==> Geocode(address, ReplyOf(r, toNumber))
                          == Failed("KAKAOMAP_ERROR: " + GeocodeProxy.NotFoundMessage)
  {
    var r := GeocodeProxy.Handle(verb, a, k).response;
    assert HandlerShaped(r);
    ShapedReplyFails(address, r, toNumber);
  }

  /** A proxy hit whose coordinates parse becomes a found place labelled
      with the proxy's `address_name` (or the query, when that is empty). */
  lemma ProxyHitFound(address: string, x: string, y: string, name: string,
                      toNumber: string -> Option<Numeral>)
    requires Requests(address) && toNumber(x).Some? && toNumber(y).Some?
    ensures Geocode(address, ReplyOf(GeocodeProxy.Response(200, GeocodeProxy.Location(x, y, name)), toNumber))
         == Found(toNumber(x).value, toNumber(y).value, if name != "" then name else Trim(address), Trim(address))
  {
  }

  /** The outcome of `initCompany`: the company's place is cached, or the
      lookup failed with the message `initCompany` would show. */
  datatype CompanyInit = Ready(place: Place) | Unavailable(detail: string)

  /** `initCompany`: geocode the fixed company address; a `null` result is
      turned into an error, and every error is caught. */
  function InitCompany(reply: Reply): (r: CompanyInit)
    ensures r.Ready? <==> Geocode(CompanyAddress, reply).Found?
    ensures r.Ready? ==> r.place.name == CompanyName
    ensures r.Ready? ==>
      var g := Geocode(CompanyAddress, reply); r.place == Place(g.x, g.y, CompanyName)
  {
    match Geocode(CompanyAddress, reply)
    case Found(x, y, _, _) => Ready(Place(x, y, CompanyName))
    case NoMatch => Unavailable(CompanyNotFoundMessage)
    case Failed(m) => Unavailable(m)
  }

  /** The company lookup always sends a request. */
  lemma CompanyIsRequested()
    ensures Requests(CompanyAddress)
  {
    assert CompanyAddress[0] == '인' && !IsSpace(CompanyAddress[0]);
    assert NonSpace(CompanyAddress) != [];
    assert NonSpace(Trim(CompanyAddress)) == NonSpace(CompanyAddress);
  }

  /** What a failed `initCompany({ silent: false })` alerts: the not-found
      message for a `null` result, otherwise the thrown error's message,
      a rejected `fetch` included. */
  lemma CompanyFailureDetail(reply: Reply)
    ensures Geocode(CompanyAddress, reply).NoMatch? ==> InitCompany(reply) == Unavailable(CompanyNotFoundMessage)
    ensures reply.NetworkError? ==> InitCompany(reply) == Unavailable(reply.message)
    ensures reply.NotJson? ==> InitCompany(reply) == Unavailable(NonJsonMessage)
  {
    CompanyIsRequested();
  }
}
