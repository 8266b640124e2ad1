/** The serverless handler of api/geocode.js: an address search, then a
    keyword search only when the first finds nothing. The two upstream
    replies are inputs; the handler's result is the one response it sends
    and the list of upstream searches it made. */
module GeocodeProxy {
  import opened Wrappers

  /** A hit of the address search (`address.json`). */
  datatype AddressDoc = AddressDoc(x: string, y: string, addressName: string)

  /** A hit of the keyword search (`keyword.json`). */
  datatype KeywordDoc = KeywordDoc(x: string, y: string, placeName: string)

  /** What one upstream step ends with: it threw (the request failed, the
      body was not JSON, or the body was `null`), or it produced a JSON
      object whose `documents` field is a list or absent. */
  datatype Upstream<D> = Threw | Answered(documents: Option<seq<D>>)

  datatype Search = AddressSearch | KeywordSearch

  datatype Body =
    | NoBody                                               // `res.status(405).end()`
    | Location(x: string, y: string, addressName: string)  // `{x, y, address_name}`
    | ErrorBody(error: string)                             // `{error}`

  datatype Response = Response(status: int, body: Body)

  /** The response sent and the upstream searches made, in order. */
  datatype Exchange = Exchange(response: Response, searches: seq<Search>)

  const NotFoundMessage := "검색 결과가 없습니다. 주소를 더 정확히 입력해주세요."
  const ServerErrorMessage := "서버 에러가 발생했습니다."

  /** The first document, when `documents` is present and non-empty. */
  function FirstDoc<D>(u: Upstream<D>): Option<D>
    requires u.Answered?
  {
    match u.documents
    case Some(ds) => if |ds| > 0 then Some(ds[0]) else None
    case None => None
  }

  /** `handler(req, res)`. */
  function Handle(verb: string, address: Upstream<AddressDoc>, keyword: Upstream<KeywordDoc>): (ex: Exchange)
    ensures ex.response.status in {200, 404, 405, 500}
    ensures ex.response.status == 200 <==> ex.response.body.Location?
    ensures ex.response.status == 404 || ex.response.status == 500 <==> ex.response.body.ErrorBody?
    ensures ex.response.status == 404 ==> ex.response.body.error == NotFoundMessage
    ensures ex.response.status == 500 ==> ex.response.body.error == ServerErrorMessage
    ensures verb != "GET" <==> ex.searches == []
    ensures verb == "GET" ==> ex.searches[0] == AddressSearch
    ensures KeywordSearch in ex.searches <==> ex.searches == [AddressSearch, KeywordSearch]
  {
    if verb != "GET" then Exchange(Response(405, NoBody), [])
    else if address.Threw? then Exchange(Response(500, ErrorBody(ServerErrorMessage)), [AddressSearch])
    else
      match FirstDoc(address)
      case Some(d) => Exchange(Response(200, Location(d.x, d.y, d.addressName)), [AddressSearch])
      case None =>
        var both := [AddressSearch, KeywordSearch];
        if keyword.Threw? then Exchange(Response(500, ErrorBody(ServerErrorMessage)), both)
        else
          match FirstDoc(keyword)
          case Some(d) => Exchange(Response(200, Location(d.x, d.y, d.placeName)), both)
          case None => Exchange(Response(404, ErrorBody(NotFoundMessage)), both)
  }

  /** A method other than GET is refused with 405 before any upstream call. */
  lemma OnlyGet(verb: string, address: Upstream<AddressDoc>, keyword: Upstream<KeywordDoc>)
    requires verb != "GET"
    ensures Handle(verb, address, keyword) == Exchange(Response(405, NoBody), [])
  {
  }

  /** An address hit answers with the first address document and the
      keyword search is never made, whatever it would have returned. */
  lemma AddressHitWins(address: seq<AddressDoc>, keyword: Upstream<KeywordDoc>)
    requires |address| > 0
    ensures var ex := Handle("GET", Answered(Some(address)), keyword);
      && ex.response == Response(200, Location(address[0].x, address[0].y, address[0].addressName))
      && ex.searches == [AddressSearch]
  {
  }

  /** The two-tier choice as one list: the answer is the first element of
      the address hits followed by the keyword hits (place name as the
      label), and 404 exactly when that list is empty. */
  function Candidates(address: Option<seq<AddressDoc>>, keyword: Option<seq<KeywordDoc>>): seq<Body> {
    var a := address.GetOr([]);
    var k := keyword.GetOr([]);
    seq(|a|, i requires 0 <= i < |a| => Location(a[i].x, a[i].y, a[i].addressName))
      + seq(|k|, i requires 0 <= i < |k| => Location(k[i].x, k[i].y, k[i].placeName))
  }

  lemma FirstCandidate(address: Option<seq<AddressDoc>>, keyword: Option<seq<KeywordDoc>>)
    ensures var c := Candidates(address, keyword);
      var r := Handle("GET", Answered(address), Answered(keyword)).response;
      && (c == [] <==> r == Response(404, ErrorBody(NotFoundMessage)))
      && (c != [] ==> r == Response(200, c[0]))
  {
    var a := address.GetOr([]);
    var k := keyword.GetOr([]);
    var c := Candidates(address, keyword);
    if |a| > 0 {
      assert c[0] == Location(a[0].x, a[0].y, a[0].addressName);
    } else if |k| > 0 {
      assert c[0] == Location(k[0].x, k[0].y, k[0].placeName);
    }
  }

  /** Any exception in either upstream step gives 500 and never 200 or 404. */
  lemma ThrowGives500(address: Upstream<AddressDoc>, keyword: Upstream<KeywordDoc>)
    requires address.Threw? || (FirstDoc(address).None? && keyword.Threw?)
    ensures Handle("GET", address, keyword).response == Response(500, ErrorBody(ServerErrorMessage))
  {
  }
}
