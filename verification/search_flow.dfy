/** The search page's decision logic in js/mpa.js: `onSearch` (geocode the
    query, classify it, open directions and/or navigate) and the
    `nextBtn` handler (skip the map). Browser effects are data: the
    outcome records the storage written, the addresses sent to the
    geocoder, the window opened, the navigation and the alert shown. */
module SearchFlow {
  import opened Wrappers
  import opened JsString
  import opened Links
  import UriComponent
  import ServiceArea
  import NextPage
  import History
  import ClientGeocode
  import GeocodeProxy

  /** `OUTSIDE_SERVICE_PAGE`. */
  const OutsidePage := "connection.html"

  const OutsideLabel := "지역(서비스외): "
  const InsideLabel := "지역(서비스내): "
  const NextStepLabel := "다음단계 이동: "
  const SkipLabel := "지역 입력(지도 건너뜀): "
  const SkipEmptyLabel := "지도 검색 건너뜀"

  /** What `localStorage` holds for this flow: the selection history and
      the "consult_type" item. */
  datatype Browser = Browser(history: History.Stored, consultType: Option<string>)

  /** The `alert` shown, if any. */
  datatype Notice =
    | Quiet
    | AskForAddress               // empty query
    | CompanyFailed(detail: string)  // `initCompany({ silent: false })` failed
    | SearchFailed(detail: string)   // the customer lookup threw

  datatype Outcome = Outcome(
    browser: Browser,
    company: Option<Place>,      // `companyCoords` afterwards
    lookups: seq<string>,        // addresses sent to /api/geocode, in order
    newTab: Option<string>,      // `window.open(…, "_blank")`
    navigation: Option<string>,  // `location.href = …`
    notice: Notice)

  /** `getType`: the `type` URL parameter, else the stored "consult_type",
      else "" (an empty value counts as missing). */
  function TypeOf(urlType: Option<string>, stored: Option<string>): (t: string)
    ensures urlType.Some? && urlType.value != "" ==> t == urlType.value
    ensures (urlType.None? || urlType.value == "") && stored.Some? && stored.value != "" ==> t == stored.value
    ensures t == "" <==> urlType.GetOr("") == "" && stored.GetOr("") == ""
  {
    if urlType.GetOr("") != "" then urlType.value
    else if stored.GetOr("") != "" then stored.value
    else ""
  }

  /** `if (type) localStorage.setItem("consult_type", type)`. */
  function Remember(b: Browser, t: string): (r: Browser)
    ensures r.history == b.history
    ensures t != "" ==> r.consultType == Some(t)
    ensures t == "" ==> r == b
  {
    if t != "" then b.(consultType := Some(t)) else b
  }

  function Enc(s: string): string {
    UriComponent.Encode(s)
  }

  /** The out-of-area target. */
  function OutsideUrl(q: string, t: string): string {
    OutsidePage + "?q=" + Enc(q) + "&type=" + Enc(t) + "&inService=0"
  }

  /** The next-step target after the directions were opened. */
  function NextUrl(page: string, q: string, t: string): string {
    page + "?q=" + Enc(q) + "&type=" + Enc(t) + "&inService=1"
  }

  /** The `nextBtn` target. */
  function SkipUrl(page: string, q: string, t: string): string {
    if q != "" then page + "?q=" + Enc(q) + "&skipMap=1&type=" + Enc(t)
    else page + "?skipMap=1&type=" + Enc(t)
  }

  /** The text classified: `(customer?.label || "") + " " + (customer?.raw || "")`. */
  function AreaText(g: ClientGeocode.Geo): string {
    if g.Found? then g.labelText + " " + g.raw else " "
  }

  /** The company place `onSearch` works with: `companyCoords` when it is
      already set, else the outcome of `initCompany({ silent: false })`. */
  function CompanyFor(company: Option<Place>, reply: ClientGeocode.Reply): ClientGeocode.CompanyInit {
    if company.Some? then ClientGeocode.Ready(company.value) else ClientGeocode.InitCompany(reply)
  }

  /** Whether the customer lookup leads to the in-area branch. */
  predicate InArea(g: ClientGeocode.Geo) {
    g.Found? && ServiceArea.IsServiceArea(Some(AreaText(g)))
  }

  /** `onSearch`. `company` is `companyCoords` on entry; `companyReply` is
      what the company lookup gets if one is made; `customerReply` is what
      the customer lookup gets; `now` and `later` are what `Date.now()`
      gives the first and the second `pushHistory`. */
  function OnSearch(input: string, urlType: Option<string>, b: Browser, company: Option<Place>,
                    companyReply: ClientGeocode.Reply, customerReply: ClientGeocode.Reply,
                    now: int, later: int): (r: Outcome)
    // An empty query is refused and changes nothing.
    ensures Normalize(input) == "" <==> r.notice == AskForAddress
    ensures r.notice == AskForAddress ==>
              r.browser == b && r.company == company && r.lookups == [] && r.navigation.None? && r.newTab.None?
    // A cached company place is reused; otherwise the company is looked up first.
    ensures company.Some? ==> r.company == company && |r.lookups| <= 1
    ensures company.None? && Normalize(input) != "" ==> |r.lookups| > 0 && r.lookups[0] == ClientGeocode.CompanyAddress
    ensures r.company.Some? <==> company.Some? || (Normalize(input) != "" && CompanyFor(company, companyReply).Ready?)
    // The type is remembered once the query is accepted.
    ensures Normalize(input) != "" ==>
              r.browser.consultType == Remember(b, TypeOf(urlType, b.consultType)).consultType
    // The page leaves exactly when both lookups answered without error.
    ensures r.navigation.Some? <==> && Normalize(input) != ""
                                    && CompanyFor(company, companyReply).Ready?
                                    && !ClientGeocode.Geocode(Normalize(input), customerReply).Failed?
    ensures r.newTab.Some? <==> r.navigation.Some? && InArea(ClientGeocode.Geocode(Normalize(input), customerReply))
    ensures r.navigation.None? ==> r.browser.history == b.history && r.notice != Quiet
    ensures r.navigation.Some? ==> r.notice == Quiet
  {
    var q := Normalize(input);
    if q == "" then Outcome(b, company, [], None, None, AskForAddress)
    else
      var t := TypeOf(urlType, b.consultType);
      var b1 := Remember(b, t);
      var page := NextPage.NextPageFor(t);
      var companyLookups := if company.Some? then [] else [ClientGeocode.CompanyAddress];
      match CompanyFor(company, companyReply)
      case Unavailable(d) => Outcome(b1, None, companyLookups, None, None, CompanyFailed(d))
      case Ready(c) =>
        var lookups := companyLookups + [q];
        var g := ClientGeocode.Geocode(q, customerReply);
        if g.Failed? then Outcome(b1, Some(c), lookups, None, None, SearchFailed(g.message))
        else if !InArea(g) then
          var out := OutsideUrl(q, t);
          var h := History.Push(b1.history, History.Entry(OutsideLabel + q, out, now));
          Outcome(b1.(history := h), Some(c), lookups, None, Some(out), Quiet)
        else
          var route := DirectionsUrl(c, Place(g.x, g.y, g.labelText));
          var h1 := History.Push(b1.history, History.Entry(InsideLabel + q, route, now));
          var next := NextUrl(page, q, t);
          var h2 := History.Push(h1, History.Entry(NextStepLabel + q, next, later));
          Outcome(b1.(history := h2), Some(c), lookups, Some(route), Some(next), Quiet)
  }

  /** What the `nextBtn` handler leaves behind. */
  datatype Skip = Skip(browser: Browser, navigation: string)

  /** The `nextBtn` click: no map search; remember the type, record the
      step (`SAVE_NEXT_TO_HISTORY` is `true`) and go to the type's page. */
  function OnNext(input: string, urlType: Option<string>, b: Browser, now: int): (r: Skip)
    ensures r.browser.consultType == Remember(b, TypeOf(urlType, b.consultType)).consultType
    ensures var q := Normalize(input);
      r.browser.history
        == History.Push(b.history, History.Entry(if q != "" then SkipLabel + q else SkipEmptyLabel, r.navigation, now))
  {
    var q := Normalize(input);
    var t := TypeOf(urlType, b.consultType);
    var b1 := Remember(b, t);
    var url := SkipUrl(NextPage.NextPageFor(t), q, t);
    var labelText := if q != "" then SkipLabel + q else SkipEmptyLabel;
    Skip(b1.(history := History.Push(b1.history, History.Entry(labelText, url, now))), url)
  }

  /** `initCompany({ silent: true })` at page load: the place is cached when
      the lookup succeeds, and a failure is silent. */
  function PageLoad(reply: ClientGeocode.Reply): (company: Option<Place>)
    ensures company.Some? <==> ClientGeocode.Geocode(ClientGeocode.CompanyAddress, reply).Found?
    ensures company.Some? ==> company.value.name == ClientGeocode.CompanyName
    ensures company.Some? ==>
      var g := ClientGeocode.Geocode(ClientGeocode.CompanyAddress, reply);
      company.value == Place(g.x, g.y, ClientGeocode.CompanyName)
  {
    match ClientGeocode.InitCompany(reply)
    case Ready(p) => Some(p)
    case Unavailable(_) => None
  }

  // ---- the URLs read back ----

  lemma NavUrlTwo(page: string, p1: Param, p2: Param)
    ensures NavUrl(page, [p1, p2]) == page + "?" + (Field(p1) + "&" + Field(p2))
  {
    var fs := Fields([p1, p2]);
    assert fs == [Field(p1), Field(p2)];
    assert fs[1..] == [Field(p2)];
    assert Join(fs, '&') == Field(p1) + ['&'] + Field(p2);
  }

  lemma NavUrlThree(page: string, p1: Param, p2: Param, p3: Param)
    ensures NavUrl(page, [p1, p2, p3]) == page + "?" + (Field(p1) + "&" + (Field(p2) + "&" + Field(p3)))
  {
    var fs := Fields([p1, p2, p3]);
    assert fs == [Field(p1), Field(p2), Field(p3)];
    assert fs[1..] == [Field(p2), Field(p3)];
    assert fs[1..][1..] == [Field(p3)];
    assert Join(fs[1..], '&') == Field(p2) + ['&'] + Field(p3);
    assert Join(fs, '&') == Field(p1) + ['&'] + Join(fs[1..], '&');
  }

  /** Regrouping the template's concatenation into fields. */
  lemma Regroup(page: string, k1: string, e1: string, k2: string, e2: string, k3: string, e3: string)
    ensures page + "?" + (k1 + "=" + e1 + "&" + (k2 + "=" + e2 + "&" + (k3 + "=" + e3)))
         == page + ("?" + k1 + "=") + e1 + ("&" + k2 + "=") + e2 + ("&" + k3 + "=" + e3)
  {
  }

  /** The fixed text of the search templates, split at the fields. */
  lemma SearchLiterals()
    ensures "?" + "q" + "=" == "?q="
    ensures "&" + "type" + "=" == "&type="
    ensures "&" + "inService" + "=" + "0" == "&inService=0"
    ensures "&" + "inService" + "=" + "1" == "&inService=1"
  {
  }

  /** The fixed text of the `nextBtn` templates, split at the fields. */
  lemma SkipLiterals()
    ensures "?" + "q" + "=" == "?q="
    ensures "&" + "skipMap" + "=" + "1" + "&" + "type" + "=" == "&skipMap=1&type="
    ensures "?" + "skipMap" + "=" + "1" + "&" + "type" + "=" == "?skipMap=1&type="
  {
  }

  lemma EncodeFlag(s: string)
    requires s == "0" || s == "1"
    ensures Enc(s) == s
  {
    assert forall i :: 0 <= i < |s| ==> UriComponent.Unreserved(s[i]);
  }

  function SearchParams(q: string, t: string, inService: string): seq<Param> {
    [Param("q", q), Param("type", t), Param("inService", inService)]
  }

  lemma PlainKeys(ps: seq<Param>)
    requires forall i :: 0 <= i < |ps| ==> ps[i].key in {"q", "type", "inService", "skipMap"}
    ensures forall i :: 0 <= i < |ps| ==> PlainKey(ps[i].key)
  {
    assert PlainKey("q") && PlainKey("type") && PlainKey("inService") && PlainKey("skipMap");
  }

  lemma OutsideUrlIsNav(q: string, t: string)
    ensures OutsideUrl(q, t) == NavUrl(OutsidePage, SearchParams(q, t, "0"))
  {
    var ps := SearchParams(q, t, "0");
    EncodeFlag("0");
    NavUrlThree(OutsidePage, ps[0], ps[1], ps[2]);
    Regroup(OutsidePage, "q", Enc(q), "type", Enc(t), "inService", "0");
    SearchLiterals();
  }

  /** The out-of-area URL carries the query, the type and `inService=0`. */
  lemma OutsideUrlParses(q: string, t: string)
    ensures ParseNav(OutsideUrl(q, t)) == Some(Nav(OutsidePage, SearchParams(q, t, "0")))
  {
    var ps := SearchParams(q, t, "0");
    OutsideUrlIsNav(q, t);
    PlainKeys(ps);
    assert '?' !in OutsidePage;
    NavRoundTrip(OutsidePage, ps);
  }

  lemma NextUrlIsNav(page: string, q: string, t: string)
    ensures NextUrl(page, q, t) == NavUrl(page, SearchParams(q, t, "1"))
  {
    var ps := SearchParams(q, t, "1");
    EncodeFlag("1");
    NavUrlThree(page, ps[0], ps[1], ps[2]);
    Regroup(page, "q", Enc(q), "type", Enc(t), "inService", "1");
    SearchLiterals();
  }

  /** The next-step URL carries the query, the type and `inService=1`. */
  lemma NextUrlParses(page: string, q: string, t: string)
    requires '?' !in page
    ensures ParseNav(NextUrl(page, q, t)) == Some(Nav(page, SearchParams(q, t, "1")))
  {
    var ps := SearchParams(q, t, "1");
    NextUrlIsNav(page, q, t);
    PlainKeys(ps);
    NavRoundTrip(page, ps);
  }

  function SkipParams(q: string, t: string): seq<Param> {
    if q != "" then [Param("q", q), Param("skipMap", "1"), Param("type", t)]
    else [Param("skipMap", "1"), Param("type", t)]
  }

  lemma RegroupSkip(page: string, k1: string, e1: string, k2: string, e2: string, k3: string, e3: string)
    ensures page + "?" + (k1 + "=" + e1 + "&" + (k2 + "=" + e2 + "&" + (k3 + "=" + e3)))
         == page + ("?" + k1 + "=") + e1 + ("&" + k2 + "=" + e2 + "&" + k3 + "=") + e3
  {
  }

  lemma RegroupTwo(page: string, k1: string, e1: string, k2: string, e2: string)
    ensures page + "?" + (k1 + "=" + e1 + "&" + (k2 + "=" + e2))
         == page + ("?" + k1 + "=" + e1 + "&" + k2 + "=") + e2
  {
  }

  lemma SkipUrlWithQuery(page: string, q: string, t: string)
    requires q != ""
    ensures SkipUrl(page, q, t) == NavUrl(page, SkipParams(q, t))
  {
    var ps := [Param("q", q), Param("skipMap", "1"), Param("type", t)];
    assert SkipParams(q, t) == ps;
    EncodeFlag("1");
    NavUrlThree(page, ps[0], ps[1], ps[2]);
    RegroupSkip(page, "q", Enc(q), "skipMap", "1", "type", Enc(t));
    SkipLiterals();
  }

  lemma SkipUrlWithoutQuery(page: string, t: string)
    ensures SkipUrl(page, "", t) == NavUrl(page, SkipParams("", t))
  {
    var ps := [Param("skipMap", "1"), Param("type", t)];
    assert SkipParams("", t) == ps;
    EncodeFlag("1");
    NavUrlTwo(page, ps[0], ps[1]);
    RegroupTwo(page, "skipMap", "1", "type", Enc(t));
    SkipLiterals();
  }

  /** The `nextBtn` URL carries the query (when there is one), `skipMap=1`
      and the type. */
  lemma SkipUrlParses(page: string, q: string, t: string)
    requires '?' !in page
    ensures ParseNav(SkipUrl(page, q, t)) == Some(Nav(page, SkipParams(q, t)))
  {
    var ps := SkipParams(q, t);
    if q != "" {
      SkipUrlWithQuery(page, q, t);
    } else {
      SkipUrlWithoutQuery(page, t);
    }
    PlainKeys(ps);
    NavRoundTrip(page, ps);
  }

  // ---- the branches of a search ----

  /** Out of the service area (no match, or a match outside it): no new
      tab, one history entry, and a move to the out-of-service page with
      the query, the type and `inService=0`. */
  lemma OutOfAreaLeaves(input: string, urlType: Option<string>, b: Browser, company: Option<Place>,
                        companyReply: ClientGeocode.Reply, customerReply: ClientGeocode.Reply, now: int, later: int)
    requires Normalize(input) != "" && CompanyFor(company, companyReply).Ready?
    requires var g := ClientGeocode.Geocode(Normalize(input), customerReply);
      !g.Failed? && !InArea(g)
    ensures var q := Normalize(input);
      var t := TypeOf(urlType, b.consultType);
      var r := OnSearch(input, urlType, b, company, companyReply, customerReply, now, later);
      && r.newTab.None? && r.navigation.Some?
      && ParseNav(r.navigation.value) == Some(Nav(OutsidePage, SearchParams(q, t, "0")))
      && r.browser.history == History.Push(b.history, History.Entry(OutsideLabel + q, r.navigation.value, now))
  {
    OutsideUrlParses(Normalize(input), TypeOf(urlType, b.consultType));
  }

  /** In the service area: the directions open in a new tab from the
      company to the customer's coordinates and label, two history entries
      are written (directions, then next step), and the page moves to the
      type's next page with `inService=1`. */
  lemma InAreaOpensRoute(input: string, urlType: Option<string>, b: Browser, company: Option<Place>,
                         companyReply: ClientGeocode.Reply, customerReply: ClientGeocode.Reply, now: int, later: int)
    requires Normalize(input) != "" && CompanyFor(company, companyReply).Ready?
    requires InArea(ClientGeocode.Geocode(Normalize(input), customerReply))
    ensures var q := Normalize(input);
      var t := TypeOf(urlType, b.consultType);
      var c := CompanyFor(company, companyReply).place;
      var g := ClientGeocode.Geocode(q, customerReply);
      var r := OnSearch(input, urlType, b, company, companyReply, customerReply, now, later);
      && r.newTab.Some? && r.navigation.Some?
      && ParseDirections(r.newTab.value)
         == Some((Stop(c.x, c.y, SafeText(c.name)), Stop(g.x, g.y, SafeText(g.labelText))))
      && ParseNav(r.navigation.value) == Some(Nav(NextPage.NextPageFor(t), SearchParams(q, t, "1")))
      && r.browser.history
         == History.Push(History.Push(b.history, History.Entry(InsideLabel + q, r.newTab.value, now)),
                         History.Entry(NextStepLabel + q, r.navigation.value, later))
  {
    var q := Normalize(input);
    var t := TypeOf(urlType, b.consultType);
    var c := CompanyFor(company, companyReply).place;
    var g := ClientGeocode.Geocode(q, customerReply);
    DirectionsRoundTrip(c, Place(g.x, g.y, g.labelText));
    NextUrlParses(NextPage.NextPageFor(t), q, t);
  }

  /** The history part of `InAreaOpensRoute` on its own: the two pushes,
      without the URL parses, which `InAreaHistory` does not need and which
      would make its proof much more expensive. */
  lemma InAreaSteps(input: string, urlType: Option<string>, b: Browser, company: Option<Place>,
                    companyReply: ClientGeocode.Reply, customerReply: ClientGeocode.Reply, now: int, later: int)
    requires Normalize(input) != "" && CompanyFor(company, companyReply).Ready?
    requires InArea(ClientGeocode.Geocode(Normalize(input), customerReply))
    ensures var r := OnSearch(input, urlType, b, company, companyReply, customerReply, now, later);
      && r.newTab.Some? && r.navigation.Some?
      && r.browser.history
         == History.Push(History.Push(b.history, History.Entry(InsideLabel + Normalize(input), r.newTab.value, now)),
                         History.Entry(NextStepLabel + Normalize(input), r.navigation.value, later))
  {
  }

  /** After an in-area search the stored log ends with the directions
      entry followed by the next-step entry, unless the stored value was
      one `pushHistory` leaves alone. */
  lemma InAreaHistory(input: string, urlType: Option<string>, b: Browser, company: Option<Place>,
                      companyReply: ClientGeocode.Reply, customerReply: ClientGeocode.Reply, now: int, later: int)
    requires Normalize(input) != "" && CompanyFor(company, companyReply).Ready?
    requires InArea(ClientGeocode.Geocode(Normalize(input), customerReply))
    requires b.history != History.Unparsable && b.history != History.OtherValue(true)
    ensures var r := OnSearch(input, urlType, b, company, companyReply, customerReply, now, later);
      var items := History.Load(r.browser.history);
      && r.newTab.Some? && r.navigation.Some? && |items| >= 2
      && items[|items| - 2] == History.Entry(InsideLabel + Normalize(input), r.newTab.value, now)
      && items[|items| - 1] == History.Entry(NextStepLabel + Normalize(input), r.navigation.value, later)
  {
    var q := Normalize(input);
    var r := OnSearch(input, urlType, b, company, companyReply, customerReply, now, later);
    InAreaSteps(input, urlType, b, company, companyReply, customerReply, now, later);
    var e1 := History.Entry(InsideLabel + q, r.newTab.value, now);
    var e2 := History.Entry(NextStepLabel + q, r.navigation.value, later);
    var h := r.browser.history;
    assert h == History.Push(History.Push(b.history, e1), e2);
    History.PushTwice(b.history, e1, e2);
  }

  /** A normalized, non-empty query is always sent to the geocoder. */
  lemma QueryIsRequested(input: string)
    requires Normalize(input) != ""
    ensures ClientGeocode.Requests(Normalize(input))
  {
    var q := Normalize(input);
    assert NonSpace(q) != [];
    assert NonSpace(Trim(q)) == NonSpace(q);
  }

  /** A proxy answer other than 200 (the 404 for "nothing found"
      included) makes the page's lookup throw: the search stops with an
      error alert, and the page neither opens a tab nor navigates nor
      records anything. */
  lemma ProxyFailureStays(input: string, urlType: Option<string>, b: Browser, company: Option<Place>,
                          companyReply: ClientGeocode.Reply, verb: string,
                          a: GeocodeProxy.Upstream<GeocodeProxy.AddressDoc>,
                          k: GeocodeProxy.Upstream<GeocodeProxy.KeywordDoc>,
                          toNumber: string -> Option<Numeral>, now: int, later: int)
    requires Normalize(input) != "" && CompanyFor(company, companyReply).Ready?
    requires GeocodeProxy.Handle(verb, a, k).response.status != 200
    ensures var reply := ClientGeocode.ReplyOf(GeocodeProxy.Handle(verb, a, k).response, toNumber);
      var r := OnSearch(input, urlType, b, company, companyReply, reply, now, later);
      && r.navigation.None? && r.newTab.None? && r.browser.history == b.history
      && r.notice.SearchFailed?
      && (GeocodeProxy.Handle(verb, a, k).response.status == 404 ==>
            r.notice == SearchFailed("KAKAOMAP_ERROR: " + GeocodeProxy.NotFoundMessage))
  {
    QueryIsRequested(input);
    ClientGeocode.ProxyFailuresThrow(Normalize(input), verb, a, k, toNumber);
  }

  /** The company lookup failing stops the search after that lookup alone. */
  lemma CompanyFailureStops(input: string, urlType: Option<string>, b: Browser,
                            companyReply: ClientGeocode.Reply, customerReply: ClientGeocode.Reply, now: int, later: int)
    requires Normalize(input) != ""
    requires !ClientGeocode.Geocode(ClientGeocode.CompanyAddress, companyReply).Found?
    ensures var r := OnSearch(input, urlType, b, None, companyReply, customerReply, now, later);
      && r.lookups == [ClientGeocode.CompanyAddress]
      && r.company.None? && r.navigation.None? && r.newTab.None?
      && r.browser.history == b.history
      && r.notice.CompanyFailed?
  {
  }

  /** The `nextBtn` click always leaves for the type's page with
      `skipMap=1`, carrying the query when there is one. */
  lemma OnNextLeaves(input: string, urlType: Option<string>, b: Browser, now: int)
    ensures var t := TypeOf(urlType, b.consultType);
      ParseNav(OnNext(input, urlType, b, now).navigation)
        == Some(Nav(NextPage.NextPageFor(t), SkipParams(Normalize(input), t)))
  {
    var t := TypeOf(urlType, b.consultType);
    SkipUrlParses(NextPage.NextPageFor(t), Normalize(input), t);
  }

  // ---- the next page as the code is written ----

  /** The `nextBtn` URL the code as written builds takes the lookup's text
      as its page; it is the URL `OnNext` navigates to exactly when the
      type is not the name of an `Object.prototype` member. */
  lemma NextBtnAsWritten(input: string, urlType: Option<string>, b: Browser, now: int)
    ensures var q := Normalize(input);
      var t := TypeOf(urlType, b.consultType);
      var asWritten := SkipUrl(NextPage.NextPageText(t), q, t);
      && ParseNav(asWritten) == Some(Nav(NextPage.NextPageText(t), SkipParams(q, t)))
      && (asWritten == OnNext(input, urlType, b, now).navigation <==> t !in NextPage.InheritedMembers)
  {
    var q := Normalize(input);
    var t := TypeOf(urlType, b.consultType);
    SkipUrlParses(NextPage.NextPageText(t), q, t);
    SkipUrlParses(NextPage.NextPageFor(t), q, t);
  }

  /** Likewise for the next-step URL of an in-area search. */
  lemma NextStepAsWritten(q: string, t: string)
    ensures var asWritten := NextUrl(NextPage.NextPageText(t), q, t);
      && ParseNav(asWritten) == Some(Nav(NextPage.NextPageText(t), SearchParams(q, t, "1")))
      && (asWritten == NextUrl(NextPage.NextPageFor(t), q, t) <==> t !in NextPage.InheritedMembers)
  {
    NextUrlParses(NextPage.NextPageText(t), q, t);
    NextUrlParses(NextPage.NextPageFor(t), q, t);
  }

  /** `?type=toString`: the code as written leaves for the text of
      `Object.prototype.toString`, the model for the default page. */
  lemma ToStringTypeAsWritten(input: string, b: Browser, now: int)
    ensures var q := Normalize(input);
      && ParseNav(SkipUrl(NextPage.NextPageText("toString"), q, "toString"))
         == Some(Nav("function toString() { [native code] }", SkipParams(q, "toString")))
      && ParseNav(OnNext(input, Some("toString"), b, now).navigation)
         == Some(Nav(NextPage.DefaultPage, SkipParams(q, "toString")))
  {
    var t := "toString";
    assert TypeOf(Some(t), b.consultType) == t;
    NextPage.ToStringText();
    SkipUrlParses(NextPage.NextPageText(t), Normalize(input), t);
    OnNextLeaves(input, Some(t), b, now);
  }
}
