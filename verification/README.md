# Sundoo Energy consultation flow, modelled in Dafny

This project models the decision logic behind the Sundoo Energy
consultation pages:

- **Search page.** A customer types a region or an address. The page
  normalizes the query and geocodes it through the site's `/api/geocode`
  proxy. It then checks the place against the 21 service-area keywords.
  - Inside the area, it opens Naver directions from the company to the
    customer in a new tab, then moves on to the consultation type's
    installation page.
  - Outside the area, it moves to the out-of-service page.
  - The "next" button skips the map and goes straight to the
    installation page.
- **Geocode proxy** (`api/geocode.js`). It tries Kakao's address search,
  then Kakao's keyword search, and answers 200, 404, 405 or 500.
- **Selection history.** Both scripts write it. It is a JSON array of
  `{label, url, ts}` entries under one storage key, capped at the 30 most
  recent. `js/app.js` loads it, appends to it on a card click, clears it,
  and renders it newest first with `yyyy-mm-dd hh:mi` times.

Browser effects are data. `localStorage` is the value held under each
key. An outcome records:
- the storage written;
- the addresses sent to the geocoder;
- the tab opened;
- the navigation;
- the alert.

What `fetch` returned, what `Date.now()` returned and how a timestamp
splits into date fields are all parameters.

Modules:

| module | file | what it holds |
|---|---|---|
| `Wrappers` | `wrappers.dfy` | the `Option` type |
| `JsString` | `js_string.dfy` | `trim`, the `\s` class, `normalize`, `includes`, `split`/`join`, `replace` |
| `UriComponent` | `uri_component.dfy` | `encodeURIComponent` over UTF-8, and a decoder that inverts it |
| `Links` | `links.dfy` | the page URLs with their query strings, and the directions URL, each with a parser |
| `ServiceArea` | `service_area.dfy` | the keyword list and `isServiceAreaByAddressName` |
| `NextPage` | `next_page.dfy` | the type → page table, both as written and as intended |
| `History` | `history.dfy` | the stored value, the two writers, clearing, rendering and `formatTime` |
| `GeocodeProxy` | `geocode_proxy.dfy` | the serverless handler |
| `ClientGeocode` | `client_geocode.dfy` | the page's `geocode` and `initCompany` |
| `SearchFlow` | `search_flow.dfy` | `onSearch`, the next-button handler, and the lookup at page load |

## Model

| member | source | states |
|---|---|---|
| ServiceArea.IsServiceArea | js/mpa.js:2-17 | true exactly when one of the 21 keywords occurs in the text, where a missing value reads as ""; a missing or empty text is never in the area |
| ServiceArea.Monotone | js/mpa.js:14-17 | adding text before or after an in-area text keeps it in the area |
| ServiceArea.KeywordMakesInArea | js/mpa.js:2-17 | any text that ends with a keyword is in the area |
| ServiceArea.NoLeadLetterOutside | js/mpa.js:2-17 | a text that contains no keyword's first letter is outside the area |
| ServiceArea.CompanyAddressInArea | js/mpa.js:2-17 | the company's own address, from `COMPANY` at js/mpa.js:74-77, is in the area |
| ServiceArea.JejuOutside | js/mpa.js:2-17 | a Jeju address is outside the area |
| JsString.Normalize | js/mpa.js:81-84 | the result is in normal form (no space at either end, no two spaces in a row, no whitespace other than U+0020); it keeps exactly the input's non-space characters in order; it is empty exactly when the input is all whitespace |
| JsString.NormalizeFixpoint | js/mpa.js:81-84 | `normalize` leaves a text unchanged exactly when the text is already in normal form |
| JsString.NormalizeIdempotent | js/mpa.js:81-84 | normalizing twice gives the same as normalizing once |
| JsString.Trim | js/mpa.js:83 | `trim` gives a contiguous part of the input with only whitespace before and after it, starting and ending with no whitespace, so every non-space character stays in order and nothing inside moves |
| JsString.CollapseShape | js/mpa.js:84 | after `replace(/\s+/g, " ")` there are no two spaces in a row and no whitespace but U+0020; the non-space characters are kept in order; the text starts or ends with a space exactly when the input did, and is empty only when the input is |
| JsString.CollapseAppend | js/mpa.js:84 | the replacement works run by run: cutting the text anywhere except inside a whitespace run cuts the result at the same place |
| JsString.CollapseRun | js/mpa.js:84 | a whitespace run of any length and kind becomes exactly one plain space |
| JsString.CollapseWord | js/mpa.js:84 | a text without whitespace is left unchanged |
| JsString.CollapseWordsApart | js/mpa.js:84 | two texts separated by a whitespace run are collapsed each on its own and joined by exactly one space, so words are never glued together |
| JsString.CollapseNormal | js/mpa.js:84 | a text with single plain spaces only is left unchanged |
| JsString.NormalizeWordsApart | js/mpa.js:81-84 | `normalize` of two non-empty texts separated by whitespace (the first not ending in it, the second not starting with it) is the two texts normalized apart and joined by one space |
| Links.SafeText | js/mpa.js:86-91 | the text `safeName` encodes holds no comma and starts and ends with no space; it is the name with commas turned into spaces and then only its whitespace ends removed, so every other character stays in order; a comma-free name is only trimmed |
| UriComponent.Encode | js/mpa.js:86-91 | every output character is unreserved or `%`; an all-unreserved text passes through unchanged |
| UriComponent.DecodeEncode | js/mpa.js:86-91 | decoding `encodeURIComponent`'s output gives back the original text |
| UriComponent.EncodeInjective | js/mpa.js:86-91 | two different texts never share an encoding |
| Links.DirectionsRoundTrip | js/mpa.js:140-144 | parsing the directions URL back gives the start first and the goal second, each with its coordinates and its comma-free, trimmed name |
| Links.NavRoundTrip | js/mpa.js:185-187 | a `page?key=value&…` URL whose values are percent-encoded parses back to the page and the same key/value list, in order |
| NextPage.NextPageFor | js/mpa.js:51-65 | the intended lookup: each of the six types gets `installation_<type>.html`; every other type, "" included, gets `installation_gas2.html` |
| NextPage.NextPageAsWritten | js/mpa.js:63-65 | the lookup as written gives an inherited `Object.prototype` member exactly for the twelve inherited names |
| NextPage.InheritedTypeSkipsDefault | js/mpa.js:63-65 | for `type=toString`, the code as written returns the inherited method, and the intended lookup returns the default page |
| NextPage.NextPageText | js/mpa.js:63-65 | the page text the code puts into a URL equals the intended page exactly when the type is not an inherited name; it never contains `?` |
| NextPage.ToStringText | js/mpa.js:63-65 | for `type=toString`, the code as written puts `function toString() { [native code] }` where the page name belongs |
| NextPage.AsWrittenAgrees | js/mpa.js:63-65 | outside the inherited names, the code as written and the intended lookup agree |
| GeocodeProxy.Handle | api/geocode.js:1-55 | the status is one of 200, 404, 405 and 500; 200 has a location body; 404 and 500 have their fixed error messages; anything but GET makes no upstream search; a GET searches addresses first, and searches keywords only as a second step |
| GeocodeProxy.OnlyGet | api/geocode.js:2 | a method other than GET gives a bodiless 405 and makes no search |
| GeocodeProxy.AddressHitWins | api/geocode.js:20-26 | an address hit answers 200 with the first document, and the keyword search is never made |
| GeocodeProxy.FirstCandidate | api/geocode.js:19-51 | the answer is the first of the address hits followed by the keyword hits, with the place name as the label; it is 404 exactly when there is no hit at all |
| GeocodeProxy.ThrowGives500 | api/geocode.js:7-54 | an exception in a search step that is reached gives 500 with the server-error message |
| ClientGeocode.Geocode | js/mpa.js:109-138 | a blank address gives null and sends no request; the call throws exactly when a request is made and the reply is not a successful JSON reply; a rejected `fetch` rethrows its own error; a found place has the reply's coordinates and the trimmed query as `raw`; its label is `address_name`, or the query when the name is empty |
| ClientGeocode.ProxyFailuresThrow | js/mpa.js:123-126 | every proxy status other than 200 makes `geocode` throw; a 404 throws `KAKAOMAP_ERROR:` followed by the proxy's not-found message, never null |
| ClientGeocode.ProxyHitFound | js/mpa.js:128-137 | a 200 proxy hit with finite coordinates becomes a found place labelled with the proxy's `address_name`, or with the query |
| ClientGeocode.InitCompany | js/mpa.js:146-164 | the company place is cached exactly when the company address is found, and it holds the found coordinates with the company name |
| ClientGeocode.CompanyFailureDetail | js/mpa.js:146-164 | a null company lookup fails with `COMPANY_GEOCODE_NOT_FOUND`; a rejected `fetch` fails with its own error's message; a non-JSON reply fails with `GEOCODE_NON_JSON_RESPONSE` |
| History.Load | js/app.js:21-28 | a stored array loads as itself, and anything else (absent, unparsable, not an array) as `[]` |
| History.Save | js/app.js:30-32 | what is saved loads back unchanged |
| History.Push | js/mpa.js:166-173 | an array gains the entry and keeps its last 30; an absent or falsy value becomes `[entry]`; an unparsable or truthy non-array value makes the write throw, the throw is swallowed, and storage is left as it was |
| History.PushTwice | js/mpa.js:166-173 | unless the stored value is unparsable or a truthy non-array (which `pushHistory` leaves alone), after two pushes the log ends with the first entry followed by the second |
| History.WritersAgreeOnArrays | js/mpa.js:166-173 | `pushHistory` and the card click write the same thing, except on an unparsable or truthy non-array value: there `pushHistory` leaves storage as it was and the card click starts a fresh log |
| History.RecordClick | js/app.js:83-87 | the card click appends the entry to the tolerantly loaded log and keeps its last 30 |
| History.RecordClickBounded | js/app.js:83-87 | after a card click, the log holds at most 30 entries and ends with the clicked entry |
| History.WritesStayBounded | js/app.js:83-87 | whatever was stored, the log holds at most 30 entries after either writer, and a click's entry is the last one |
| History.Append | js/app.js:83-87 | appending keeps the most recent 30 entries, in order, and the new entry comes last |
| History.AppendBelowCap | js/app.js:84-87 | below 30 entries, nothing is evicted |
| History.AppendAtCap | js/app.js:84-87 | at 30 entries, exactly the oldest one is evicted |
| History.AppendAllKeepsLast | js/app.js:84-87 | any non-empty run of appends leaves the last 30 of the old log and the new entries taken together, in order |
| History.ThirtyOneAppends | js/app.js:84-87 | 31 appends to an empty log drop the first entry, and the 31st entry comes last |
| History.Clear | js/app.js:70-75 | after a clear, the log loads as empty |
| History.Render | js/app.js:44-67 | one row per stored entry, newest first: row `i` shows entry `n-1-i` |
| History.RenderAfterClick | js/app.js:44-90 | after a card click, the clicked entry is rendered first, followed by the previous rows minus any evicted oldest one |
| History.FormatTimeRoundTrip | js/app.js:34-42 | `yyyy-mm-dd hh:mi` loses nothing: the year, the one-based zero-padded month, the day, the hour and the minute read back as the date fields |
| History.Pad2Shape | js/app.js:37-40 | `padStart(2, "0")` of a value below 100 is exactly two digits and reads back as that value |
| History.DigitsRoundTrip | js/app.js:36 | the decimal text of a natural number reads back as the number |
| SearchFlow.TypeOf | js/mpa.js:42-48 | the URL's `type` wins when it is non-empty; otherwise the stored type is used; the result is "" exactly when both are missing or empty |
| SearchFlow.Remember | js/mpa.js:201-202 | a non-empty type is stored under "consult_type", and an empty one changes nothing |
| SearchFlow.OnSearch | js/mpa.js:197-246 | an empty query alerts and changes nothing; a cached company place is reused, otherwise the company is looked up first; the page leaves exactly when the company is known and the customer lookup did not throw; a tab opens exactly when it leaves and the place is in the area; a search that does not leave writes no history and always alerts |
| SearchFlow.OutOfAreaLeaves | js/mpa.js:213-223 | no match, or a match outside the area: no tab, one history entry, and a move to `connection.html` with the query, the type and `inService=0` |
| SearchFlow.InAreaOpensRoute | js/mpa.js:225-237 | in the area: the tab shows directions from the company to the customer's place and label; two entries are written, directions first and then the next step, each with its own timestamp; the page moves to the type's page with `inService=1` |
| SearchFlow.InAreaHistory | js/mpa.js:225-237 | after an in-area search, unless the stored value is unparsable or a truthy non-array, the stored log ends with the directions entry stamped `now` followed by the next-step entry stamped `later` |
| SearchFlow.ProxyFailureStays | js/mpa.js:212-242 | any proxy status other than 200, a 404 included, stops the search with an error alert: no tab, no navigation and no history |
| SearchFlow.CompanyFailureStops | js/mpa.js:206-209 | when the company lookup fails, the search stops after that one lookup, opens and navigates nowhere, and writes no history |
| SearchFlow.QueryIsRequested | js/mpa.js:109-114 | a non-empty normalized query is always sent to the geocoder |
| SearchFlow.OnNext | js/mpa.js:176-195 | the next button stores the type and writes one history entry whose url is where it navigates: "지역 입력(지도 건너뜀): q", or "지도 검색 건너뜀" when the query is empty |
| SearchFlow.OnNextLeaves | js/mpa.js:183-193 | the next button's URL parses to the type's page with the query (when there is one), `skipMap=1` and the type |
| SearchFlow.NextBtnAsWritten | js/mpa.js:183-187 | the next-button URL the code as written builds parses to the lookup's text as its page; it equals the model's URL exactly when the type is not an inherited name |
| SearchFlow.NextStepAsWritten | js/mpa.js:233-234 | the same holds for the next-step URL of an in-area search |
| SearchFlow.ToStringTypeAsWritten | js/mpa.js:183-193 | for `type=toString`, the code as written navigates to `function toString() { [native code] }?…`, and the model navigates to the default page |
| SearchFlow.PageLoad | js/mpa.js:260 | the silent page-load lookup caches the company place exactly when the company address is found, holding the found coordinates with the company name, and a failure is silent |

## Left out

- The DOM: `setBusy`, the button texts, the event listeners, the
  `prevBtn` handler, the page fade-in and the alert texts beyond their
  detail message. `js/tandex.js` is not part of this model.
- `fetch` itself and the Kakao API. An upstream or proxy answer is an
  input. The Kakao key, the `Authorization` header and how `URL` and
  `URLSearchParams` encode the query are not modelled.
- Number parsing and formatting. A coordinate is opaque numeral text. On
  the page, `Number(...)` with the finiteness check is a parameter.
- Date conversion. `new Date(ts)` split into year, month, day, hour and
  minute is a parameter of rendering, and `formatTime` works on those
  fields. `toISOString` is not modelled.
- The history panel's presence check at js/app.js:19, and the commented-out
  automatic record at js/app.js:94-101.
- SearchFlow.OnSearch: the page-load `initCompany` (js/mpa.js:260) and a
  submission's own `initCompany` (js/mpa.js:206-208) can run at the same
  time. The input is only disabled at js/mpa.js:211, so a second
  submission can start meanwhile. The model runs one submission at a
  time, with `companyCoords` fixed on entry, so duplicate lookups and
  interleaved history writes are not modelled.
- SearchFlow.OnSearch and SearchFlow.OnNext: they use the intended
  next-page lookup `NextPage.NextPageFor`, not the code as written. For a
  type named after an `Object.prototype` member, the code navigates to
  the member's text (see "## Findings"). `NextBtnAsWritten`,
  `NextStepAsWritten` and `ToStringTypeAsWritten` state what the code as
  written does instead.
- History.Load and History.Render: a stored array is assumed to hold
  entries. `loadHistory` accepts any JSON array. An element without a
  valid `ts` makes `new Date(item.ts).toISOString()` (js/app.js:61) throw
  a RangeError, which stops the rendering midway. `Render` promises one
  row per entry, so it covers only arrays of well-formed entries.
- History.RecordClick and History.Push: `setItem` is assumed to succeed.
  A quota error in `saveHistory` (js/app.js:31) would abort the card
  click before it navigates, while `pushHistory` swallows the same error
  (js/mpa.js:171-172).
- UriComponent.Encode: Dafny strings hold Unicode scalar values only, so
  the `URIError` that `encodeURIComponent` throws on a lone surrogate
  (js/mpa.js:87, 113, 218, 234) cannot arise in the model.
- On "nothing found" the page does not go to the out-of-service page.
  The proxy answers 404 when neither search finds anything. On the page,
  `res.ok` is false for a 404, so `geocode` throws (js/mpa.js:123-126).
  The search then alerts and stays on the page. The model follows the code (`ProxyFailureStays`).
  The out-of-area branch is reached only through a 200 reply without
  finite coordinates, or through a found place outside the area.
- The page has no fallback for a blocked pop-up. It calls
  `window.open` once (js/mpa.js:230), and the model records that one tab.

## Findings

| source | as written | input that shows it | evidently intended | confidence | as-written member | corrected member |
|---|---|---|---|---|---|---|
| js/mpa.js:63-65 | `NEXT_PAGE_BY_TYPE[type] \|\| DEFAULT_NEXT_PAGE` does bracket lookup on a plain object literal, so it also finds the inherited `Object.prototype` members. Those are truthy functions or objects, so the default is never used for them. | `?type=toString`: the next button goes to `function toString() { [native code] }?skipMap=1&type=toString` | unknown types, the names of inherited members included, get `installation_gas2.html` | not executed; high | NextPage.NextPageAsWritten, with NextPage.InheritedTypeSkipsDefault and SearchFlow.ToStringTypeAsWritten | NextPage.NextPageFor |
