/** The two kinds of URL the search flow produces: page navigations with a
    query string (`page?key=value&…`, values through `encodeURIComponent`),
    and the Naver Map driving-directions link of `buildDirectionsUrl`.
    Each builder has a parser, and the round-trip lemmas say the parser
    recovers exactly what was put in. */
module Links {
  import opened Wrappers
  import opened JsString
  import UriComponent

  /** A character of JavaScript's rendering of a finite number
      (`126.6756`, `-3`, `1e+21`). */
  predicate NumeralChar(c: char) {
    ('0' <= c <= '9') || c == '.' || c == '-' || c == '+' || c == 'e'
  }

  /** A coordinate as it appears in a template literal. How JavaScript turns
      a double into this text is not modelled; only its alphabet matters. */
  type Numeral = s: string | |s| > 0 && forall i :: 0 <= i < |s| ==> NumeralChar(s[i])
    witness "0"

  /** One end of a route: coordinates and a display name. */
  datatype Place = Place(x: Numeral, y: Numeral, name: string)

  datatype Param = Param(key: string, value: string)

  /** A navigation target: page and decoded query parameters, in order. */
  datatype Nav = Nav(page: string, params: seq<Param>)

  /** A key written literally into a URL (`q`, `type`, `inService`, …). */
  predicate PlainKey(k: string) {
    '?' !in k && '&' !in k && '=' !in k
  }

  lemma EncodedAvoids(s: string)
    ensures var e := UriComponent.Encode(s);
      '?' !in e && '&' !in e && '=' !in e && '/' !in e && ',' !in e
  {
    var e := UriComponent.Encode(s);
    forall i | 0 <= i < |e|
      ensures e[i] != '?' && e[i] != '&' && e[i] != '=' && e[i] != '/' && e[i] != ','
    {
      assert UriComponent.Encoded(e[i]);
    }
  }

  function Field(p: Param): string {
    p.key + "=" + UriComponent.Encode(p.value)
  }

  function Fields(ps: seq<Param>): (r: seq<string>)
    ensures |r| == |ps|
    ensures forall i :: 0 <= i < |ps| ==> r[i] == Field(ps[i])
  {
    seq(|ps|, i requires 0 <= i < |ps| => Field(ps[i]))
  }

  /** `${page}?k1=${encodeURIComponent(v1)}&k2=…`. */
  function NavUrl(page: string, params: seq<Param>): string
    requires |params| > 0
  {
    page + "?" + Join(Fields(params), '&')
  }

  function ParseFields(fields: seq<string>): Option<seq<Param>>
    decreases |fields|
  {
    if fields == [] then Some([])
    else
      var kv := Split(fields[0], '=');
      if |kv| != 2 then None
      else
        match (UriComponent.Decode(kv[1]), ParseFields(fields[1..]))
        case (Some(v), Some(rest)) => Some([Param(kv[0], v)] + rest)
        case _ => None
  }

  /** Reads a navigation URL back into its page and decoded parameters. */
  function ParseNav(url: string): Option<Nav> {
    var halves := Split(url, '?');
    if |halves| != 2 then None
    else
      match ParseFields(Split(halves[1], '&'))
      case Some(ps) => Some(Nav(halves[0], ps))
      case None => None
  }

  lemma FieldShape(p: Param)
    requires PlainKey(p.key)
    ensures Split(Field(p), '=') == [p.key, UriComponent.Encode(p.value)]
    ensures '?' !in Field(p) && '&' !in Field(p)
  {
    var e := UriComponent.Encode(p.value);
    EncodedAvoids(p.value);
    SplitNoSep(e, '=');
    SplitAfterPiece(p.key, '=', e);
    assert Field(p) == p.key + ['='] + e;
  }

  lemma {:induction false} ParseFieldsOf(ps: seq<Param>)
    requires forall i :: 0 <= i < |ps| ==> PlainKey(ps[i].key)
    ensures ParseFields(Fields(ps)) == Some(ps)
    decreases |ps|
  {
    if ps != [] {
      var fs := Fields(ps);
      FieldShape(ps[0]);
      UriComponent.DecodeEncode(ps[0].value);
      assert fs[1..] == Fields(ps[1..]);
      ParseFieldsOf(ps[1..]);
      assert ps == [ps[0]] + ps[1..];
    }
  }

  /** Parsing a navigation URL gives back the page and the parameter values
      before encoding. */
  lemma NavRoundTrip(page: string, params: seq<Param>)
    requires |params| > 0 && '?' !in page
    requires forall i :: 0 <= i < |params| ==> PlainKey(params[i].key)
    ensures ParseNav(NavUrl(page, params)) == Some(Nav(page, params))
  {
    var fs := Fields(params);
    forall i | 0 <= i < |fs|
      ensures '?' !in fs[i] && '&' !in fs[i]
    {
      FieldShape(params[i]);
    }
    var query := Join(fs, '&');
    JoinAvoids(fs, '&', '?');
    SplitNoSep(query, '?');
    SplitAfterPiece(page, '?', query);
    assert NavUrl(page, params) == page + ['?'] + query;
    SplitJoin(fs, '&');
    ParseFieldsOf(params);
  }

  /** The text inside `safeName` before encoding: commas become spaces, then
      the ends are trimmed. */
  function SafeText(s: string): (r: string)
    ensures ',' !in r
    ensures !StartsWithSpace(r) && !EndsWithSpace(r)
    ensures ',' !in s ==> r == Trim(s)
    ensures EndsRemoved(r, ReplaceChar(s, ',', ' '))
    ensures NonSpace(r) == NonSpace(ReplaceChar(s, ',', ' '))
  {
    var t := ReplaceChar(s, ',', ' ');
    assert ',' !in s ==> t == s;
    TrimAvoids(t, ',');
    Trim(t)
  }

  /** `safeName` of js/mpa.js. */
  function SafeName(s: string): string {
    UriComponent.Encode(SafeText(s))
  }

  /** `${x},${y},${safeName(name)}`. */
  function Waypoint(p: Place): string {
    p.x + "," + p.y + "," + SafeName(p.name)
  }

  const DirectionsBase := "https://map.naver.com/v5/directions/"
  const DirectionsTail := "/-/car"

  /** `buildDirectionsUrl(from, to)`. */
  function DirectionsUrl(from: Place, to: Place): string {
    DirectionsBase + (Waypoint(from) + "/" + Waypoint(to)) + DirectionsTail
  }

  /** A route end as read back from a directions URL. */
  datatype Stop = Stop(x: string, y: string, name: string)

  function ParseStop(w: string): Option<Stop> {
    var f := Split(w, ',');
    if |f| != 3 then None
    else
      match UriComponent.Decode(f[2])
      case Some(n) => Some(Stop(f[0], f[1], n))
      case None => None
  }

  /** The text strictly between `prefix` and `suffix`, if `u` has both. */
  function Between(u: string, prefix: string, suffix: string): Option<string> {
    if |u| >= |prefix| + |suffix| && prefix <= u && u[|u| - |suffix|..] == suffix
    then Some(u[|prefix|..|u| - |suffix|])
    else None
  }

  lemma BetweenFrame(prefix: string, mid: string, suffix: string)
    ensures Between(prefix + mid + suffix, prefix, suffix) == Some(mid)
  {
    Frame(prefix, mid, suffix);
  }

  /** Reads a directions URL back into its start and its goal. */
  function ParseDirections(url: string): Option<(Stop, Stop)> {
    match Between(url, DirectionsBase, DirectionsTail)
    case None => None
    case Some(middle) =>
      var legs := Split(middle, '/');
      if |legs| != 2 then None
      else
        match (ParseStop(legs[0]), ParseStop(legs[1]))
        case (Some(a), Some(b)) => Some((a, b))
        case _ => None
  }

  lemma NumeralAvoids(n: Numeral)
    ensures ',' !in n && '/' !in n
  {
  }

  lemma WaypointShape(p: Place)
    ensures ParseStop(Waypoint(p)) == Some(Stop(p.x, p.y, SafeText(p.name)))
    ensures '/' !in Waypoint(p)
  {
    var e := SafeName(p.name);
    assert Waypoint(p) == p.x + [','] + p.y + [','] + e;
    WaypointParts(p.x, p.y, SafeText(p.name));
  }

  /** The three comma-separated parts of a waypoint read back. */
  lemma WaypointParts(x: Numeral, y: Numeral, name: string)
    ensures var w := x + [','] + y + [','] + UriComponent.Encode(name);
      ParseStop(w) == Some(Stop(x, y, name)) && '/' !in w
  {
    var e := UriComponent.Encode(name);
    NumeralAvoids(x);
    NumeralAvoids(y);
    EncodedAvoids(name);
    SplitThree(x, y, e, ',');
    UriComponent.DecodeEncode(name);
  }

  /** The directions link names the start first and the goal second, each
      with its coordinates and its comma-free trimmed name. */
  lemma DirectionsRoundTrip(from: Place, to: Place)
    ensures ParseDirections(DirectionsUrl(from, to))
         == Some((Stop(from.x, from.y, SafeText(from.name)), Stop(to.x, to.y, SafeText(to.name))))
  {
    var w1 := Waypoint(from);
    var w2 := Waypoint(to);
    var middle := w1 + ['/'] + w2;
    BetweenFrame(DirectionsBase, middle, DirectionsTail);
    WaypointShape(from);
    WaypointShape(to);
    SplitTwo(w1, w2, '/');
  }
}
