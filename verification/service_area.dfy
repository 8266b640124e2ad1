/** Service-area classification of js/mpa.js: a text is in the service area
    when one of the fixed region keywords occurs in it. */
module ServiceArea {
  import opened Wrappers
  import opened JsString

  /** `SERVICE_AREAS`: the 21 region keywords, in source order. */
  const Areas: seq<string> := [
    "일산", "파주", "시흥",
    "안산", "군포", "고양",
    "강화", "영종",
    "서울", "수원", "화성",
    "용인", "안양", "과천",
    "광명", "의왕", "의정부",
    "구리", "성남", "남양주",
    "인천"
  ]

  /** `String(v || "")` for a value that is a string or absent. */
  function TextOf(v: Option<string>): string {
    v.GetOr("")
  }

  /** The reference reading: some keyword occurs in the text. */
  ghost predicate MentionsArea(s: string) {
    exists i :: 0 <= i < |Areas| && IsInfix(Areas[i], s)
  }

  function AnyIncluded(s: string, keys: seq<string>): (r: bool)
    ensures r <==> exists i :: 0 <= i < |keys| && IsInfix(keys[i], s)
  {
    if keys == [] then false
    else
      var rest := AnyIncluded(s, keys[1..]);
      assert forall i :: 1 <= i < |keys| ==> keys[i] == keys[1..][i - 1];
      Includes(s, keys[0]) || rest
  }

  /** `isServiceAreaByAddressName`: `SERVICE_AREAS.some(area => s.includes(area))`. */
  function IsServiceArea(v: Option<string>): (r: bool)
    ensures r <==> MentionsArea(TextOf(v))
    ensures v == None || v == Some("") ==> !r
  {
    var s := TextOf(v);
    assert forall i :: 0 <= i < |Areas| ==> |Areas[i]| > 0;
    assert s == [] ==> forall i :: 0 <= i < |Areas| ==> !IsInfix(Areas[i], s);
    AnyIncluded(s, Areas)
  }

  /** Classification is monotone: adding text on either side of an
      in-area text keeps it in the area. */
  lemma {:induction false} Monotone(s: string, before: string, after: string)
    requires IsServiceArea(Some(s))
    ensures IsServiceArea(Some(before + s + after))
  {
    var i :| 0 <= i < |Areas| && IsInfix(Areas[i], s);
    InfixExtend(Areas[i], s, before, after);
  }

  /** Appending any keyword to a text puts it in the area. */
  lemma {:induction false} KeywordMakesInArea(s: string, i: nat)
    requires i < |Areas|
    ensures IsServiceArea(Some(s + Areas[i]))
  {
    assert Areas[i] <= (s + Areas[i])[|s|..];
  }

  /** A text that shares no character with any keyword's first letter is
      outside the area. */
  lemma {:induction false} NoLeadLetterOutside(s: string)
    requires forall i :: 0 <= i < |Areas| ==> Areas[i][0] !in s
    ensures !IsServiceArea(Some(s))
  {
  }

  /** The company's own address is in the area. */
  lemma CompanyAddressInArea()
    ensures IsServiceArea(Some("인천 서구 청마로34번길 32-9"))
  {
    var s := "인천 서구 청마로34번길 32-9";
    assert Areas[20] <= s[0..];
  }

  /** A Jeju address is outside the area. */
  lemma JejuOutside()
    ensures !IsServiceArea(Some("제주 한라산"))
  {
    NoLeadLetterOutside("제주 한라산");
  }
}
