/** The consultation-type to next-page table of js/mpa.js
    (`NEXT_PAGE_BY_TYPE`, `DEFAULT_NEXT_PAGE`, `getNextPageByType`). */
module NextPage {

  /** The six consultation types with their own installation page. */
  const KnownTypes: seq<string> := ["boiler", "gas", "dryer", "elec", "builtin", "sash"]

  /** `NEXT_PAGE_BY_TYPE`: the object literal's own properties. */
  const Table: map<string, string> := map[
    "boiler" := "installation_boiler.html",
    "gas" := "installation_gas.html",
    "dryer" := "installation_dryer.html",
    "elec" := "installation_elec.html",
    "builtin" := "installation_builtin.html",
    "sash" := "installation_sash.html"
  ]

  /** `DEFAULT_NEXT_PAGE`. */
  const DefaultPage := "installation_gas2.html"

  /** `getNextPageByType` as the lookup was evidently meant: the type's own
      page, or the default for any other type (including ""). */
  function NextPageFor(t: string): (r: string)
    ensures t in KnownTypes ==> r == "installation_" + t + ".html"
    ensures t !in KnownTypes ==> r == DefaultPage
    ensures '?' !in r
  {
    if t in Table then
      TablePage(t);
      Table[t]
    else
      assert t !in KnownTypes;
      DefaultPage
  }

  /** Each own page is `installation_<type>.html`. */
  lemma TablePage(t: string)
    requires t in Table
    ensures t in KnownTypes && Table[t] == "installation_" + t + ".html" && '?' !in Table[t]
  {
    if t == "boiler" {
      assert Table[t] == "installation_" + "boiler" + ".html";
    } else if t == "gas" {
      assert Table[t] == "installation_" + "gas" + ".html";
    } else if t == "dryer" {
      assert Table[t] == "installation_" + "dryer" + ".html";
    } else if t == "elec" {
      assert Table[t] == "installation_" + "elec" + ".html";
    } else if t == "builtin" {
      assert Table[t] == "installation_" + "builtin" + ".html";
    } else {
      assert Table[t] == "installation_" + "sash" + ".html";
    }
  }

  /** The properties every plain object inherits from `Object.prototype`;
      each holds a function or an object, so each is truthy. */
  const InheritedMembers: set<string> := {
    "constructor", "hasOwnProperty", "isPrototypeOf", "propertyIsEnumerable",
    "toLocaleString", "toString", "valueOf", "__proto__",
    "__defineGetter__", "__defineSetter__", "__lookupGetter__", "__lookupSetter__"
  }

  /** What `NEXT_PAGE_BY_TYPE[type] || DEFAULT_NEXT_PAGE` yields: an own
      page name, or an inherited `Object.prototype` member. */
  datatype Lookup = Page(file: string) | Inherited(member: string)

  /** `getNextPageByType` as written: bracket access on a plain object also
      finds the inherited members, which are truthy, so `||` never reaches
      the default for them. */
  function NextPageAsWritten(t: string): (r: Lookup)
    ensures r.Inherited? <==> t in InheritedMembers
  {
    if t in Table then Page(Table[t])
    else if t in InheritedMembers then Inherited(t)
    else Page(DefaultPage)
  }

  /** The text `${nextPage}` puts into a URL: the page name, or the string
      form of the inherited value as V8 renders it (`Object` for
      `constructor`, `Object.prototype` for `__proto__`, a built-in method
      otherwise). */
  function LookupText(l: Lookup): string {
    match l
    case Page(f) => f
    case Inherited(m) =>
      if m == "__proto__" then "[object Object]"
      else if m == "constructor" then "function Object() { [native code] }"
      else "function " + m + "() { [native code] }"
  }

  /** The page text the code as written navigates to: it is the intended
      page exactly when the type is not an inherited name, and it never
      holds a `?`. */
  function NextPageText(t: string): (s: string)
    ensures s == NextPageFor(t) <==> t !in InheritedMembers
    ensures '?' !in s
  {
    var l := NextPageAsWritten(t);
    var s := LookupText(l);
    if t in InheritedMembers then
      InheritedTextShape(t);
      s
    else
      AsWrittenAgrees(t);
      s
  }

  /** An inherited member's text starts with `f` or `[`, never with the
      `i` of an installation page, and holds no `?`. */
  lemma InheritedTextShape(m: string)
    requires m in InheritedMembers
    ensures var s := LookupText(Inherited(m));
      |s| > 0 && s[0] != 'i' && '?' !in s
    ensures LookupText(Inherited(m)) != NextPageFor(m)
  {
    assert NextPageFor(m) == DefaultPage by {
      assert m !in Table;
    }
    assert DefaultPage[0] == 'i';
    if m != "__proto__" && m != "constructor" {
      InheritedNamePlain(m);
      NativeText(m);
    }
  }

  /** No inherited name holds a `?`. */
  lemma InheritedNamePlain(m: string)
    requires m in InheritedMembers
    ensures '?' !in m
  {
    if m == "constructor" || m == "hasOwnProperty" || m == "isPrototypeOf" {
    } else if m == "propertyIsEnumerable" || m == "toLocaleString" || m == "toString" {
    } else if m == "valueOf" || m == "__proto__" || m == "__defineGetter__" {
    } else {
      assert m == "__defineSetter__" || m == "__lookupGetter__" || m == "__lookupSetter__";
    }
  }

  /** The rendering of a built-in method named `m`. */
  lemma NativeText(m: string)
    requires '?' !in m
    ensures var s := "function " + m + "() { [native code] }";
      s[0] == 'f' && '?' !in s
  {
    var s := "function " + m + "() { [native code] }";
    assert s == "function " + (m + "() { [native code] }");
  }

  /** With `?type=toString` the code as written puts the source text of
      `Object.prototype.toString` where the page name belongs, while the
      intended lookup gives the default page. */
  lemma ToStringText()
    ensures NextPageText("toString") == "function toString() { [native code] }"
    ensures NextPageFor("toString") == DefaultPage
  {
    InheritedTypeSkipsDefault();
    assert "function " + "toString" + "() { [native code] }" == "function toString() { [native code] }";
  }

  /** Outside the inherited names the code as written and the intended
      lookup agree. */
  lemma AsWrittenAgrees(t: string)
    requires t !in InheritedMembers
    ensures NextPageAsWritten(t) == Page(NextPageFor(t))
  {
  }

  /** `?type=toString` does not fall back to the default page as written,
      but does with the intended lookup. */
  lemma InheritedTypeSkipsDefault()
    ensures NextPageAsWritten("toString") == Inherited("toString")
    ensures NextPageFor("toString") == DefaultPage
  {
  }
}
