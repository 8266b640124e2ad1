/** The selection history shared by js/app.js and js/mpa.js: one JSON array
    of entries under the storage key "sundoo_selection_history", capped at
    the 30 most recent entries. Storage is modelled as the value held under
    that key; the clock is a parameter. */
module History {
  import opened Wrappers

  /** `MAX_ITEMS`, and the `-30` of `slice(-30)` in `pushHistory`. */
  const MaxItems: nat := 30

  /** `{ label, url, ts }`, `ts` being `Date.now()` in milliseconds. */
  datatype Entry = Entry(labelText: string, url: string, ts: int)

  /** What `JSON.parse(localStorage.getItem(key))` sees. */
  datatype Stored =
    | Absent                     // no item: `getItem` gives null, which parses to null
    | Unparsable                 // text that is not JSON: `JSON.parse` throws
    | ArrayValue(items: seq<Entry>)
    | OtherValue(truthy: bool)   // any other JSON value: null, a number, a string, an object, …

  /** The last `n` elements of `s` (`s.slice(-n)` for `n > 0`). */
  function KeepLast<T>(s: seq<T>, n: nat): (r: seq<T>)
    ensures |r| == if |s| < n then |s| else n
    ensures r == s[|s| - |r|..]
  {
    if |s| <= n then s else s[|s| - n..]
  }

  /** Append an entry and keep the most recent `MaxItems`. */
  function Append(items: seq<Entry>, e: Entry): (r: seq<Entry>)
    ensures |r| <= MaxItems
    ensures |r| == if |items| < MaxItems then |items| + 1 else MaxItems
    ensures r == (items + [e])[|items| + 1 - |r|..]
    ensures r[|r| - 1] == e
  {
    KeepLast(items + [e], MaxItems)
  }

  /** Below the cap nothing is evicted. */
  lemma AppendBelowCap(items: seq<Entry>, e: Entry)
    requires |items| < MaxItems
    ensures Append(items, e) == items + [e]
  {
    var r := Append(items, e);
    assert r == r[..|r| - 1] + [r[|r| - 1]];
  }

  /** At the cap exactly the oldest entry is evicted. */
  lemma AppendAtCap(items: seq<Entry>, e: Entry)
    requires |items| == MaxItems
    ensures Append(items, e) == items[1..] + [e]
  {
    var r := Append(items, e);
    assert r == r[..|r| - 1] + [r[|r| - 1]];
  }

  /** `loadHistory` of js/app.js: the stored array, or `[]` for anything
      else, including a parse failure. */
  function Load(st: Stored): (r: seq<Entry>)
    ensures st.ArrayValue? ==> r == st.items
    ensures !st.ArrayValue? ==> r == []
  {
    match st
    case ArrayValue(items) => items
    case _ => []
  }

  /** `saveHistory` of js/app.js. */
  function Save(items: seq<Entry>): (r: Stored)
    ensures Load(r) == items
  {
    ArrayValue(items)
  }

  /** `pushHistory` of js/mpa.js: `(JSON.parse(item) || [])`, push, keep
      the last 30, store. A parse failure, or a truthy value that is not an
      array (whose missing `push` throws), is swallowed by the `catch` and
      leaves the stored value as it was. */
  function Push(st: Stored, e: Entry): (r: Stored)
    ensures st.ArrayValue? ==> r == Save(Append(st.items, e))
    ensures st == Absent || st == OtherValue(false) ==> r == Save([e])
    ensures st == Unparsable || st == OtherValue(true) ==> r == st
  {
    match st
    case ArrayValue(items) => Save(KeepLast(items + [e], MaxItems))
    case Absent => Save(KeepLast([e], MaxItems))
    case OtherValue(truthy) => if truthy then st else Save(KeepLast([e], MaxItems))
    case Unparsable => st
  }

  /** The card click of js/app.js: load (tolerantly), push, keep the last
      `MAX_ITEMS`, save. */
  function RecordClick(st: Stored, e: Entry): (r: Stored)
    ensures r == Save(Append(Load(st), e))
  {
    Save(KeepLast(Load(st) + [e], MaxItems))
  }

  /** The clear button of js/app.js: `saveHistory([])`. */
  function Clear(): (r: Stored)
    ensures Load(r) == []
  {
    Save([])
  }

  lemma RecordClickBounded(st: Stored, e: Entry)
    ensures |Load(RecordClick(st, e))| <= MaxItems
    ensures Load(RecordClick(st, e))[|Load(RecordClick(st, e))| - 1] == e
  {
  }

  lemma PushBounded(st: Stored, e: Entry)
    ensures |Load(Push(st, e))| <= MaxItems
  {
  }

  /** Whatever was stored, a saved log is at most 30 long once the card
      click or `pushHistory` has written it. */
  lemma WritesStayBounded(st: Stored, e: Entry)
    ensures |Load(RecordClick(st, e))| <= MaxItems
    ensures |Load(Push(st, e))| <= MaxItems
    ensures Load(RecordClick(st, e))[|Load(RecordClick(st, e))| - 1] == e
  {
    RecordClickBounded(st, e);
    PushBounded(st, e);
  }

  /** The two writers agree except on a value that is not an array: there
      the card click starts a newer log while `pushHistory` leaves the
      value alone when it is unparsable or truthy. */
  lemma WritersAgreeOnArrays(st: Stored, e: Entry)
    ensures st.ArrayValue? || st == Absent || st == OtherValue(false)
        ==> Push(st, e) == RecordClick(st, e)
    ensures st == Unparsable || st == OtherValue(true)
        ==> Push(st, e) == st && Load(RecordClick(st, e)) == [e]
  {
  }

  lemma AppendTwice(items: seq<Entry>, e1: Entry, e2: Entry)
    ensures var a := Append(Append(items, e1), e2);
      |a| >= 2 && a[|a| - 2] == e1 && a[|a| - 1] == e2
  {
    var a1 := Append(items, e1);
    var a2 := Append(a1, e2);
    assert a2 == (a1 + [e2])[|a1| + 1 - |a2|..];
    assert a2[|a2| - 2] == (a1 + [e2])[|a1| - 1] == a1[|a1| - 1];
  }

  lemma PushExtends(st: Stored, e: Entry)
    requires st != Unparsable && st != OtherValue(true)
    ensures Push(st, e) == Save(Append(Load(st), e))
  {
    if !st.ArrayValue? {
      assert Append([], e) == [e];
    }
  }

  /** Two `pushHistory` calls in a row, as the in-area search makes: the
      stored log ends with the two entries in call order. A stored value
      `pushHistory` cannot extend is left alone (`Push`'s own contract). */
  lemma PushTwice(st: Stored, e1: Entry, e2: Entry)
    requires st != Unparsable && st != OtherValue(true)
    ensures var items := Load(Push(Push(st, e1), e2));
      |items| >= 2 && items[|items| - 2] == e1 && items[|items| - 1] == e2
  {
    var a1 := Append(Load(st), e1);
    var h1 := Push(st, e1);
    PushExtends(st, e1);
    assert h1 == ArrayValue(a1);
    PushExtends(h1, e2);
    assert Load(Push(h1, e2)) == Append(a1, e2);
    AppendTwice(Load(st), e1, e2);
  }

  /** A run of appends, oldest first. */
  function AppendAll(items: seq<Entry>, es: seq<Entry>): seq<Entry>
    decreases |es|
  {
    if es == [] then items else AppendAll(Append(items, es[0]), es[1..])
  }

  lemma KeepLastTwice(s: seq<Entry>, t: seq<Entry>)
    ensures KeepLast(KeepLast(s, MaxItems) + t, MaxItems) == KeepLast(s + t, MaxItems)
  {
    var a := KeepLast(s, MaxItems);
    var l := KeepLast(a + t, MaxItems);
    var r := KeepLast(s + t, MaxItems);
    assert |l| == |r|;
    forall i | 0 <= i < |l|
      ensures l[i] == r[i]
    {
      var k := |s + t| - |r| + i;
      if k < |s| {
        assert r[i] == s[k];
        assert l[i] == (a + t)[|a + t| - |l| + i];
      } else {
        assert r[i] == t[k - |s|];
      }
    }
  }

  lemma ConsAssoc(a: seq<Entry>, x: Entry, b: seq<Entry>, c: seq<Entry>)
    requires |c| > 0 && x == c[0] && b == c[1..]
    ensures a + [x] + b == a + c
  {
    assert c == [x] + b;
  }

  lemma AppendAllOne(items: seq<Entry>, es: seq<Entry>)
    requires |es| == 1
    ensures AppendAll(items, es) == KeepLast(items + es, MaxItems)
  {
    assert AppendAll(Append(items, es[0]), es[1..]) == Append(items, es[0]);
    assert es == [es[0]];
  }

  lemma AppendAllStep(items: seq<Entry>, es: seq<Entry>)
    requires |es| > 1
    requires AppendAll(Append(items, es[0]), es[1..])
          == KeepLast(Append(items, es[0]) + es[1..], MaxItems)
    ensures AppendAll(items, es) == KeepLast(items + es, MaxItems)
  {
    KeepLastTwice(items + [es[0]], es[1..]);
    ConsAssoc(items, es[0], es[1..], es);
  }

  /** Any non-empty run of appends keeps the last 30 of everything
      appended, in order: the log is a bounded FIFO. */
  lemma {:induction false} AppendAllKeepsLast(items: seq<Entry>, es: seq<Entry>)
    requires |es| > 0
    ensures AppendAll(items, es) == KeepLast(items + es, MaxItems)
    decreases |es|
  {
    if |es| == 1 {
      AppendAllOne(items, es);
    } else {
      AppendAllKeepsLast(Append(items, es[0]), es[1..]);
      AppendAllStep(items, es);
    }
  }

  /** After 31 appends to an empty log the first entry is gone and the
      other 30 remain, the newest last. */
  lemma ThirtyOneAppends(es: seq<Entry>)
    requires |es| == MaxItems + 1
    ensures AppendAll([], es) == es[1..]
    ensures AppendAll([], es)[MaxItems - 1] == es[MaxItems]
  {
    AppendAllKeepsLast([], es);
    var all: seq<Entry> := [] + es;
    assert all == es;
    assert KeepLast(es, MaxItems) == es[1..];
  }

  /** The date fields `formatTime` reads from `new Date(ts)`; `month` is
      zero-based as `getMonth()` returns it. */
  datatype DateParts = DateParts(year: int, month: int, day: int, hour: int, minute: int)

  predicate ValidParts(p: DateParts) {
    0 <= p.month < 12 && 1 <= p.day <= 31 && 0 <= p.hour < 24 && 0 <= p.minute < 60
  }

  function DigitChar(d: nat): char
    requires d < 10
  {
    ('0' as int + d) as char
  }

  predicate IsDigit(c: char) {
    '0' <= c <= '9'
  }

  /** `String(n)` for a non-negative integer. */
  function Digits(n: nat): (r: string)
    ensures |r| > 0
    ensures forall i :: 0 <= i < |r| ==> IsDigit(r[i])
  {
    if n < 10 then [DigitChar(n)] else Digits(n / 10) + [DigitChar(n % 10)]
  }

  /** `String(n)` for any integer. */
  function NumberText(n: int): string {
    if n < 0 then "-" + Digits(-n) else Digits(n)
  }

  /** `String(n).padStart(2, "0")`. */
  function Pad2(n: int): string {
    var s := NumberText(n);
    if |s| >= 2 then s else "0" + s
  }

  /** `formatTime`: `yyyy-mm-dd hh:mi`. */
  function FormatTime(p: DateParts): string {
    NumberText(p.year) + ClockText(p)
  }

  /** The `-mm-dd hh:mi` part of `formatTime`, month one-based. */
  function ClockText(p: DateParts): string {
    "-" + Pad2(p.month + 1) + "-" + Pad2(p.day) + " " + Pad2(p.hour) + ":" + Pad2(p.minute)
  }

  /** The value of a decimal digit string. */
  function DigitsValue(s: string): nat
    requires forall i :: 0 <= i < |s| ==> IsDigit(s[i])
  {
    if s == [] then 0
    else
      var p := s[..|s| - 1];
      assert forall i :: 0 <= i < |p| ==> p[i] == s[i];
      assert IsDigit(s[|s| - 1]);
      DigitsValue(p) * 10 + (s[|s| - 1] as int - '0' as int)
  }

  lemma {:induction false} DigitsRoundTrip(n: nat)
    ensures DigitsValue(Digits(n)) == n
  {
    if n >= 10 {
      var d := Digits(n);
      assert d[..|d| - 1] == Digits(n / 10);
      DigitsRoundTrip(n / 10);
    }
  }

  /** Values below 100 are padded to exactly two digits that read back as
      the value. */
  lemma Pad2Shape(n: int)
    requires 0 <= n < 100
    ensures |Pad2(n)| == 2
    ensures IsDigit(Pad2(n)[0]) && IsDigit(Pad2(n)[1])
    ensures DigitsValue(Pad2(n)) == n
  {
    DigitsRoundTrip(n);
    if n < 10 {
      assert Pad2(n) == ['0', DigitChar(n)];
      assert Pad2(n)[..1] == "0";
    } else {
      assert Digits(n) == Digits(n / 10) + [DigitChar(n % 10)];
      assert |Digits(n / 10)| == 1;
    }
  }

  predicate AllDigits(s: string) {
    forall i :: 0 <= i < |s| ==> IsDigit(s[i])
  }

  /** Reads an optionally signed decimal year. */
  function ParseYear(y: string): Option<int> {
    if |y| > 1 && y[0] == '-' && AllDigits(y[1..]) then Some(-(DigitsValue(y[1..]) as int))
    else if |y| > 0 && AllDigits(y) then Some(DigitsValue(y))
    else None
  }

  /** Reads `-mm-dd hh:mi` into the zero-based month, day, hour and minute. */
  function ParseClock(t: string): Option<(int, int, int, int)> {
    if |t| == 12 && t[0] == '-' && t[3] == '-' && t[6] == ' ' && t[9] == ':'
       && AllDigits(t[1..3]) && AllDigits(t[4..6]) && AllDigits(t[7..9]) && AllDigits(t[10..12])
    then Some((DigitsValue(t[1..3]) - 1, DigitsValue(t[4..6]), DigitsValue(t[7..9]), DigitsValue(t[10..12])))
    else None
  }

  /** Reads the fields back from a `formatTime` string: the last twelve
      characters are `-mm-dd hh:mi`, everything before them is the year. */
  function ParseTime(s: string): Option<DateParts> {
    if |s| < 13 then None else Assemble(ParseYear(s[..|s| - 12]), ParseClock(s[|s| - 12..]))
  }

  function Assemble(year: Option<int>, clock: Option<(int, int, int, int)>): Option<DateParts> {
    if year.Some? && clock.Some? then
      Some(DateParts(year.value, clock.value.0, clock.value.1, clock.value.2, clock.value.3))
    else None
  }

  lemma ParseTimeSplit(y: string, t: string)
    requires |y| > 0 && |t| == 12
    ensures ParseTime(y + t) == Assemble(ParseYear(y), ParseClock(t))
  {
    var s := y + t;
    assert s[..|s| - 12] == y;
    assert s[|s| - 12..] == t;
  }

  lemma ParseYearOf(n: int)
    ensures ParseYear(NumberText(n)) == Some(n)
  {
    var y := NumberText(n);
    if n < 0 {
      assert y[1..] == Digits(-n);
      DigitsRoundTrip(-n);
    } else {
      DigitsRoundTrip(n);
    }
  }

  lemma ClockShape(m: string, d: string, h: string, mi: string)
    requires |m| == 2 && |d| == 2 && |h| == 2 && |mi| == 2
    ensures var t := "-" + m + "-" + d + " " + h + ":" + mi;
      && |t| == 12 && t[0] == '-' && t[3] == '-' && t[6] == ' ' && t[9] == ':'
      && t[1..3] == m && t[4..6] == d && t[7..9] == h && t[10..12] == mi
  {
  }

  /** A two-digit pad is all digits and reads back as its value. */
  lemma Pad2Digits(n: int)
    requires 0 <= n < 100
    ensures |Pad2(n)| == 2 && AllDigits(Pad2(n)) && DigitsValue(Pad2(n)) == n
  {
    Pad2Shape(n);
  }

  lemma ParseClockOf(p: DateParts)
    requires ValidParts(p)
    ensures |ClockText(p)| == 12
    ensures ParseClock(ClockText(p)) == Some((p.month, p.day, p.hour, p.minute))
  {
    var m, d, h, mi := Pad2(p.month + 1), Pad2(p.day), Pad2(p.hour), Pad2(p.minute);
    Pad2Digits(p.month + 1);
    Pad2Digits(p.day);
    Pad2Digits(p.hour);
    Pad2Digits(p.minute);
    ClockShape(m, d, h, mi);
  }

  /** `formatTime` loses nothing: the year, the one-based month, the day,
      the hour and the minute are read back from the text. */
  lemma FormatTimeRoundTrip(p: DateParts)
    requires ValidParts(p)
    ensures ParseTime(FormatTime(p)) == Some(p)
  {
    ParseYearOf(p.year);
    ParseClockOf(p);
    ParseTimeSplit(NumberText(p.year), ClockText(p));
  }

  /** One line of the rendered list: the label and the formatted time. */
  datatype Row = Row(labelText: string, time: string)

  function RowOf(e: Entry, clock: int -> DateParts): Row {
    Row(e.labelText, FormatTime(clock(e.ts)))
  }

  /** The rows for `items`, last entry first (`[...items].reverse()`). */
  function NewestFirst<R>(items: seq<Entry>, show: Entry -> R): (rows: seq<R>)
    ensures |rows| == |items|
  {
    seq(|items|, i requires 0 <= i < |items| => show(items[|items| - 1 - i]))
  }

  /** `renderHistory`: one row per stored entry, newest first; nothing for
      an empty or unreadable log. `show` builds one list item, for instance
      `e => RowOf(e, clock)` with `clock` standing for `new Date(ts)` in the
      browser's time zone. */
  function Render<R>(st: Stored, show: Entry -> R): (rows: seq<R>)
    ensures |rows| == |Load(st)|
    ensures forall i :: 0 <= i < |rows| ==> rows[i] == show(Load(st)[|rows| - 1 - i])
  {
    NewestFirst(Load(st), show)
  }

  lemma NewestFirstSnoc<R>(items: seq<Entry>, e: Entry, show: Entry -> R)
    ensures NewestFirst(items + [e], show) == [show(e)] + NewestFirst(items, show)
  {
    assert (items + [e])[..|items|] == items;
  }

  /** Dropping the oldest entries drops the last rows. */
  lemma NewestFirstSuffix<R>(items: seq<Entry>, m: nat, show: Entry -> R)
    requires m <= |items|
    ensures NewestFirst(items[m..], show) == NewestFirst(items, show)[..|items| - m]
  {
    var tail := items[m..];
    var a := NewestFirst(tail, show);
    var b := NewestFirst(items, show);
    var n := |items|;
    assert |a| == n - m && |b| == n;
    forall i | 0 <= i < n - m
      ensures a[i] == b[i]
    {
      var k := n - m - 1 - i;
      assert a[i] == show(tail[k]);
      assert tail[k] == items[n - 1 - i];
      assert b[i] == show(items[n - 1 - i]);
    }
    assert a == b[..n - m];
  }

  lemma SuffixSnoc(items: seq<Entry>, e: Entry, m: nat)
    requires m <= |items|
    ensures (items + [e])[m..] == items[m..] + [e]
  {
  }

  /** After a card click the clicked entry is listed first, followed by the
      previous list minus the entry evicted at the cap. */
  lemma RenderAfterClick<R>(st: Stored, e: Entry, show: Entry -> R)
    ensures var before := Render(st, show);
      var after := Render(RecordClick(st, e), show);
      && |after| > 0
      && after[0] == show(e)
      && after[1..] == before[..|after| - 1]
  {
    var items := Load(st);
    var newer := Append(items, e);
    var m := |items| + 1 - |newer|;
    var before := Render(st, show);
    var after := Render(RecordClick(st, e), show);
    assert Load(RecordClick(st, e)) == newer;
    SuffixSnoc(items, e, m);
    assert newer == items[m..] + [e];
    var tail := NewestFirst(items[m..], show);
    NewestFirstSnoc(items[m..], e, show);
    assert after == [show(e)] + tail;
    assert after[1..] == tail;
    NewestFirstSuffix(items, m, show);
    assert tail == before[..|newer| - 1];
  }
}
