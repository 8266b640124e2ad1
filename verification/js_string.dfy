/** The JavaScript string operations the page scripts rely on: `trim`,
    the `/\s+/g` whitespace class, `includes`, `replace(/,/g, …)`, and a
    `split` / `join` pair used to read back the URLs the flow builds. */
module JsString {

  /** ECMAScript WhiteSpace and LineTerminator code points: the set matched
      by `\s` in a regular expression and removed by `String.prototype.trim`. */
  predicate IsSpace(c: char) {
    var n := c as int;
    || 0x09 <= n <= 0x0D || n == 0x20 || n == 0xA0 || n == 0x1680
    || 0x2000 <= n <= 0x200A || n == 0x2028 || n == 0x2029
    || n == 0x202F || n == 0x205F || n == 0x3000 || n == 0xFEFF
  }

  predicate StartsWithSpace(s: string) {
    |s| > 0 && IsSpace(s[0])
  }

  predicate EndsWithSpace(s: string) {
    |s| > 0 && IsSpace(s[|s| - 1])
  }

  /** No two consecutive whitespace characters. */
  predicate NoDoubleSpace(s: string) {
    forall i :: 0 <= i < |s| - 1 && IsSpace(s[i]) ==> !IsSpace(s[i + 1])
  }

  /** Every whitespace character is the plain space U+0020. */
  predicate OnlyPlainSpaces(s: string) {
    forall i :: 0 <= i < |s| && IsSpace(s[i]) ==> s[i] == ' '
  }

  /** The shape of a normalised query: words separated by single plain
      spaces, nothing at either end. */
  predicate Normal(s: string) {
    && !StartsWithSpace(s)
    && !EndsWithSpace(s)
    && NoDoubleSpace(s)
    && OnlyPlainSpaces(s)
  }

  /** The non-whitespace characters of `s`, in order. */
  function NonSpace(s: string): string {
    if s == [] then []
    else (if IsSpace(s[0]) then [] else [s[0]]) + NonSpace(s[1..])
  }

  lemma {:induction false} NonSpaceConcat(a: string, b: string)
    ensures NonSpace(a + b) == NonSpace(a) + NonSpace(b)
  {
    if a == [] {
      assert a + b == b;
    } else {
      assert (a + b)[1..] == a[1..] + b;
      NonSpaceConcat(a[1..], b);
    }
  }

  /** `s.trimStart()`: drops the leading whitespace and nothing else. */
  function TrimStart(s: string): (r: string)
    ensures |r| <= |s| && r == s[|s| - |r|..]
    ensures !StartsWithSpace(r)
    ensures forall i :: 0 <= i < |s| - |r| ==> IsSpace(s[i])
    ensures NonSpace(r) == NonSpace(s)
    ensures StartsWithSpace(s) ==> |r| < |s|
    decreases |s|
  {
    if StartsWithSpace(s) then
      var t := s[1..];
      var r := TrimStart(t);
      assert t[|t| - |r|..] == s[|s| - |r|..];
      assert NonSpace(s) == [] + NonSpace(t);
      assert forall i :: 1 <= i < |s| - |r| ==> s[i] == t[i - 1];
      r
    else s
  }

  /** `s.trimEnd()`: drops the trailing whitespace and nothing else. */
  function TrimEnd(s: string): (r: string)
    ensures |r| <= |s| && r == s[..|r|]
    ensures !EndsWithSpace(r)
    ensures forall i :: |r| <= i < |s| ==> IsSpace(s[i])
    ensures NonSpace(r) == NonSpace(s)
    decreases |s|
  {
    if EndsWithSpace(s) then
      var p := s[..|s| - 1];
      assert s == p + [s[|s| - 1]];
      NonSpaceConcat(p, [s[|s| - 1]]);
      TrimEnd(p)
    else s
  }

  /** `r` is a contiguous part of `s` and everything of `s` before and
      after it is whitespace. */
  predicate EndsRemoved(r: string, s: string) {
    exists i {:trigger s[i..]} ::
      && 0 <= i <= |s| - |r| && r == s[i..][..|r|]
      && (forall k :: 0 <= k < i ==> IsSpace(s[k]))
      && (forall k :: i + |r| <= k < |s| ==> IsSpace(s[k]))
  }

  /** `String.prototype.trim`: only whitespace at the two ends goes. */
  function Trim(s: string): (r: string)
    ensures EndsRemoved(r, s)
    ensures !StartsWithSpace(r) && !EndsWithSpace(r)
    ensures NonSpace(r) == NonSpace(s)
  {
    TrimBothEnds(s);
    TrimEnd(TrimStart(s))
  }

  lemma TrimBothEnds(s: string)
    ensures EndsRemoved(TrimEnd(TrimStart(s)), s)
  {
    var t := TrimStart(s);
    var r := TrimEnd(t);
    var i := |s| - |t|;
    assert t == s[i..];
    assert r == t[..|r|];
    assert forall k :: 0 <= k < i ==> IsSpace(s[k]);
    assert forall k :: |r| <= k < |t| ==> IsSpace(t[k]);
    forall k | i + |r| <= k < |s|
      ensures IsSpace(s[k])
    {
      assert s[k] == t[k - i];
    }
    EndsRemovedAt(r, s, i);
  }

  lemma EndsRemovedAt(r: string, s: string, i: nat)
    requires i <= |s| - |r| && r == s[i..][..|r|]
    requires forall k :: 0 <= k < i ==> IsSpace(s[k])
    requires forall k :: i + |r| <= k < |s| ==> IsSpace(s[k])
    ensures EndsRemoved(r, s)
  {
  }

  lemma NonSpaceEmpty(s: string)
    requires !StartsWithSpace(s)
    ensures s == [] <==> NonSpace(s) == []
  {
    if s != [] {
      assert NonSpace(s) == [s[0]] + NonSpace(s[1..]);
    }
  }

  lemma ConsShape(c: char, t: string)
    requires NoDoubleSpace(t) && OnlyPlainSpaces(t)
    requires IsSpace(c) ==> c == ' ' && !StartsWithSpace(t)
    ensures NoDoubleSpace([c] + t) && OnlyPlainSpaces([c] + t)
    ensures NonSpace([c] + t) == (if IsSpace(c) then [] else [c]) + NonSpace(t)
  {
    var u := [c] + t;
    assert u[1..] == t;
    forall i | 0 <= i < |u| - 1 && IsSpace(u[i])
      ensures !IsSpace(u[i + 1])
    {
      if i > 0 {
        assert u[i] == t[i - 1] && u[i + 1] == t[i];
      }
    }
    forall i | 0 <= i < |u| && IsSpace(u[i])
      ensures u[i] == ' '
    {
      if i > 0 {
        assert u[i] == t[i - 1];
      }
    }
  }

  /** `s.replace(/\s+/g, " ")`: every maximal run of whitespace becomes one
      plain space. */
  function Collapse(s: string): string {
    CollapseFrom(s, false)
  }

  /** `Collapse` read left to right: a whitespace character is written as
      one space when it opens a run and dropped when the character before
      it (`afterSpace`) was whitespace too. */
  function CollapseFrom(s: string, afterSpace: bool): string {
    if s == [] then []
    else
      (if !IsSpace(s[0]) then [s[0]] else if afterSpace then [] else [' '])
      + CollapseFrom(s[1..], IsSpace(s[0]))
  }

  /** What `Collapse` leaves: single plain spaces between the same
      non-whitespace characters, with whitespace at an end exactly where
      the input had it. */
  lemma CollapseShape(s: string)
    ensures var r := Collapse(s);
      && NoDoubleSpace(r) && OnlyPlainSpaces(r)
      && NonSpace(r) == NonSpace(s)
      && (StartsWithSpace(r) <==> StartsWithSpace(s))
      && (EndsWithSpace(r) <==> EndsWithSpace(s))
      && (r == [] <==> s == [])
  {
    CollapseFromShape(s, false);
  }

  /** `CollapseShape` for a scan that may start inside a whitespace run. */
  lemma {:induction false} CollapseFromShape(s: string, afterSpace: bool)
    ensures var r := CollapseFrom(s, afterSpace);
      && NoDoubleSpace(r) && OnlyPlainSpaces(r)
      && NonSpace(r) == NonSpace(s)
      && (afterSpace ==> !StartsWithSpace(r))
      && (!afterSpace ==> (StartsWithSpace(r) <==> StartsWithSpace(s)))
      && (EndsWithSpace(r) ==> EndsWithSpace(s))
      && (EndsWithSpace(s) ==> EndsWithSpace(r) || (afterSpace && r == []))
      && (!afterSpace && s != [] ==> r != [])
      && (s != [] && r == [] ==> EndsWithSpace(s))
    decreases |s|
  {
    if s != [] {
      var t := s[1..];
      var c := CollapseFrom(t, IsSpace(s[0]));
      CollapseFromShape(t, IsSpace(s[0]));
      assert NonSpace(s) == (if IsSpace(s[0]) then [] else [s[0]]) + NonSpace(t);
      if t != [] {
        assert t[|t| - 1] == s[|s| - 1];
      }
      if IsSpace(s[0]) && afterSpace {
        assert CollapseFrom(s, afterSpace) == c;
      } else {
        var h := if IsSpace(s[0]) then ' ' else s[0];
        assert CollapseFrom(s, afterSpace) == [h] + c;
        ConsShape(h, c);
        if c == [] && IsSpace(s[0]) {
          assert t == [] || EndsWithSpace(t);
        }
      }
    }
  }

  /** `normalize` of js/mpa.js: trim, then collapse whitespace runs. */
  function Normalize(s: string): (r: string)
    ensures Normal(r)
    ensures NonSpace(r) == NonSpace(s)
    ensures r == [] <==> NonSpace(s) == []
  {
    var t := Trim(s);
    var r := Collapse(t);
    CollapseShape(t);
    NonSpaceEmpty(t);
    NonSpaceEmpty(r);
    r
  }

  /** Trimming the front of `a + b` trims `a` first and reaches `b` only
      when `a` was all whitespace. */
  lemma {:induction false} TrimStartAppend(a: string, b: string)
    ensures TrimStart(a) != [] ==> TrimStart(a + b) == TrimStart(a) + b
    ensures TrimStart(a) == [] ==> TrimStart(a + b) == TrimStart(b)
    decreases |a|
  {
    if a == [] {
      assert a + b == b;
    } else {
      assert (a + b)[0] == a[0];
      if IsSpace(a[0]) {
        assert (a + b)[1..] == a[1..] + b;
        TrimStartAppend(a[1..], b);
      }
    }
  }

  /** Trimming the back of `a + b` stays inside `b` when `b` holds a
      non-space character. */
  lemma {:induction false} TrimEndAppend(a: string, b: string)
    ensures TrimEnd(b) != [] ==> TrimEnd(a + b) == a + TrimEnd(b)
    decreases |b|
  {
    if b != [] {
      var u := a + b;
      assert u[|u| - 1] == b[|b| - 1];
      if IsSpace(b[|b| - 1]) {
        var p := b[..|b| - 1];
        assert u[..|u| - 1] == a + p;
        TrimEndAppend(a, p);
      }
    }
  }

  /** `replace(/\s+/g, " ")` works run by run: cutting the text anywhere
      but inside a whitespace run cuts the result at the same place. */
  lemma CollapseAppend(a: string, b: string)
    requires !(EndsWithSpace(a) && StartsWithSpace(b))
    ensures Collapse(a + b) == Collapse(a) + Collapse(b)
  {
    CollapseFromAppend(a, b, false);
    if a != [] && IsSpace(a[|a| - 1]) {
      assert CollapseFrom(b, true) == CollapseFrom(b, false);
    }
  }

  /** The scan of `a + b` is the scan of `a` followed by the scan of `b`,
      started in whatever state `a` left it. */
  lemma {:induction false} CollapseFromAppend(a: string, b: string, afterSpace: bool)
    ensures CollapseFrom(a + b, afterSpace)
         == CollapseFrom(a, afterSpace)
            + CollapseFrom(b, if a == [] then afterSpace else IsSpace(a[|a| - 1]))
    decreases |a|
  {
    if a == [] {
      assert a + b == b;
    } else {
      assert (a + b)[0] == a[0];
      assert (a + b)[1..] == a[1..] + b;
      CollapseFromAppend(a[1..], b, IsSpace(a[0]));
      if |a| > 1 {
        assert a[1..][|a| - 2] == a[|a| - 1];
      }
    }
  }

  /** A whitespace run of any length and kind becomes one plain space. */
  lemma CollapseRun(w: string)
    requires w != [] && forall i :: 0 <= i < |w| ==> IsSpace(w[i])
    ensures Collapse(w) == " "
  {
    RunInsideRun(w[1..]);
  }

  /** Inside a run, the rest of the run is dropped. */
  lemma {:induction false} RunInsideRun(w: string)
    requires forall i :: 0 <= i < |w| ==> IsSpace(w[i])
    ensures CollapseFrom(w, true) == []
    decreases |w|
  {
    if w != [] {
      RunInsideRun(w[1..]);
    }
  }

  /** A text without whitespace is left alone. */
  lemma CollapseWord(x: string)
    requires forall i :: 0 <= i < |x| ==> !IsSpace(x[i])
    ensures Collapse(x) == x
  {
    CollapseNormal(x);
  }

  /** Two texts separated by a whitespace run are collapsed apart and
      joined by exactly one space. */
  lemma CollapseWordsApart(a: string, w: string, b: string)
    requires !EndsWithSpace(a) && !StartsWithSpace(b)
    requires w != [] && forall i :: 0 <= i < |w| ==> IsSpace(w[i])
    ensures Collapse(a + w + b) == Collapse(a) + " " + Collapse(b)
  {
    CollapseAppend(a, w);
    assert EndsWithSpace(a + w) by {
      assert (a + w)[|a + w| - 1] == w[|w| - 1];
    }
    CollapseAppend(a + w, b);
    CollapseRun(w);
  }

  /** `normalize` keeps two texts apart by exactly one space when
      whitespace separates them, and normalizes each on its own. */
  lemma NormalizeWordsApart(a: string, w: string, b: string)
    requires a != [] && b != [] && !EndsWithSpace(a) && !StartsWithSpace(b)
    requires w != [] && forall i :: 0 <= i < |w| ==> IsSpace(w[i])
    ensures Normalize(a + w + b) == Normalize(a) + " " + Normalize(b)
  {
    TrimFrontOnly(a);
    TrimBackOnly(b);
    TrimAround(a, w, b);
    CollapseWordsApart(TrimStart(a), w, TrimEnd(b));
  }

  /** A text that ends in a non-space character is trimmed at the front only. */
  lemma TrimFrontOnly(a: string)
    requires a != [] && !EndsWithSpace(a)
    ensures Trim(a) == TrimStart(a) && TrimStart(a) != []
    ensures !EndsWithSpace(TrimStart(a))
  {
    var ta := TrimStart(a);
    if ta != [] {
      assert ta[|ta| - 1] == a[|a| - 1];
    }
  }

  /** A text that starts with a non-space character is trimmed at the back only. */
  lemma TrimBackOnly(b: string)
    requires b != [] && !StartsWithSpace(b)
    ensures Trim(b) == TrimEnd(b) && TrimEnd(b) != []
    ensures !StartsWithSpace(TrimEnd(b))
  {
    var tb := TrimEnd(b);
    if tb != [] {
      assert tb[0] == b[0];
    }
  }

  /** Trimming `a + w + b` trims the front of `a` and the back of `b`. */
  lemma TrimAround(a: string, w: string, b: string)
    requires a != [] && b != [] && !EndsWithSpace(a) && !StartsWithSpace(b)
    ensures Trim(a + w + b) == TrimStart(a) + w + TrimEnd(b)
  {
    var ta, tb := TrimStart(a), TrimEnd(b);
    var x, y, z := a + w + b, w + b, ta + w;
    Associate(a, w, b);
    Associate(ta, w, b);
    TrimFrontOnly(a);
    TrimBackOnly(b);
    FrontOf(a, y);
    BackOf(z, b);
    TrimThrough(x, ta + y, z + tb);
    assert z + tb == ta + w + tb;
  }

  lemma TrimThrough(x: string, m: string, r: string)
    requires TrimStart(x) == m && TrimEnd(m) == r
    ensures Trim(x) == r
  {
  }

  lemma Associate(a: string, w: string, b: string)
    ensures a + w + b == a + (w + b)
  {
  }

  lemma FrontOf(a: string, rest: string)
    requires TrimStart(a) != []
    ensures TrimStart(a + rest) == TrimStart(a) + rest
  {
    TrimStartAppend(a, rest);
  }

  lemma BackOf(rest: string, b: string)
    requires TrimEnd(b) != []
    ensures TrimEnd(rest + b) == rest + TrimEnd(b)
  {
    TrimEndAppend(rest, b);
  }

  /** A string already in normal form is left alone by `Collapse`. */
  lemma CollapseNormal(s: string)
    requires NoDoubleSpace(s) && OnlyPlainSpaces(s)
    ensures Collapse(s) == s
  {
    CollapseFromNormal(s, false);
  }

  /** `CollapseNormal` for a scan that may start inside a whitespace run. */
  lemma {:induction false} CollapseFromNormal(s: string, afterSpace: bool)
    requires NoDoubleSpace(s) && OnlyPlainSpaces(s)
    requires !(afterSpace && StartsWithSpace(s))
    ensures CollapseFrom(s, afterSpace) == s
    decreases |s|
  {
    if s != [] {
      var t := s[1..];
      if |s| > 1 && IsSpace(s[0]) {
        assert !IsSpace(s[1]);
      }
      CollapseFromNormal(t, IsSpace(s[0]));
      assert s == [s[0]] + t;
    }
  }

  /** The strings `Normalize` leaves unchanged are exactly the normal ones. */
  lemma NormalizeFixpoint(s: string)
    ensures Normalize(s) == s <==> Normal(s)
  {
    if Normal(s) {
      assert TrimStart(s) == s;
      assert TrimEnd(s) == s;
      CollapseNormal(s);
    }
  }

  /** Normalising twice is the same as normalising once. */
  lemma NormalizeIdempotent(s: string)
    ensures Normalize(Normalize(s)) == Normalize(s)
  {
    NormalizeFixpoint(Normalize(s));
  }

  /** `k` occurs in `s` as a contiguous substring. */
  predicate IsInfix(k: string, s: string) {
    exists i :: 0 <= i <= |s| && k <= s[i..]
  }

  lemma InfixShift(k: string, s: string)
    requires |s| > 0 && !(k <= s)
    ensures IsInfix(k, s) <==> IsInfix(k, s[1..])
  {
    if IsInfix(k, s) {
      var i :| 0 <= i <= |s| && k <= s[i..];
      assert i != 0;
      assert s[1..][i - 1..] == s[i..];
    }
    if IsInfix(k, s[1..]) {
      var i :| 0 <= i <= |s[1..]| && k <= s[1..][i..];
      assert s[1..][i..] == s[i + 1..];
    }
  }

  /** `s.includes(k)`. */
  function Includes(s: string, k: string): (r: bool)
    ensures r <==> IsInfix(k, s)
    decreases |s|
  {
    if k <= s then
      assert s[0..] == s;
      true
    else if s == [] then
      false
    else
      InfixShift(k, s);
      Includes(s[1..], k)
  }

  /** Containment survives putting text on either side. */
  lemma {:induction false} InfixExtend(k: string, s: string, before: string, after: string)
    requires IsInfix(k, s)
    ensures IsInfix(k, before + s + after)
  {
    var i :| 0 <= i <= |s| && k <= s[i..];
    var u := before + s + after;
    var j := |before| + i;
    assert u[j..] == s[i..] + after;
  }

  /** `s.replace(/a/g, b)` for a single character `a`. */
  function ReplaceChar(s: string, a: char, b: char): (r: string)
    ensures |r| == |s|
    ensures forall i :: 0 <= i < |s| ==> r[i] == (if s[i] == a then b else s[i])
  {
    seq(|s|, i requires 0 <= i < |s| => if s[i] == a then b else s[i])
  }

  /** `parts.join(sep)` for a non-empty list. */
  function Join(parts: seq<string>, sep: char): string
    requires |parts| > 0
  {
    if |parts| == 1 then parts[0] else parts[0] + [sep] + Join(parts[1..], sep)
  }

  /** `s.split(sep)`: the pieces between occurrences of `sep`. */
  function Split(s: string, sep: char): (r: seq<string>)
    ensures |r| > 0
    ensures forall i :: 0 <= i < |r| ==> sep !in r[i]
    decreases |s|
  {
    if s == [] then [[]]
    else
      var rest := Split(s[1..], sep);
      if s[0] == sep then [[]] + rest
      else [[s[0]] + rest[0]] + rest[1..]
  }

  lemma {:induction false} SplitNoSep(a: string, sep: char)
    requires sep !in a
    ensures Split(a, sep) == [a]
    decreases |a|
  {
    if a != [] {
      SplitNoSep(a[1..], sep);
      assert a == [a[0]] + a[1..];
    }
  }

  lemma {:induction false} SplitAfterPiece(a: string, sep: char, b: string)
    requires sep !in a
    ensures Split(a + [sep] + b, sep) == [a] + Split(b, sep)
    decreases |a|
  {
    var s := a + [sep] + b;
    if a == [] {
      assert s[1..] == b;
    } else {
      assert s[1..] == a[1..] + [sep] + b;
      SplitAfterPiece(a[1..], sep, b);
      assert a == [a[0]] + a[1..];
    }
  }

  /** `split` undoes `join` when no piece contains the separator. */
  lemma {:induction false} SplitJoin(parts: seq<string>, sep: char)
    requires |parts| > 0
    requires forall i :: 0 <= i < |parts| ==> sep !in parts[i]
    ensures Split(Join(parts, sep), sep) == parts
    decreases |parts|
  {
    if |parts| == 1 {
      SplitNoSep(parts[0], sep);
    } else {
      SplitJoin(parts[1..], sep);
      SplitAfterPiece(parts[0], sep, Join(parts[1..], sep));
      assert parts == [parts[0]] + parts[1..];
    }
  }

  /** A character that occurs in no piece, and is not the separator, does
      not occur in the joined string. */
  lemma {:induction false} JoinAvoids(parts: seq<string>, sep: char, c: char)
    requires |parts| > 0 && c != sep
    requires forall i :: 0 <= i < |parts| ==> c !in parts[i]
    ensures c !in Join(parts, sep)
    decreases |parts|
  {
    if |parts| > 1 {
      JoinAvoids(parts[1..], sep, c);
      assert c !in parts[0];
    }
  }

  /** Trimming never introduces a character. */
  lemma TrimAvoids(s: string, c: char)
    requires c !in s
    ensures c !in Trim(s)
  {
  }

  /** Splitting three separator-free pieces joined by the separator. */
  lemma SplitThree(a: string, b: string, e: string, sep: char)
    requires sep !in a && sep !in b && sep !in e
    ensures Split(a + [sep] + b + [sep] + e, sep) == [a, b, e]
  {
    SplitNoSep(e, sep);
    SplitAfterPiece(b, sep, e);
    SplitAfterPiece(a, sep, b + [sep] + e);
    assert a + [sep] + b + [sep] + e == a + [sep] + (b + [sep] + e);
  }

  /** Two separator-free pieces joined by the separator. */
  lemma SplitTwo(a: string, b: string, sep: char)
    requires sep !in a && sep !in b
    ensures Split(a + [sep] + b, sep) == [a, b]
  {
    SplitNoSep(b, sep);
    SplitAfterPiece(a, sep, b);
  }

  /** The part of `prefix + mid + suffix` between a known prefix and suffix. */
  lemma Frame(prefix: string, mid: string, suffix: string)
    ensures var u := prefix + mid + suffix;
      && |u| >= |prefix| + |suffix|
      && prefix <= u
      && u[|u| - |suffix|..] == suffix
      && u[|prefix|..|u| - |suffix|] == mid
  {
  }
}
