/** `encodeURIComponent` (ECMA-262, section 19.2.6.5): every character
    outside the unreserved set is written as the `%XX` escapes of its UTF-8
    bytes. `Decode` is the inverse used to read parameters back out of a URL;
    `DecodeEncode` proves the pair round-trips, so the encoder is injective. */
module UriComponent {
  import opened Wrappers

  type Byte = b: int | 0 <= b < 256

  /** The characters `encodeURIComponent` copies unchanged (uriUnreserved:
      letters, digits and `- _ . ! ~ * ' ( )`). */
  predicate Unreserved(c: char) {
    || ('A' <= c <= 'Z') || ('a' <= c <= 'z') || ('0' <= c <= '9')
    || c == '-' || c == '_' || c == '.' || c == '!' || c == '~'
    || c == '*' || c == '\'' || c == '(' || c == ')'
  }

  /** The alphabet of an encoded component. */
  predicate Encoded(c: char) {
    Unreserved(c) || c == '%'
  }

  /** A Unicode scalar value, i.e. a value Dafny's `char` can hold. */
  predicate IsScalar(n: int) {
    0 <= n < 0xD800 || 0xE000 <= n < 0x11_0000
  }

  /** The UTF-8 encoding of one character (RFC 3629, section 3). */
  function Utf8Char(c: char): (bs: seq<Byte>)
    ensures 1 <= |bs| <= 4
    ensures |bs| == 1 <==> c as int < 0x80
  {
    var n := c as int;
    if n < 0x80 then [n]
    else if n < 0x800 then [0xC0 + n / 64, 0x80 + n % 64]
    else if n < 0x1_0000 then [0xE0 + n / 4096, 0x80 + (n / 64) % 64, 0x80 + n % 64]
    else [0xF0 + n / 262144, 0x80 + (n / 4096) % 64, 0x80 + (n / 64) % 64, 0x80 + n % 64]
  }

  function Utf8(s: string): seq<Byte> {
    if s == [] then [] else Utf8Char(s[0]) + Utf8(s[1..])
  }

  predicate Continuation(b: Byte) {
    0x80 <= b < 0xC0
  }

  function ScalarAt(n: int, k: nat): Option<(char, nat)> {
    if IsScalar(n) then Some((n as char, k)) else None
  }

  /** Reads one character from the front of `bs`; the second component is
      the number of bytes it took. */
  function Utf8DecodeOne(bs: seq<Byte>): (r: Option<(char, nat)>)
    requires |bs| > 0
    ensures r.Some? ==> 1 <= r.value.1 <= |bs|
  {
    var b0: int := bs[0];
    var b1: int := if |bs| > 1 then bs[1] else 0;
    var b2: int := if |bs| > 2 then bs[2] else 0;
    var b3: int := if |bs| > 3 then bs[3] else 0;
    if b0 < 0x80 then Some((b0 as char, 1))
    else if 0xC0 <= b0 < 0xE0 then
      if |bs| >= 2 && Continuation(bs[1]) then
        ScalarAt((b0 - 0xC0) * 64 + (b1 - 0x80), 2)
      else None
    else if 0xE0 <= b0 < 0xF0 then
      if |bs| >= 3 && Continuation(bs[1]) && Continuation(bs[2]) then
        ScalarAt((b0 - 0xE0) * 4096 + (b1 - 0x80) * 64 + (b2 - 0x80), 3)
      else None
    else if 0xF0 <= b0 < 0xF8 then
      if |bs| >= 4 && Continuation(bs[1]) && Continuation(bs[2]) && Continuation(bs[3]) then
        ScalarAt((b0 - 0xF0) * 262144 + (b1 - 0x80) * 4096 + (b2 - 0x80) * 64 + (b3 - 0x80), 4)
      else None
    else None
  }

  function Utf8Decode(bs: seq<Byte>): Option<string>
    decreases |bs|
  {
    if bs == [] then Some([])
    else
      match Utf8DecodeOne(bs)
      case None => None
      case Some((c, k)) =>
        match Utf8Decode(bs[k..])
        case None => None
        case Some(rest) => Some([c] + rest)
  }

  lemma DivSteps(n: nat)
    ensures n / 4096 == (n / 64) / 64
    ensures n / 262144 == (n / 4096) / 64
  {
  }

  lemma Utf8DecodeTwo(c: char, rest: seq<Byte>)
    requires 0x80 <= c as int < 0x800
    ensures Utf8DecodeOne(Utf8Char(c) + rest) == Some((c, 2))
  {
    var n := c as int;
    var bs := Utf8Char(c) + rest;
    assert bs[0] == 0xC0 + n / 64 && bs[1] == 0x80 + n % 64;
    assert (n / 64) * 64 + n % 64 == n;
  }

  lemma Utf8DecodeThree(c: char, rest: seq<Byte>)
    requires 0x800 <= c as int < 0x1_0000
    ensures Utf8DecodeOne(Utf8Char(c) + rest) == Some((c, 3))
  {
    var n := c as int;
    var bs := Utf8Char(c) + rest;
    DivSteps(n);
    assert bs[0] == 0xE0 + n / 4096 && bs[1] == 0x80 + (n / 64) % 64 && bs[2] == 0x80 + n % 64;
    assert (n / 4096) * 4096 + ((n / 64) % 64) * 64 + n % 64 == n;
  }

  lemma Utf8DecodeFour(c: char, rest: seq<Byte>)
    requires 0x1_0000 <= c as int
    ensures Utf8DecodeOne(Utf8Char(c) + rest) == Some((c, 4))
  {
    var n := c as int;
    var bs := Utf8Char(c) + rest;
    DivSteps(n);
    assert bs[0] == 0xF0 + n / 262144 && bs[1] == 0x80 + (n / 4096) % 64;
    assert bs[2] == 0x80 + (n / 64) % 64 && bs[3] == 0x80 + n % 64;
    assert (n / 262144) * 262144 + ((n / 4096) % 64) * 4096 + ((n / 64) % 64) * 64 + n % 64 == n;
  }

  lemma Utf8DecodeChar(c: char, rest: seq<Byte>)
    ensures Utf8DecodeOne(Utf8Char(c) + rest) == Some((c, |Utf8Char(c)|))
  {
    var n := c as int;
    if n < 0x80 {
      assert (Utf8Char(c) + rest)[0] == n;
    } else if n < 0x800 {
      Utf8DecodeTwo(c, rest);
    } else if n < 0x1_0000 {
      Utf8DecodeThree(c, rest);
    } else {
      Utf8DecodeFour(c, rest);
    }
  }

  /** UTF-8 decoding undoes UTF-8 encoding. */
  lemma {:induction false} Utf8RoundTrip(s: string)
    ensures Utf8Decode(Utf8(s)) == Some(s)
    decreases |s|
  {
    if s != [] {
      var u := Utf8Char(s[0]);
      var bs := Utf8(s);
      assert bs == u + Utf8(s[1..]);
      Utf8DecodeChar(s[0], Utf8(s[1..]));
      assert bs[|u|..] == Utf8(s[1..]);
      Utf8RoundTrip(s[1..]);
      assert s == [s[0]] + s[1..];
    }
  }

  function HexDigit(n: int): (c: char)
    requires 0 <= n < 16
    ensures Unreserved(c)
  {
    if n < 10 then ('0' as int + n) as char else ('A' as int + n - 10) as char
  }

  function HexValue(c: char): Option<int> {
    if '0' <= c <= '9' then Some(c as int - '0' as int)
    else if 'A' <= c <= 'F' then Some(c as int - 'A' as int + 10)
    else if 'a' <= c <= 'f' then Some(c as int - 'a' as int + 10)
    else None
  }

  function PercentByte(b: Byte): string {
    ['%', HexDigit(b / 16), HexDigit(b % 16)]
  }

  function PercentBytes(bs: seq<Byte>): string {
    if bs == [] then [] else PercentByte(bs[0]) + PercentBytes(bs[1..])
  }

  /** One character of `encodeURIComponent`'s output. */
  function EncodeChar(c: char): string {
    if Unreserved(c) then [c] else PercentBytes(Utf8Char(c))
  }

  lemma {:induction false} PercentBytesEncoded(bs: seq<Byte>)
    ensures forall i :: 0 <= i < |PercentBytes(bs)| ==> Encoded(PercentBytes(bs)[i])
    decreases |bs|
  {
    if bs != [] {
      PercentBytesEncoded(bs[1..]);
    }
  }

  /** `encodeURIComponent(s)`. Dafny strings hold Unicode scalar values
      only, so the lone-surrogate `URIError` case cannot arise. */
  function Encode(s: string): (r: string)
    ensures forall i :: 0 <= i < |r| ==> Encoded(r[i])
    ensures (forall i :: 0 <= i < |s| ==> Unreserved(s[i])) ==> r == s
    decreases |s|
  {
    if s == [] then []
    else
      var head := EncodeChar(s[0]);
      var tail := Encode(s[1..]);
      PercentBytesEncoded(Utf8Char(s[0]));
      assert forall i :: 0 <= i < |head| ==> Encoded(head[i]);
      assert (forall i :: 0 <= i < |s| ==> Unreserved(s[i])) ==> head + tail == [s[0]] + s[1..] == s;
      head + tail
  }

  /** Reads `%XX` escapes and plain ASCII characters back into bytes. */
  function PercentDecode(s: string): Option<seq<Byte>>
    decreases |s|
  {
    if s == [] then Some([])
    else if s[0] == '%' then
      if |s| < 3 then None
      else
        match (HexValue(s[1]), HexValue(s[2]), PercentDecode(s[3..]))
        case (Some(hi), Some(lo), Some(rest)) =>
          if 0 <= hi * 16 + lo < 256 then Some([hi * 16 + lo] + rest) else None
        case _ => None
    else if s[0] as int < 0x80 then
      match PercentDecode(s[1..])
      case Some(rest) => Some([s[0] as int] + rest)
      case None => None
    else None
  }

  /** `decodeURIComponent` restricted to what `Encode` produces: percent
      decoding, then UTF-8 decoding. */
  function Decode(s: string): Option<string> {
    match PercentDecode(s)
    case None => None
    case Some(bs) => Utf8Decode(bs)
  }

  function Prepend(bs: seq<Byte>, o: Option<seq<Byte>>): Option<seq<Byte>> {
    match o
    case None => None
    case Some(rest) => Some(bs + rest)
  }

  lemma PercentByteDecode(b: Byte, t: string)
    ensures PercentDecode(PercentByte(b) + t) == Prepend([b], PercentDecode(t))
  {
    var s := PercentByte(b) + t;
    assert s[0] == '%' && s[1] == HexDigit(b / 16) && s[2] == HexDigit(b % 16);
    assert s[3..] == t;
    assert HexValue(HexDigit(b / 16)) == Some(b / 16);
    assert HexValue(HexDigit(b % 16)) == Some(b % 16);
  }

  lemma {:induction false} PercentBytesDecode(bs: seq<Byte>, t: string)
    ensures PercentDecode(PercentBytes(bs) + t) == Prepend(bs, PercentDecode(t))
    decreases |bs|
  {
    if bs == [] {
      assert PercentBytes(bs) + t == t;
      PrependNothing(PercentDecode(t));
    } else {
      var rest := PercentBytes(bs[1..]) + t;
      assert PercentBytes(bs) + t == PercentByte(bs[0]) + rest;
      PercentByteDecode(bs[0], rest);
      PercentBytesDecode(bs[1..], t);
      PrependTwice(bs[0], bs[1..], PercentDecode(t));
      assert [bs[0]] + bs[1..] == bs;
    }
  }

  lemma PrependNothing(o: Option<seq<Byte>>)
    ensures Prepend([], o) == o
  {
    if o.Some? {
      assert [] + o.value == o.value;
    }
  }

  lemma PrependTwice(b: Byte, bs: seq<Byte>, o: Option<seq<Byte>>)
    ensures Prepend([b], Prepend(bs, o)) == Prepend([b] + bs, o)
  {
    if o.Some? {
      assert [b] + (bs + o.value) == ([b] + bs) + o.value;
    }
  }

  lemma {:induction false} PercentDecodeEncode(s: string)
    ensures PercentDecode(Encode(s)) == Some(Utf8(s))
    decreases |s|
  {
    if s != [] {
      var c := s[0];
      PercentDecodeEncode(s[1..]);
      var tail := Encode(s[1..]);
      if Unreserved(c) {
        var e := [c] + tail;
        assert e[1..] == tail;
        assert Utf8Char(c) == [c as int];
      } else {
        PercentBytesDecode(Utf8Char(c), tail);
      }
    }
  }

  /** Decoding an encoded component gives back the original text. */
  lemma DecodeEncode(s: string)
    ensures Decode(Encode(s)) == Some(s)
  {
    PercentDecodeEncode(s);
    Utf8RoundTrip(s);
  }

  /** Distinct texts never share an encoding. */
  lemma EncodeInjective(a: string, b: string)
    requires Encode(a) == Encode(b)
    ensures a == b
  {
    DecodeEncode(a);
    DecodeEncode(b);
  }
}
