/** Percent-coding: `url_path_segment` and `public_url` of storage.rs, and the
    decoder onshape.rs applies to download names. */
module PercentCoding {
  import opened Core
  import Utf8

  const PERCENT: byte := 0x25

  /** The bytes left as they are: the unreserved characters of section 2.3 of RFC 3986. */
  predicate Unreserved(b: byte) {
    || 0x41 <= b <= 0x5A || 0x61 <= b <= 0x7A || 0x30 <= b <= 0x39
    || b == 0x2D || b == 0x5F || b == 0x2E || b == 0x7E
  }

  function HexDigit(n: nat): (c: char)
    requires n < 16
    ensures c as int < 0x80 && c != '%' && HexNibble(c as int) == Some(n)
  {
    if n < 10 then (0x30 + n) as char else (0x41 + n - 10) as char
  }

  function EscapeByte(b: byte): string {
    if Unreserved(b) then [b as char] else ['%', HexDigit(b / 16), HexDigit(b % 16)]
  }

  function EscapeBytes(bytes: seq<byte>): string {
    if bytes == [] then [] else EscapeByte(bytes[0]) + EscapeBytes(bytes[1..])
  }

  /** `url_path_segment`. */
  function Segment(value: string): string {
    EscapeBytes(Utf8.Encode(value))
  }

  function HexNibble(b: byte): (r: Option<nat>)
    ensures r.Some? ==> r.value < 16
  {
    if 0x30 <= b <= 0x39 then Some(b - 0x30)
    else if 0x61 <= b <= 0x66 then Some(b - 0x61 + 10)
    else if 0x41 <= b <= 0x46 then Some(b - 0x41 + 10)
    else None
  }

  // ---- Decoding

  function Prepend(bytes: seq<byte>, rest: Option<seq<byte>>): Option<seq<byte>> {
    if rest.None? then None else Some(bytes + rest.value)
  }

  lemma PrependTwice(a: seq<byte>, b: seq<byte>, rest: Option<seq<byte>>)
    ensures Prepend(a, Prepend(b, rest)) == Prepend(a + b, rest)
    ensures Prepend([], rest) == rest
  {
    if rest.Some? {
      assert a + (b + rest.value) == a + b + rest.value;
      assert [] + rest.value == rest.value;
    }
  }

  /** A percent sign starts an escape only if two more bytes follow it; then they
      must be hexadecimal digits. */
  function Unescape(bytes: seq<byte>): Option<seq<byte>> {
    if bytes == [] then Some([])
    else if bytes[0] == PERCENT && |bytes| > 2 then
      if HexNibble(bytes[1]).None? || HexNibble(bytes[2]).None? then None
      else Prepend([HexNibble(bytes[1]).value * 16 + HexNibble(bytes[2]).value], Unescape(bytes[3..]))
    else Prepend([bytes[0]], Unescape(bytes[1..]))
  }

  function Decoded(value: string): Option<string> {
    var bytes := Unescape(Utf8.Encode(value));
    if bytes.None? then None else Utf8.Decode(bytes.value)
  }

  /** `percent_decode`. */
  method PercentDecode(value: string) returns (r: Option<string>)
    ensures r == Decoded(value)
  {
    var bytes := Utf8.Encode(value);
    var decoded: seq<byte>, index := [], 0;
    assert bytes[0..] == bytes;
    PrependTwice([], [], Unescape(bytes));
    while index < |bytes|
      invariant index <= |bytes|
      invariant Unescape(bytes) == Prepend(decoded, Unescape(bytes[index..]))
    {
      var b := bytes[index];
      assert bytes[index..][0] == b && bytes[index..][1..] == bytes[index + 1..];
      if b == PERCENT && index + 2 < |bytes| {
        assert bytes[index..][3..] == bytes[index + 3..];
        var high, low := HexNibble(bytes[index + 1]), HexNibble(bytes[index + 2]);
        if high.None? || low.None? {
          return None;
        }
        PrependTwice(decoded, [high.value * 16 + low.value], Unescape(bytes[index + 3..]));
        decoded := decoded + [high.value * 16 + low.value];
        index := index + 3;
      } else {
        PrependTwice(decoded, [b], Unescape(bytes[index + 1..]));
        decoded := decoded + [b];
        index := index + 1;
      }
    }
    assert bytes[index..] == [];
    assert decoded + [] == decoded;
    return Utf8.Decode(decoded);
  }

  lemma AsciiEncodes(c: char, rest: string)
    requires c as int < 0x80
    ensures Utf8.Encode([c] + rest) == [c as int] + Utf8.Encode(rest)
  {
    assert ([c] + rest)[1..] == rest;
  }

  lemma EscapedByteIsAscii(b: byte)
    ensures Utf8.Encode(EscapeByte(b)) == if Unreserved(b) then [b] else [PERCENT, HexDigit(b / 16) as int, HexDigit(b % 16) as int]
  {
    hide Utf8.Encode;
    assert Utf8.Encode([]) == [] by { Utf8.EncodeEmpty(); }
    if Unreserved(b) {
      AsciiEncodes(b as char, []);
      assert [b as char] + [] == EscapeByte(b);
    } else {
      var high, low := HexDigit(b / 16), HexDigit(b % 16);
      AsciiEncodes(low, []);
      AsciiEncodes(high, [low] + []);
      AsciiEncodes('%', [high] + ([low] + []));
      assert ['%'] + ([high] + ([low] + [])) == EscapeByte(b);
    }
  }

  lemma UnescapeByte(b: byte, rest: seq<byte>)
    ensures Unescape(Utf8.Encode(EscapeByte(b)) + rest) == Prepend([b], Unescape(rest))
  {
    hide Utf8.Encode, EscapeByte;
    EscapedByteIsAscii(b);
    var e := Utf8.Encode(EscapeByte(b));
    assert (e + rest)[|e|..] == rest;
  }

  lemma {:induction false} UnescapeInvertsEscape(bytes: seq<byte>, rest: seq<byte>)
    ensures Unescape(Utf8.Encode(EscapeBytes(bytes)) + rest) == Prepend(bytes, Unescape(rest))
  {
    hide EscapeByte, Utf8.Encode, Unescape;
    if bytes == [] {
      Utf8.EncodeEmpty();
      assert Utf8.Encode(EscapeBytes(bytes)) + rest == rest;
      PrependTwice([], [], Unescape(rest));
    } else {
      var head, tail := EscapeByte(bytes[0]), EscapeBytes(bytes[1..]);
      Utf8.EncodeAppend(head, tail);
      assert Utf8.Encode(head) + Utf8.Encode(tail) + rest == Utf8.Encode(head) + (Utf8.Encode(tail) + rest);
      UnescapeByte(bytes[0], Utf8.Encode(tail) + rest);
      UnescapeInvertsEscape(bytes[1..], rest);
      PrependTwice([bytes[0]], bytes[1..], Unescape(rest));
      assert [bytes[0]] + bytes[1..] == bytes;
    }
  }

  /** Decoding an encoded segment gives it back, for every string. */
  lemma SegmentRoundTrip(value: string)
    ensures Decoded(Segment(value)) == Some(value)
  {
    var bytes := Utf8.Encode(value);
    UnescapeInvertsEscape(bytes, []);
    assert Utf8.Encode(Segment(value)) + [] == Utf8.Encode(Segment(value));
    assert bytes + [] == bytes;
    Utf8.DecodeEncode(value);
  }

  lemma SegmentIsInjective(a: string, b: string)
    requires Segment(a) == Segment(b)
    ensures a == b
  {
    SegmentRoundTrip(a);
    SegmentRoundTrip(b);
  }

  predicate SegmentChar(c: char) {
    c == '%' || (c as int < 0x80 && Unreserved(c as int))
  }

  lemma {:induction false} SegmentCharacters(bytes: seq<byte>)
    ensures forall c :: c in EscapeBytes(bytes) ==> SegmentChar(c)
  {
    if bytes != [] {
      SegmentCharacters(bytes[1..]);
    }
  }

  const UPPER := "0123456789ABCDEF"
  const LOWER := "0123456789abcdef"

  /** Escapes are written with upper-case digits, and read with digits of either case but
      with nothing else. */
  lemma DigitsExact(n: nat, b: byte)
    requires n < 16
    ensures HexDigit(n) == UPPER[n]
    ensures HexNibble(b) == Some(n) <==> b == UPPER[n] as int || b == LOWER[n] as int
    ensures HexNibble(b).Some? <==> exists i: nat :: i < 16 && (b == UPPER[i] as int || b == LOWER[i] as int)
  {
    assert forall i: nat :: i < 16 && (b == UPPER[i] as int || b == LOWER[i] as int) ==> HexNibble(b) == Some(i);
    if HexNibble(b).Some? {
      var i := HexNibble(b).value;
      assert b == UPPER[i] as int || b == LOWER[i] as int;
    }
  }

  /** The characters a segment leaves as they are, one by one; every other character comes
      out as an escape or more. */
  lemma ShownExact(c: char)
    ensures Segment([c]) == [c] <==> 'A' <= c <= 'Z' || 'a' <= c <= 'z' || '0' <= c <= '9' || c in "-_.~"
    ensures Segment([c]) != [c] ==> |Segment([c])| >= 3 && Segment([c])[0] == '%'
  {
    var bytes := Utf8.EncodeChar(c);
    assert Utf8.Encode([c]) == bytes by {
      assert [c][1..] == [];
      Utf8.EncodeEmpty();
      assert bytes + [] == bytes;
    }
    assert Segment([c]) == EscapeByte(bytes[0]) + EscapeBytes(bytes[1..]);
    if c as int < 0x80 { assert bytes[1..] == []; }
  }

  // ---- The case of hexadecimal digits

  /** The same byte, or the same letter from A to F in the other case. */
  predicate SameDigit(a: byte, b: byte) {
    a == b || (0x41 <= a <= 0x46 && b == a + 0x20) || (0x41 <= b <= 0x46 && a == b + 0x20)
  }

  /** Texts that differ at most in the case of the digits of their escapes. */
  predicate SameEscapes(a: seq<byte>, b: seq<byte>) {
    |a| == |b| &&
    if a == [] then true
    else if a[0] == PERCENT && |a| > 2
    then b[0] == PERCENT && SameDigit(a[1], b[1]) && SameDigit(a[2], b[2]) && SameEscapes(a[3..], b[3..])
    else a[0] == b[0] && SameEscapes(a[1..], b[1..])
  }

  lemma {:induction false} UnescapeIgnoresCase(a: seq<byte>, b: seq<byte>)
    requires SameEscapes(a, b)
    ensures Unescape(a) == Unescape(b)
  {
    if a != [] {
      if a[0] == PERCENT && |a| > 2 {
        UnescapeIgnoresCase(a[3..], b[3..]);
      } else {
        UnescapeIgnoresCase(a[1..], b[1..]);
      }
    }
  }

  /** A segment written with digits in any case, each in its own, is read all the same. */
  lemma AnyCaseIsRead(value: string, written: string)
    requires SameEscapes(Utf8.Encode(Segment(value)), Utf8.Encode(written))
    ensures Decoded(written) == Some(value)
  {
    UnescapeIgnoresCase(Utf8.Encode(Segment(value)), Utf8.Encode(written));
    SegmentRoundTrip(value);
  }

  // ---- Public URLs

  function Split(s: string, separator: char): (parts: seq<string>)
    ensures |parts| > 0
    ensures forall p :: p in parts ==> separator !in p
  {
    if s == [] then [[]]
    else
      var rest := Split(s[1..], separator);
      if s[0] == separator then [[]] + rest else [[s[0]] + rest[0]] + rest[1..]
  }

  function Join(parts: seq<string>, separator: char): string {
    if parts == [] then [] else if |parts| == 1 then parts[0] else parts[0] + [separator] + Join(parts[1..], separator)
  }

  lemma {:induction false} JoinSplit(s: string, separator: char)
    ensures Join(Split(s, separator), separator) == s
  {
    if s != [] {
      JoinSplit(s[1..], separator);
      var rest, all := Split(s[1..], separator), Split(s, separator);
      if s[0] == separator {
        assert all[1..] == rest && all[0] == [];
        assert Join(all, separator) == [] + [separator] + s[1..];
      } else {
        assert all[1..] == rest[1..] && all[0] == [s[0]] + rest[0];
        assert Join(all, separator) == [s[0]] + Join(rest, separator);
      }
    }
  }

  lemma {:induction false} SplitWhole(s: string, separator: char)
    requires separator !in s
    ensures Split(s, separator) == [s]
  {
    if s != [] {
      SplitWhole(s[1..], separator);
      assert [s[0]] + s[1..] == s;
    }
  }

  lemma {:induction false} SplitJoined(head: string, tail: string, separator: char)
    requires separator !in head && separator !in tail
    ensures Split(head + [separator] + tail, separator) == [head, tail]
  {
    var s := head + [separator] + tail;
    if head == [] {
      assert s[1..] == tail;
      SplitWhole(tail, separator);
    } else {
      assert s[1..] == head[1..] + [separator] + tail;
      SplitJoined(head[1..], tail, separator);
      assert [head[0]] + head[1..] == head;
    }
  }

  function Segments(parts: seq<string>): (r: seq<string>)
    ensures |r| == |parts| && forall i :: 0 <= i < |parts| ==> r[i] == Segment(parts[i])
  {
    if parts == [] then [] else [Segment(parts[0])] + Segments(parts[1..])
  }

  function TrimSlashes(base: string): string {
    if base != [] && base[|base| - 1] == '/' then TrimSlashes(base[..|base| - 1]) else base
  }

  function PublicPath(key: string): string {
    Join(Segments(Split(key, '/')), '/')
  }

  function PublicUrl(base: string, key: string): string {
    TrimSlashes(base) + "/" + PublicPath(key)
  }

  lemma {:induction false} UnescapePath(parts: seq<string>)
    requires parts != []
    ensures Unescape(Utf8.Encode(Join(Segments(parts), '/'))) == Some(Utf8.Encode(Join(parts, '/')))
  {
    var bytes := Utf8.Encode(parts[0]);
    if |parts| == 1 {
      UnescapeInvertsEscape(bytes, []);
      assert Utf8.Encode(Segment(parts[0])) + [] == Utf8.Encode(Segment(parts[0]));
      assert bytes + [] == bytes;
    } else {
      UnescapePath(parts[1..]);
      var head, tail := Segment(parts[0]), Join(Segments(parts[1..]), '/');
      assert Segments(parts)[1..] == Segments(parts[1..]);
      PathBytes(head, tail);
      PathBytes(parts[0], Join(parts[1..], '/'));
      UnescapeInvertsEscape(bytes, [0x2F] + Utf8.Encode(tail));
      assert ([0x2F] + Utf8.Encode(tail))[1..] == Utf8.Encode(tail);
    }
  }

  lemma PathBytes(head: string, tail: string)
    ensures Utf8.Encode(head + "/" + tail) == Utf8.Encode(head) + ([0x2F] + Utf8.Encode(tail))
  {
    assert head + "/" + tail == head + ("/" + tail);
    Utf8.EncodeAppend(head, "/" + tail);
    Utf8.EncodeAppend("/", tail);
    assert Utf8.Encode("/") == [0x2F];
  }

  /** The base without the slashes it ends with. */
  lemma {:induction false} TrimSlashesExact(base: string)
    ensures var trimmed := TrimSlashes(base);
            && trimmed <= base && (forall i :: |trimmed| <= i < |base| ==> base[i] == '/')
            && (trimmed != [] ==> trimmed[|trimmed| - 1] != '/')
  {
    if base != [] && base[|base| - 1] == '/' { TrimSlashesExact(base[..|base| - 1]); }
  }

  /** The key can be read back from its public URL, whatever it contains. */
  lemma PublicUrlRestoresKey(base: string, key: string)
    ensures var url, start := PublicUrl(base, key), |TrimSlashes(base)| + 1;
            start <= |url| && Decoded(url[start..]) == Some(key)
  {
    UnescapePath(Split(key, '/'));
    JoinSplit(key, '/');
    Utf8.DecodeEncode(key);
    assert PublicUrl(base, key)[|TrimSlashes(base)| + 1..] == PublicPath(key);
  }

  lemma PublicUrlIsInjective(base: string, a: string, b: string)
    requires PublicUrl(base, a) == PublicUrl(base, b)
    ensures a == b
  {
    PublicUrlRestoresKey(base, a);
    PublicUrlRestoresKey(base, b);
  }

  // ---- Extended parameter values

  function Lower(c: char): char {
    if 'A' <= c <= 'Z' then ((c as int) + 32) as char else c
  }

  /** `eq_ignore_ascii_case`. */
  predicate SameIgnoringCase(a: string, b: string) {
    |a| == |b| && forall i :: 0 <= i < |a| ==> Lower(a[i]) == Lower(b[i])
  }

  /** The first position of `''`. */
  function QuotePair(s: string): Option<nat> {
    if |s| < 2 then None
    else if s[0] == '\'' && s[1] == '\'' then Some(0)
    else
      var later := QuotePair(s[1..]);
      if later.None? then None else Some(later.value + 1)
  }

  lemma {:induction false} QuotePairExact(s: string)
    ensures QuotePair(s).Some? ==> QuotePair(s).value + 2 <= |s|
    ensures forall i :: 0 <= i < |s| - 1 && s[i] == '\'' && s[i + 1] == '\'' ==> QuotePair(s).Some? && QuotePair(s).value <= i
    ensures QuotePair(s).Some? ==> s[QuotePair(s).value] == '\'' && s[QuotePair(s).value + 1] == '\''
  {
    if |s| >= 2 && !(s[0] == '\'' && s[1] == '\'') {
      QuotePairExact(s[1..]);
      forall i | 0 <= i < |s| - 1 && s[i] == '\'' && s[i + 1] == '\''
        ensures QuotePair(s).Some? && QuotePair(s).value <= i
      {
        assert s[1..][i - 1] == '\'' && s[1..][i] == '\'';
      }
    }
  }

  /** `decode_rfc8187_filename`. */
  function DecodeExtended(value: string): Option<string> {
    QuotePairExact(value);
    var split := QuotePair(value);
    if split.None? || !SameIgnoringCase(value[..split.value], "UTF-8") then None
    else Decoded(value[split.value + 2..])
  }

  /** An extended value with an empty language, in any spelling of the charset,
      decodes to the name it was made from. */
  lemma ExtendedRoundTrip(charset: string, name: string)
    requires SameIgnoringCase(charset, "UTF-8")
    ensures DecodeExtended(charset + "''" + Segment(name)) == Some(name)
  {
    var value := charset + "''" + Segment(name);
    QuotePairExact(value);
    assert value[5] == '\'' && value[6] == '\'';
    forall i | 0 <= i < 5 ensures value[i] != '\'' {
      assert value[i] == charset[i] && Lower(charset[i]) == Lower("UTF-8"[i]);
    }
    assert QuotePair(value) == Some(5);
    assert value[..5] == charset && value[7..] == Segment(name);
    SegmentRoundTrip(name);
  }

  /** Names are compared up to the case of the letters from A to Z. */
  lemma SameIgnoringCaseExact(a: string, b: string)
    ensures SameIgnoringCase(a, b)
            <==> |a| == |b| && forall i :: 0 <= i < |a| ==>
                   || a[i] == b[i]
                   || ('A' <= a[i] <= 'Z' && b[i] as int == a[i] as int + 32)
                   || ('A' <= b[i] <= 'Z' && a[i] as int == b[i] as int + 32)
  {
  }

  /** Without a language a value is read exactly if its charset is some spelling of UTF-8. */
  lemma OtherCharsetsAreRefused(charset: string, name: string)
    requires '\'' !in charset
    ensures DecodeExtended(charset + "''" + Segment(name))
            == if |charset| == 5 && charset[0] in "Uu" && charset[1] in "Tt" && charset[2] in "Ff" && charset[3..] == "-8"
               then Some(name) else None
  {
    if SameIgnoringCase(charset, "UTF-8") {
      ExtendedRoundTrip(charset, name);
      assert forall i :: 0 <= i < 5 ==> Lower(charset[i]) == Lower("UTF-8"[i]);
    } else {
      var value := charset + "''" + Segment(name);
      QuotePairExact(value);
      assert value[|charset|] == '\'' && value[|charset| + 1] == '\'';
      assert forall i :: 0 <= i < |charset| ==> value[i] == charset[i];
      assert QuotePair(value) == Some(|charset|);
      assert value[..|charset|] == charset;
      if |charset| == 5 && charset[3..] == "-8" { assert charset[3] == charset[3..][0] && charset[4] == charset[3..][1]; }
    }
  }

  lemma OnlyTwoQuotes(value: string, first: nat, second: nat)
    requires first + 1 < second
    requires forall i :: 0 <= i < |value| && value[i] == '\'' ==> i == first || i == second
    ensures QuotePair(value) == None
  {
    QuotePairExact(value);
  }

  lemma QuotesOf(charset: string, language: string, tail: string)
    requires '\'' !in charset && '\'' !in language && '\'' !in tail
    ensures var value := charset + "'" + language + "'" + tail;
            forall i :: 0 <= i < |value| && value[i] == '\'' ==> i == |charset| || i == |charset| + 1 + |language|
  {
  }

  /** Section 3.2.1 of RFC 8187 allows a language between the quotes; the decoder
      does not: it refuses every value that names one. */
  lemma LanguagesAreRefused(charset: string, language: string, name: string)
    requires '\'' !in charset && '\'' !in language && language != []
    ensures DecodeExtended(charset + "'" + language + "'" + Segment(name)) == None
  {
    hide EscapeBytes, QuotePair;
    SegmentCharacters(Utf8.Encode(name));
    QuotesOf(charset, language, Segment(name));
    OnlyTwoQuotes(charset + "'" + language + "'" + Segment(name), |charset|, |charset| + 1 + |language|);
  }
}
