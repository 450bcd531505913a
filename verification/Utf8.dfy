/** UTF-8 as section 3 of RFC 3629 defines it, for the byte-level codecs: `as_bytes`
    and `String::from_utf8`. */
module Utf8 {
  import opened Core

  function EncodeChar(c: char): seq<byte> {
    var n := c as int;
    if n < 0x80 then [n]
    else if n < 0x800 then [0xC0 + n / 64, 0x80 + n % 64]
    else if n < 0x10000 then [0xE0 + n / 64 / 64, 0x80 + n / 64 % 64, 0x80 + n % 64]
    else [0xF0 + n / 64 / 64 / 64, 0x80 + n / 64 / 64 % 64, 0x80 + n / 64 % 64, 0x80 + n % 64]
  }

  function Encode(s: string): seq<byte> {
    if s == [] then [] else EncodeChar(s[0]) + Encode(s[1..])
  }

  predicate Continuation(b: byte) {
    0x80 <= b < 0xC0
  }

  predicate ScalarValue(n: int) {
    0 <= n < 0xD800 || 0xE000 <= n < 0x11_0000
  }

  /** Six more bits. */
  function Push(high: int, b: byte): int {
    high * 64 + (b - 0x80)
  }

  /** The number a lead byte and its continuation bytes spell, with their count,
      unless a shorter sequence spells it too. */
  function Spelled(bytes: seq<byte>): Option<(int, nat)>
    requires bytes != []
    ensures Spelled(bytes).Some? ==> 0 < Spelled(bytes).value.1 <= |bytes|
  {
    var b := bytes[0];
    if b < 0x80 then Some((b, 1))
    else if 0xC0 <= b < 0xE0 && |bytes| >= 2 && Continuation(bytes[1]) then
      var n := Push(b - 0xC0, bytes[1]);
      if n >= 0x80 then Some((n, 2)) else None
    else if 0xE0 <= b < 0xF0 && |bytes| >= 3 && Continuation(bytes[1]) && Continuation(bytes[2]) then
      var n := Push(Push(b - 0xE0, bytes[1]), bytes[2]);
      if n >= 0x800 then Some((n, 3)) else None
    else if 0xF0 <= b < 0xF8 && |bytes| >= 4 && Continuation(bytes[1]) && Continuation(bytes[2]) && Continuation(bytes[3]) then
      var n := Push(Push(Push(b - 0xF0, bytes[1]), bytes[2]), bytes[3]);
      if n >= 0x10000 then Some((n, 4)) else None
    else None
  }

  function Decode(bytes: seq<byte>): Option<string> {
    if bytes == [] then Some([])
    else
      var spelled := Spelled(bytes);
      if spelled.None? || !ScalarValue(spelled.value.0) then None
      else
        var rest := Decode(bytes[spelled.value.1..]);
        if rest.None? then None else Some([spelled.value.0 as char] + rest.value)
  }

  lemma PushDigits(n: int)
    requires n >= 0
    ensures Push(n / 64, 0x80 + n % 64) == n
  {
  }

  lemma DigitsOfPush(high: int, b: byte)
    requires high >= 0 && Continuation(b)
    ensures Push(high, b) / 64 == high && 0x80 + Push(high, b) % 64 == b
  {
  }

  lemma CharIsSpelled(c: char, rest: seq<byte>)
    ensures Spelled(EncodeChar(c) + rest) == Some((c as int, |EncodeChar(c)|))
  {
    hide Push;
    var n := c as int;
    PushDigits(n);
    PushDigits(n / 64);
    PushDigits(n / 64 / 64);
  }

  lemma SpelledInTwo(bytes: seq<byte>)
    requires bytes != [] && Spelled(bytes).Some? && Spelled(bytes).value.1 == 2
    ensures 0x80 <= Spelled(bytes).value.0 < 0x800
    ensures EncodeChar(Spelled(bytes).value.0 as char) == bytes[..2]
  {
    DigitsOfPush(bytes[0] - 0xC0, bytes[1]);
  }

  lemma SpelledInThree(bytes: seq<byte>)
    requires bytes != [] && Spelled(bytes).Some? && Spelled(bytes).value.1 == 3 && ScalarValue(Spelled(bytes).value.0)
    ensures EncodeChar(Spelled(bytes).value.0 as char) == bytes[..3]
  {
    var h := Push(bytes[0] - 0xE0, bytes[1]);
    DigitsOfPush(bytes[0] - 0xE0, bytes[1]);
    DigitsOfPush(h, bytes[2]);
  }

  lemma SpelledInFour(bytes: seq<byte>)
    requires bytes != [] && Spelled(bytes).Some? && Spelled(bytes).value.1 == 4 && ScalarValue(Spelled(bytes).value.0)
    ensures EncodeChar(Spelled(bytes).value.0 as char) == bytes[..4]
  {
    var h := Push(bytes[0] - 0xF0, bytes[1]);
    DigitsOfPush(bytes[0] - 0xF0, bytes[1]);
    DigitsOfPush(h, bytes[2]);
    DigitsOfPush(Push(h, bytes[2]), bytes[3]);
  }

  lemma {:induction false} SpelledIsEncoded(bytes: seq<byte>)
    requires bytes != [] && Spelled(bytes).Some? && ScalarValue(Spelled(bytes).value.0)
    ensures var spelled := Spelled(bytes).value; EncodeChar(spelled.0 as char) == bytes[..spelled.1]
  {
    hide Push;
    var size := Spelled(bytes).value.1;
    if size == 2 {
      SpelledInTwo(bytes);
    } else if size == 3 {
      SpelledInThree(bytes);
    } else if size == 4 {
      SpelledInFour(bytes);
    }
  }

  lemma {:induction false} DecodeEncode(s: string)
    ensures Decode(Encode(s)) == Some(s)
  {
    hide Spelled, EncodeChar;
    if s != [] {
      var head := EncodeChar(s[0]);
      CharIsSpelled(s[0], Encode(s[1..]));
      DecodeEncode(s[1..]);
      assert Encode(s)[|head|..] == Encode(s[1..]);
      assert Spelled(Encode(s)).Some?;
      assert [s[0]] + s[1..] == s;
    }
  }

  lemma {:induction false} EncodeDecode(bytes: seq<byte>)
    requires Decode(bytes).Some?
    ensures Encode(Decode(bytes).value) == bytes
    decreases |bytes|
  {
    hide Spelled, EncodeChar;
    if bytes != [] {
      var spelled := Spelled(bytes).value;
      SpelledIsEncoded(bytes);
      EncodeDecode(bytes[spelled.1..]);
      var s := Decode(bytes).value;
      assert s[0] == spelled.0 as char && s[1..] == Decode(bytes[spelled.1..]).value;
      assert bytes[..spelled.1] + bytes[spelled.1..] == bytes;
    }
  }

  lemma EncodeStep(c: char, rest: string)
    ensures Encode([c] + rest) == EncodeChar(c) + Encode(rest)
  {
    hide EncodeChar;
    assert ([c] + rest)[1..] == rest;
  }

  lemma {:induction false} EncodeAppend(s: string, t: string)
    ensures Encode(s + t) == Encode(s) + Encode(t)
  {
    hide Encode, EncodeChar;
    EncodeEmpty();
    if s == [] {
      assert s + t == t;
    } else {
      var rest := s[1..];
      assert s == [s[0]] + rest;
      calc {
        Encode(s + t);
        { assert s + t == [s[0]] + (rest + t); }
        Encode([s[0]] + (rest + t));
        { EncodeStep(s[0], rest + t); }
        EncodeChar(s[0]) + Encode(rest + t);
        { EncodeAppend(rest, t); }
        EncodeChar(s[0]) + (Encode(rest) + Encode(t));
        EncodeChar(s[0]) + Encode(rest) + Encode(t);
        { EncodeStep(s[0], rest); }
        Encode([s[0]] + rest) + Encode(t);
      }
    }
  }

  lemma EncodeEmpty()
    ensures Encode([]) == []
  {
  }
}
