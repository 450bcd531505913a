/** Content-Disposition values, onshape.rs: splitting a header into parameters,
    unquoting them, and choosing the download name. */
module Headers {
  import opened Core
  import PercentCoding
  import Utf8
  import Publication

  type Parameter = (string, string)

  // ---- Trimming

  /** Unicode White_Space, what `str::trim` removes. */
  predicate Space(c: char) {
    var n := c as int;
    || 0x9 <= n <= 0xD || n == 0x20 || n == 0x85 || n == 0xA0 || n == 0x1680 || 0x2000 <= n <= 0x200A
    || n == 0x2028 || n == 0x2029 || n == 0x202F || n == 0x205F || n == 0x3000
  }

  function TrimStart(s: string): string {
    if s != [] && Space(s[0]) then TrimStart(s[1..]) else s
  }

  function TrimEnd(s: string): string {
    if s != [] && Space(s[|s| - 1]) then TrimEnd(s[..|s| - 1]) else s
  }

  function Trim(s: string): string {
    TrimEnd(TrimStart(s))
  }

  predicate Trimmed(s: string) {
    s == [] || (!Space(s[0]) && !Space(s[|s| - 1]))
  }

  lemma TrimmedStays(s: string)
    requires Trimmed(s)
    ensures Trim(s) == s
    ensures s != [] ==> Trim(" " + s) == s
  {
    assert (" " + s)[1..] == s;
    assert TrimStart(" " + s) == TrimStart(s);
  }

  /** The characters with the White_Space property, one by one. */
  lemma SpacesExact(c: char)
    ensures Space(c) <==>
              c as int in {0x0009, 0x000A, 0x000B, 0x000C, 0x000D, 0x0020, 0x0085, 0x00A0, 0x1680, 0x2000, 0x2001, 0x2002, 0x2003,
                           0x2004, 0x2005, 0x2006, 0x2007, 0x2008, 0x2009, 0x200A, 0x2028, 0x2029, 0x202F, 0x205F, 0x3000}
  {
  }

  predicate Spaces(s: string) {
    forall i :: 0 <= i < |s| ==> Space(s[i])
  }

  lemma {:induction false} LeadingSpaces(spaces: string, s: string)
    requires Spaces(spaces)
    ensures TrimStart(spaces + s) == TrimStart(s)
  {
    if spaces == [] {
      assert spaces + s == s;
    } else {
      assert (spaces + s)[1..] == spaces[1..] + s;
      LeadingSpaces(spaces[1..], s);
    }
  }

  lemma {:induction false} TrailingSpaces(s: string, spaces: string)
    requires Spaces(spaces)
    ensures TrimEnd(s + spaces) == TrimEnd(s)
  {
    if spaces == [] {
      assert s + spaces == s;
    } else {
      assert (s + spaces)[..|s + spaces| - 1] == s + spaces[..|spaces| - 1];
      TrailingSpaces(s, spaces[..|spaces| - 1]);
    }
  }

  /** Trimming takes away exactly the white space at both ends. */
  lemma {:induction false} TrimExact(before: string, s: string, after: string)
    requires Spaces(before) && Trimmed(s) && Spaces(after)
    ensures Trim(before + s + after) == s
  {
    hide Space;
    assert before + s + after == before + (s + after);
    LeadingSpaces(before, s + after);
    if s == [] {
      assert s + after == after + [];
      LeadingSpaces(after, []);
    } else {
      assert (s + after)[0] == s[0];
      TrailingSpaces(s, after);
    }
  }

  // ---- Splitting at semicolons

  /** The pieces of the rest of a header value, given what has been collected of the
      current one. */
  function Pieces(s: string, current: string, quoted: bool, escaped: bool): seq<string> {
    if s == [] then [Trim(current)]
    else if escaped then Pieces(s[1..], current + [s[0]], quoted, false)
    else if s[0] == '\\' && quoted then Pieces(s[1..], current + [s[0]], quoted, true)
    else if s[0] == '"' then Pieces(s[1..], current + [s[0]], !quoted, false)
    else if s[0] == ';' && !quoted then [Trim(current)] + Pieces(s[1..], [], quoted, false)
    else Pieces(s[1..], current + [s[0]], quoted, false)
  }

  /** `split_header_parameters`. */
  method SplitHeaderParameters(value: string) returns (parts: seq<string>)
    ensures parts == Pieces(value, [], false, false)
  {
    parts := [];
    var current, quoted, escaped, i := [], false, false, 0;
    assert value[0..] == value;
    while i < |value|
      invariant i <= |value|
      invariant Pieces(value, [], false, false) == parts + Pieces(value[i..], current, quoted, escaped)
    {
      var ch := value[i];
      assert value[i..][0] == ch && value[i..][1..] == value[i + 1..];
      i := i + 1;
      if escaped {
        current := current + [ch];
        escaped := false;
      } else if ch == '\\' && quoted {
        current := current + [ch];
        escaped := true;
      } else if ch == '"' {
        quoted := !quoted;
        current := current + [ch];
      } else if ch == ';' && !quoted {
        assert parts + ([Trim(current)] + Pieces(value[i..], [], quoted, false))
            == parts + [Trim(current)] + Pieces(value[i..], [], quoted, false);
        parts := parts + [Trim(current)];
        current := [];
      } else {
        current := current + [ch];
      }
    }
    parts := parts + [Trim(current)];
  }

  // ---- Unquoting

  function Unescaped(s: string, escaped: bool): string {
    if s == [] then []
    else if escaped then [s[0]] + Unescaped(s[1..], false)
    else if s[0] == '\\' then Unescaped(s[1..], true)
    else [s[0]] + Unescaped(s[1..], false)
  }

  function Unquoted(value: string): string {
    if |value| >= 2 && value[0] == '"' && value[|value| - 1] == '"' then Unescaped(value[1..|value| - 1], false) else value
  }

  /** `unquote_header_value`. */
  method UnquoteHeaderValue(value: string) returns (r: string)
    ensures r == Unquoted(value)
  {
    if |value| >= 2 && value[0] == '"' && value[|value| - 1] == '"' {
      var inner := value[1..|value| - 1];
      var escaped, i := false, 0;
      r := [];
      assert inner[0..] == inner;
      while i < |inner|
        invariant i <= |inner|
        invariant Unescaped(inner, false) == r + Unescaped(inner[i..], escaped)
      {
        assert inner[i..][0] == inner[i] && inner[i..][1..] == inner[i + 1..];
        if escaped {
          r := r + [inner[i]];
          escaped := false;
        } else if inner[i] == '\\' {
          escaped := true;
        } else {
          r := r + [inner[i]];
        }
        i := i + 1;
      }
    } else {
      r := value;
    }
  }

  // ---- Parameters

  function Find(s: string, c: char): Option<nat> {
    if s == [] then None
    else if s[0] == c then Some(0)
    else
      var later := Find(s[1..], c);
      if later.None? then None else Some(later.value + 1)
  }

  lemma {:induction false} FindExact(s: string, c: char)
    ensures Find(s, c).Some? <==> c in s
    ensures Find(s, c).Some? ==> Find(s, c).value < |s| && s[Find(s, c).value] == c && c !in s[..Find(s, c).value]
  {
    if s != [] && s[0] != c {
      FindExact(s[1..], c);
      assert s == [s[0]] + s[1..];
      var later := Find(s[1..], c);
      if later.Some? {
        assert s[..later.value + 1] == [s[0]] + s[1..][..later.value];
      }
    }
  }

  /** One piece as a name and a value, or nothing if it has no equals sign. */
  function ParameterOf(piece: string): Option<Parameter> {
    var part := Trim(piece);
    FindExact(part, '=');
    var at := Find(part, '=');
    if at.None? then None else Some((Trim(part[..at.value]), Unquoted(Trim(part[at.value + 1..]))))
  }

  function ParametersOf(pieces: seq<string>): seq<Parameter> {
    if pieces == [] then []
    else
      var first := ParameterOf(pieces[0]);
      (if first.None? then [] else [first.value]) + ParametersOf(pieces[1..])
  }

  /** `content_disposition_parameters`. */
  function Parameters(value: string): seq<Parameter> {
    var pieces := Pieces(value, [], false, false);
    ParametersOf(if pieces == [] then [] else pieces[1..])
  }

  // ---- Printing

  /** Backslashes before quotes and backslashes, as section 5.6.4 of RFC 9110 writes
      quoted strings. */
  function Escaped(value: string): string {
    if value == [] then []
    else (if value[0] == '"' || value[0] == '\\' then ['\\', value[0]] else [value[0]]) + Escaped(value[1..])
  }

  function Quoted(value: string): string {
    "\"" + Escaped(value) + "\""
  }

  /** A parameter as it is written: its value between quotes, or bare. */
  datatype Written = Written(name: string, value: string, quoted: bool)

  function ValueOf(w: Written): string {
    if w.quoted then Quoted(w.value) else w.value
  }

  function Rendered(parameters: seq<Written>): string {
    if parameters == [] then []
    else "; " + parameters[0].name + "=" + ValueOf(parameters[0]) + Rendered(parameters[1..])
  }

  function Render(disposition: string, parameters: seq<Written>): string {
    disposition + Rendered(parameters)
  }

  /** What was written, name by name. */
  function Meant(parameters: seq<Written>): seq<Parameter> {
    if parameters == [] then [] else [(parameters[0].name, parameters[0].value)] + Meant(parameters[1..])
  }

  /** A token of section 5.6.2 of RFC 9110. */
  predicate Token(s: string) {
    s != [] && forall i :: 0 <= i < |s| ==> TokenChar(s[i])
  }

  predicate TokenChar(c: char) {
    || 'a' <= c <= 'z' || 'A' <= c <= 'Z' || '0' <= c <= '9'
    || c in "!#$%&'*+-.^_`|~"
  }

  predicate Plain(s: string) {
    forall i :: 0 <= i < |s| ==> s[i] != '"' && s[i] != ';'
  }

  /** What a name must be for the parser to read it back. Every token is. */
  predicate Readable(name: string) {
    Plain(name) && '=' !in name && Trimmed(name)
  }

  /** A bare value must not need quotes: every token and every extended value may be bare. */
  predicate Legible(w: Written) {
    Readable(w.name) && (w.quoted || (Plain(w.value) && Trimmed(w.value)))
  }

  lemma TokensAreReadable(name: string)
    requires Token(name)
    ensures Readable(name)
  {
    assert forall i :: 0 <= i < |name| ==> TokenChar(name[i]) && !Space(name[i]);
  }

  // ---- Reading back what was printed

  lemma {:induction false} ScanPlain(s: string, rest: string, current: string)
    requires Plain(s)
    ensures Pieces(s + rest, current, false, false) == Pieces(rest, current + s, false, false)
  {
    if s == [] {
      assert s + rest == rest && current + s == current;
    } else {
      assert (s + rest)[0] == s[0] && (s + rest)[1..] == s[1..] + rest;
      ScanPlain(s[1..], rest, current + [s[0]]);
      assert current + [s[0]] + s[1..] == current + s;
    }
  }

  /** Inside quotes an escaped value is collected whole, semicolons included. */
  lemma {:induction false} ScanEscaped(value: string, rest: string, current: string)
    ensures Pieces(Escaped(value) + rest, current, true, false) == Pieces(rest, current + Escaped(value), true, false)
  {
    if value == [] {
      assert Escaped(value) + rest == rest && current + Escaped(value) == current;
    } else {
      var c, tail := value[0], Escaped(value[1..]);
      var head := if c == '"' || c == '\\' then ['\\', c] else [c];
      ScanEscaped(value[1..], rest, current + head);
      assert Escaped(value) + rest == head + (tail + rest);
      assert current + head + tail == current + Escaped(value);
      ScanOne(c, tail + rest, current);
    }
  }

  lemma ScanOne(c: char, rest: string, current: string)
    ensures var head := if c == '"' || c == '\\' then ['\\', c] else [c];
            Pieces(head + rest, current, true, false) == Pieces(rest, current + head, true, false)
  {
    if c == '"' || c == '\\' {
      assert (['\\', c] + rest)[1..] == [c] + rest;
      assert ([c] + rest)[1..] == rest;
      assert current + ['\\'] + [c] == current + ['\\', c];
    } else {
      assert ([c] + rest)[1..] == rest;
    }
  }

  lemma ScanQuoted(value: string, rest: string, current: string)
    ensures Pieces(Quoted(value) + rest, current, false, false) == Pieces(rest, current + Quoted(value), false, false)
  {
    var e := Escaped(value);
    assert Quoted(value) + rest == "\"" + (e + ("\"" + rest));
    assert ("\"" + (e + ("\"" + rest)))[1..] == e + ("\"" + rest);
    ScanEscaped(value, "\"" + rest, current + "\"");
    assert ("\"" + rest)[1..] == rest;
    assert current + "\"" + e + "\"" == current + Quoted(value);
  }

  function PieceOf(w: Written): string {
    w.name + "=" + ValueOf(w)
  }

  function PiecesOf(parameters: seq<Written>): seq<string> {
    if parameters == [] then [] else [PieceOf(parameters[0])] + PiecesOf(parameters[1..])
  }

  lemma PieceIsTrimmed(w: Written)
    requires Legible(w)
    ensures Trimmed(PieceOf(w)) && Trim(" " + PieceOf(w)) == PieceOf(w)
  {
    var piece, value := PieceOf(w), ValueOf(w);
    assert piece[0] == if w.name == [] then '=' else w.name[0];
    assert piece[|piece| - 1] == if value == [] then '=' else value[|value| - 1];
    TrimmedStays(piece);
  }

  lemma ScanValue(w: Written, rest: string, current: string)
    requires Legible(w)
    ensures Pieces(ValueOf(w) + rest, current, false, false) == Pieces(rest, current + ValueOf(w), false, false)
  {
    if w.quoted { ScanQuoted(w.value, rest, current); } else { ScanPlain(w.value, rest, current); }
  }

  lemma ScanParameter(w: Written, rest: string, current: string)
    requires Legible(w)
    ensures Pieces("; " + w.name + "=" + ValueOf(w) + rest, current, false, false)
            == [Trim(current)] + Pieces(rest, " " + PieceOf(w), false, false)
  {
    hide ValueOf, Trim;
    var s := "; " + w.name + "=" + ValueOf(w) + rest;
    var lead := " " + w.name + "=";
    assert s[0] == ';' && s[1..] == lead + (ValueOf(w) + rest);
    ScanPlain(lead, ValueOf(w) + rest, []);
    ScanValue(w, rest, lead);
    assert [] + lead == lead;
    assert lead + ValueOf(w) == " " + PieceOf(w);
  }

  lemma {:induction false} ScanRendered(parameters: seq<Written>, current: string)
    requires forall i :: 0 <= i < |parameters| ==> Legible(parameters[i])
    ensures Pieces(Rendered(parameters), current, false, false) == [Trim(current)] + PiecesOf(parameters)
  {
    if parameters != [] {
      var w := parameters[0];
      ScanParameter(w, Rendered(parameters[1..]), current);
      PieceIsTrimmed(w);
      ScanRendered(parameters[1..], " " + PieceOf(w));
    }
  }

  lemma {:induction false} UnescapeEscaped(value: string)
    ensures Unescaped(Escaped(value), false) == value
  {
    if value != [] {
      var c, tail := value[0], Escaped(value[1..]);
      UnescapeEscaped(value[1..]);
      if c == '"' || c == '\\' {
        assert Escaped(value)[1..] == [c] + tail;
        assert ([c] + tail)[1..] == tail;
      } else {
        assert Escaped(value)[1..] == tail;
      }
    }
  }

  lemma PieceSplits(w: Written)
    requires Readable(w.name)
    ensures var piece := PieceOf(w);
            Find(piece, '=') == Some(|w.name|) && piece[..|w.name|] == w.name && piece[|w.name| + 1..] == ValueOf(w)
  {
    hide ValueOf, Find, Trimmed;
    var piece := PieceOf(w);
    FindExact(piece, '=');
    assert piece[|w.name|] == '=' && piece[..|w.name|] == w.name && piece[|w.name| + 1..] == ValueOf(w);
    var at := Find(piece, '=').value;
    assert forall i :: 0 <= i < |w.name| ==> piece[i] == w.name[i];
    assert forall i :: 0 <= i < at ==> piece[..at][i] == piece[i];
    assert at == |w.name|;
  }

  lemma QuotedReadsBack(value: string)
    ensures Unquoted(Trim(Quoted(value))) == value
  {
    hide Escaped, TrimStart, TrimEnd;
    var quoted := Quoted(value);
    assert quoted[0] == '"' && quoted[|quoted| - 1] == '"';
    TrimmedStays(quoted);
    assert quoted[1..|quoted| - 1] == Escaped(value);
    UnescapeEscaped(value);
  }

  lemma ValueReadsBack(w: Written)
    requires Legible(w)
    ensures Unquoted(Trim(ValueOf(w))) == w.value
  {
    if w.quoted {
      QuotedReadsBack(w.value);
    } else {
      TrimmedStays(w.value);
      assert w.value != [] ==> w.value[0] != '"';
    }
  }

  lemma ParameterReadsBack(w: Written)
    requires Legible(w)
    ensures ParameterOf(PieceOf(w)) == Some((w.name, w.value))
  {
    hide Find, Trim, Unquoted, ValueOf;
    PieceIsTrimmed(w);
    TrimmedStays(PieceOf(w));
    TrimmedStays(w.name);
    PieceSplits(w);
    ValueReadsBack(w);
    hide PieceOf;
  }

  lemma {:induction false} PaddedSplits(name: string, left: string, tail: string)
    requires '=' !in name && Spaces(left)
    ensures var part, at := name + left + "=" + tail, |name| + |left|;
            Find(part, '=') == Some(at) && part[..at] == name + left && part[at + 1..] == tail
  {
    hide Find;
    var part, at := name + left + "=" + tail, |name| + |left|;
    FindExact(part, '=');
    assert part[at] == '=' && part[..at] == name + left && part[at + 1..] == tail;
    var found := Find(part, '=').value;
    assert forall i :: 0 <= i < at ==> part[i] == (name + left)[i] && part[i] != '=';
    assert forall i :: 0 <= i < found ==> part[..found][i] == part[i];
    assert found == at;
  }

  lemma {:induction false} PaddedPart(name: string, left: string, right: string, value: string, before: string, after: string)
    requires name != [] && Trimmed(name) && Trimmed(value) && Spaces(before) && Spaces(left) && Spaces(right) && Spaces(after)
    ensures Trim(before + name + left + "=" + right + value + after)
            == name + left + "=" + if value == [] then [] else right + value
  {
    var tail := if value == [] then [] else right + value;
    var core := name + left + "=" + tail;
    assert core[0] == name[0] && core[|core| - 1] == if value == [] then '=' else value[|value| - 1];
    hide Space;
    assert Spaces(right + after);
    if value == [] {
      assert before + name + left + "=" + right + value + after == before + core + (right + after);
      TrimExact(before, core, right + after);
    } else {
      assert before + name + left + "=" + right + value + after == before + core + after;
      TrimExact(before, core, after);
    }
  }

  lemma ValueIsTrimmed(w: Written)
    requires Legible(w)
    ensures Trimmed(ValueOf(w)) && Trim(ValueOf(w)) == ValueOf(w)
  {
    if w.quoted { assert ValueOf(w)[0] == '"' && ValueOf(w)[|ValueOf(w)| - 1] == '"'; }
    TrimmedStays(ValueOf(w));
  }

  /** White space before and after the name and the value changes nothing. */
  lemma {:induction false} PaddingIsIgnored(w: Written, before: string, left: string, right: string, after: string)
    requires Legible(w) && w.name != [] && Spaces(before) && Spaces(left) && Spaces(right) && Spaces(after)
    ensures ParameterOf(before + w.name + left + "=" + right + ValueOf(w) + after) == Some((w.name, w.value))
  {
    hide Find, Trim, TrimStart, TrimEnd, Unquoted, ValueOf, Space;
    ValueIsTrimmed(w);
    PaddedPart(w.name, left, right, ValueOf(w), before, after);
    var tail := if ValueOf(w) == [] then [] else right + ValueOf(w);
    PaddedSplits(w.name, left, tail);
    TrimExact([], w.name, left);
    assert [] + w.name + left == w.name + left;
    TrimExact(right, ValueOf(w), []);
    assert right + ValueOf(w) + [] == right + ValueOf(w);
    TrimmedStays([]);
    ValueReadsBack(w);
  }

  lemma {:induction false} PiecesReadBack(parameters: seq<Written>)
    requires forall i :: 0 <= i < |parameters| ==> Legible(parameters[i])
    ensures ParametersOf(PiecesOf(parameters)) == Meant(parameters)
  {
    if parameters != [] {
      ParameterReadsBack(parameters[0]);
      PiecesReadBack(parameters[1..]);
      assert PiecesOf(parameters)[1..] == PiecesOf(parameters[1..]);
    }
  }

  /** The parser inverts the printer: any list of parameters with readable names, each
      value between quotes or, where it needs none, bare, is read back as it was meant. */
  lemma ParametersRoundTrip(disposition: string, parameters: seq<Written>)
    requires Plain(disposition)
    requires forall i :: 0 <= i < |parameters| ==> Legible(parameters[i])
    ensures Parameters(Render(disposition, parameters)) == Meant(parameters)
  {
    ScanPlain(disposition, Rendered(parameters), []);
    assert [] + disposition == disposition;
    ScanRendered(parameters, disposition);
    assert ([Trim(disposition)] + PiecesOf(parameters))[1..] == PiecesOf(parameters);
    PiecesReadBack(parameters);
  }

  // ---- Download names

  /** The first non-empty value under a name, ignoring case. */
  function Lookup(parameters: seq<Parameter>, name: string): Option<string> {
    if parameters == [] then None
    else if PercentCoding.SameIgnoringCase(parameters[0].0, name) && parameters[0].1 != [] then Some(parameters[0].1)
    else Lookup(parameters[1..], name)
  }

  predicate Answers(p: Parameter, name: string) {
    PercentCoding.SameIgnoringCase(p.0, name) && p.1 != ""
  }

  /** What is found is the value of the first parameter that has the name and a value. */
  lemma {:induction false} LookupExact(parameters: seq<Parameter>, name: string)
    ensures Lookup(parameters, name).None? <==> forall p :: p in parameters ==> !Answers(p, name)
    ensures Lookup(parameters, name).Some? ==>
              exists i :: 0 <= i < |parameters| && Answers(parameters[i], name) && Lookup(parameters, name).value == parameters[i].1
                          && forall k :: 0 <= k < i ==> !Answers(parameters[k], name)
  {
    if parameters != [] && !Answers(parameters[0], name) {
      LookupExact(parameters[1..], name);
      assert parameters == [parameters[0]] + parameters[1..];
      if Lookup(parameters, name).Some? {
        var i :| 0 <= i < |parameters[1..]| && Answers(parameters[1..][i], name) && Lookup(parameters, name).value == parameters[1..][i].1
                 && forall k :: 0 <= k < i ==> !Answers(parameters[1..][k], name);
        forall k | 0 <= k < i + 1 ensures !Answers(parameters[k], name) {
          if k > 0 { assert parameters[k] == parameters[1..][k - 1]; }
        }
        assert Answers(parameters[i + 1], name);
      }
    }
  }

  function ExtendedName(value: string): Option<string> {
    var encoded := Lookup(Parameters(value), "filename*");
    if encoded.None? then None else PercentCoding.DecodeExtended(encoded.value)
  }

  datatype NameSource = Extended | Basic

  /** `download_filename` for a header present as text. */
  function DownloadName(value: string): Option<(string, NameSource)> {
    var extended, basic := ExtendedName(value), Lookup(Parameters(value), "filename");
    if extended.Some? then Some((extended.value, Extended))
    else if basic.Some? then Some((basic.value, Basic))
    else None
  }

  /** A plain name and an extended one, each written with quotes or without. */
  function Attachment(fallback: string, name: string, quoteFallback: bool, quoteExtended: bool): string {
    Render("attachment", [Written("filename", fallback, quoteFallback),
                          Written("filename*", "UTF-8''" + PercentCoding.Segment(name), quoteExtended)])
  }

  lemma SecondParameterIsFound(fallback: string, extended: string)
    requires extended != []
    ensures Lookup([("filename", fallback), ("filename*", extended)], "filename*") == Some(extended)
  {
    var parameters := [("filename", fallback), ("filename*", extended)];
    assert parameters[1..] == [("filename*", extended)];
    assert !PercentCoding.SameIgnoringCase("filename", "filename*");
    assert PercentCoding.SameIgnoringCase("filename*", "filename*");
    assert Lookup(parameters[1..], "filename*") == Some(extended);
  }

  /** Extended values are of characters that need no quotes. */
  lemma ExtendedIsLegible(name: string, quoted: bool)
    ensures Legible(Written("filename*", "UTF-8''" + PercentCoding.Segment(name), quoted))
  {
    FilenamesAreReadable();
    PercentCoding.SegmentCharacters(Utf8.Encode(name));
    hide PercentCoding.EscapeBytes;
    var head, segment := "UTF-8''", PercentCoding.Segment(name);
    assert forall c :: c in segment ==> PercentCoding.SegmentChar(c) && c != '"' && c != ';' && !Space(c);
    assert forall i :: 0 <= i < |segment| ==> segment[i] in segment;
    assert forall i :: 0 <= i < |head| ==> head[i] != '"' && head[i] != ';' && !Space(head[i]);
  }

  /** A name sent the way section 4.3 of RFC 6266 recommends arrives unchanged, every
      character of it, whatever the fallback says and whether or not either value is
      quoted; section 3.2.1 of RFC 8187 prescribes the extended one bare. */
  lemma {:induction false} AttachmentNameArrives(fallback: string, name: string, quoteFallback: bool, quoteExtended: bool)
    requires quoteFallback || (Plain(fallback) && Trimmed(fallback))
    ensures DownloadName(Attachment(fallback, name, quoteFallback, quoteExtended)) == Some((name, Extended))
  {
    hide Render, Meant, Parameters, Lookup, Readable, Plain, Trimmed, PercentCoding.Segment, PercentCoding.DecodeExtended;
    var extended := "UTF-8''" + PercentCoding.Segment(name);
    var written := [Written("filename", fallback, quoteFallback), Written("filename*", extended, quoteExtended)];
    MeantTwo(written[0], written[1]);
    FilenamesAreReadable();
    ExtendedIsLegible(name, quoteExtended);
    assert forall i :: 0 <= i < |written| ==> Legible(written[i]);
    ParametersRoundTrip("attachment", written);
    SecondParameterIsFound(fallback, extended);
    assert "UTF-8" + "''" + PercentCoding.Segment(name) == extended;
    PercentCoding.ExtendedRoundTrip("UTF-8", name);
  }

  lemma MeantTwo(first: Written, second: Written)
    ensures Meant([first, second]) == [(first.name, first.value), (second.name, second.value)]
  {
    assert [first, second][1..] == [second];
    assert Meant([second]) == [(second.name, second.value)];
  }

  /** An extended name alone, bare as RFC 8187 prescribes it. */
  lemma {:induction false} ExtendedNameArrives(name: string, quoted: bool)
    ensures DownloadName(Render("attachment", [Written("filename*", "UTF-8''" + PercentCoding.Segment(name), quoted)])) == Some((name, Extended))
  {
    var extended := "UTF-8''" + PercentCoding.Segment(name);
    var written := Written("filename*", extended, quoted);
    MeantOne(written);
    FilenamesAreReadable();
    ExtendedIsLegible(name, quoted);
    assert PercentCoding.SameIgnoringCase("filename*", "filename*");
    assert Lookup([("filename*", extended)], "filename*") == Some(extended);
    hide Render, Meant, Parameters, Lookup, PercentCoding.EscapeBytes, PercentCoding.QuotePair, PercentCoding.Decoded, PercentCoding.Segment;
    ParametersRoundTrip("attachment", [written]);
    assert "UTF-8" + "''" + PercentCoding.Segment(name) == extended;
    PercentCoding.ExtendedRoundTrip("UTF-8", name);
  }

  lemma MeantOne(w: Written)
    ensures Meant([w]) == [(w.name, w.value)]
  {
    assert [w][1..] == [];
  }

  lemma FilenamesAreReadable()
    ensures Readable("filename") && Readable("filename*") && Plain("attachment")
  {
    TokensAreReadable("filename");
    TokensAreReadable("filename*");
  }

  /** Without an extended value the first non-empty plain one is taken as it was meant:
      between quotes any name at all, bare any token and more. */
  lemma PlainNameArrives(name: string, quoted: bool)
    requires name != [] && (quoted || (Plain(name) && Trimmed(name)))
    ensures DownloadName(Render("attachment", [Written("filename", name, quoted)])) == Some((name, Basic))
  {
    var parameters := [("filename", name)];
    FilenamesAreReadable();
    MeantOne(Written("filename", name, quoted));
    ParametersRoundTrip("attachment", [Written("filename", name, quoted)]);
    assert !PercentCoding.SameIgnoringCase("filename", "filename*");
    assert PercentCoding.SameIgnoringCase("filename", "filename");
    assert parameters[1..] == [];
    assert Lookup(parameters, "filename*") == Lookup([], "filename*");
    assert Lookup(parameters, "filename") == Some(name);
  }

  lemma {:induction false} NothingToEscape(name: string)
    requires '"' !in name && '\\' !in name
    ensures Escaped(name) == name
  {
    if name != [] {
      NothingToEscape(name[1..]);
      assert [name[0]] + name[1..] == name;
    }
  }

  lemma RenderOne(disposition: string, w: Written)
    ensures Render(disposition, [w]) == disposition + "; " + w.name + "=" + ValueOf(w)
  {
    hide ValueOf;
    assert [w][1..] == [];
    assert Rendered([w]) == "; " + w.name + "=" + ValueOf(w) + Rendered([]);
  }

  lemma Spellings()
    ensures "attachment" + "; " + "filename" + "=" == "attachment; filename="
    ensures "attachment; filename=" + "\"" == "attachment; filename=\""
    ensures "attachment" + "; " + "filename*" + "=" + "UTF-8''" == "attachment; filename*=UTF-8''"
  {
  }

  lemma Associative(a: string, b: string, c: string)
    ensures a + (b + c) == a + b + c
  {
  }

  /** The header stored with a published object names the file: publication writes the
      logical path between quotes without escaping it, which its checks make safe. */
  lemma {:induction false} PublishedNameArrives(path: string)
    requires Publication.SafeSegment(path)
    ensures DownloadName("attachment; filename=\"" + path + "\"") == Some((path, Basic))
  {
    assert path != [] && '"' !in path && '\\' !in path;
    hide DownloadName, Render, Rendered, Escaped, Publication.SafeSegment, Plain, Trimmed;
    NothingToEscape(path);
    PlainNameArrives(path, true);
    RenderOne("attachment", Written("filename", path, true));
    Spellings();
    Associative("attachment; filename=", "\"" + path, "\"");
    Associative("attachment; filename=", "\"", path);
  }

  /** The two usual spellings without quotes. */
  lemma {:induction false} BareNamesArrive(name: string)
    ensures DownloadName("attachment; filename*=UTF-8''" + PercentCoding.Segment(name)) == Some((name, Extended))
    ensures Token(name) ==> DownloadName("attachment; filename=" + name) == Some((name, Basic))
  {
    hide DownloadName, Render, Rendered, PercentCoding.Segment, TokenChar;
    Spellings();
    ExtendedNameArrives(name, false);
    RenderOne("attachment", Written("filename*", "UTF-8''" + PercentCoding.Segment(name), false));
    Associative("attachment" + "; " + "filename*" + "=", "UTF-8''", PercentCoding.Segment(name));
    if Token(name) {
      TokensAreReadable(name);
      PlainNameArrives(name, false);
      RenderOne("attachment", Written("filename", name, false));
    }
  }
}
