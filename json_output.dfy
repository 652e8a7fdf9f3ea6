/**
 * The JSON formatter (`output_to_json`, BulkSearch.py:169-171):
 * `json.dumps({'string': string, 'data': data})` with the default settings.
 * Items are separated by `", "` and keys from values by `": "`; a match
 * tuple becomes a two-element array. With `ensure_ascii`, a string keeps
 * the printable ASCII characters except `"` and `\`. Those two and the five
 * control characters with short escapes are written as two-character
 * escapes. Every other character becomes `\u` and four lower-case hex
 * digits, or a surrogate pair of them above the Basic Multilingual Plane.
 *
 * A reader for exactly this output comes with it, and the round-trip lemma
 * shows that the report determines the search text and the whole result.
 */
module JsonOutput {
  import opened Wrappers
  import opened Strings
  import opened SearchResults

  predicate Printable(c: char) {
    ' ' <= c <= '~'
  }

  /** `ESCAPE_DCT` and the `\uXXXX` fallback of `py_encode_basestring_ascii`. */
  function EscapeChar(c: char): (r: string)
    ensures r != [] && forall i :: 0 <= i < |r| ==> Printable(r[i])
    ensures r[0] != '"'
    ensures r != [c] ==> r[0] == '\\'
  {
    if c == '"' then "\\\""
    else if c == '\\' then "\\\\"
    else if c == '\n' then "\\n"
    else if c == '\r' then "\\r"
    else if c == '\t' then "\\t"
    else if c as int == 0x08 then "\\b"
    else if c as int == 0x0c then "\\f"
    else if Printable(c) then [c]
    else if c as int < 0x1_0000 then "\\u" + Hex4(c as int)
    else
      var n := c as int - 0x1_0000;
      "\\u" + Hex4(0xD800 + n / 0x400) + "\\u" + Hex4(0xDC00 + n % 0x400)
  }

  /** The body of a JSON string: printable ASCII, with no bare `"`. */
  function Escape(s: string): (r: string)
    ensures forall i :: 0 <= i < |r| ==> Printable(r[i])
  {
    if s == [] then [] else EscapeChar(s[0]) + Escape(s[1..])
  }

  function JsonString(s: string): string {
    "\"" + Escape(s) + "\""
  }

  /** A match tuple: `[<number>, "<line>"]`. */
  function MatchJson(m: Match): string {
    "[" + IntToString(m.0) + ", " + JsonString(m.1) + "]"
  }

  function JoinMatches(ms: seq<Match>): string {
    if ms == [] then []
    else if |ms| == 1 then MatchJson(ms[0])
    else MatchJson(ms[0]) + ", " + JoinMatches(ms[1..])
  }

  function MatchList(ms: seq<Match>): string {
    "[" + JoinMatches(ms) + "]"
  }

  function EntryJson(e: Entry): string {
    JsonString(e.0) + ": " + MatchList(e.1)
  }

  function JoinEntries(d: SearchResult): string {
    if d == [] then []
    else if |d| == 1 then EntryJson(d[0])
    else EntryJson(d[0]) + ", " + JoinEntries(d[1..])
  }

  /**
   * `output_to_json(data, string)`: `json.dumps` of the object `{"string": ..., "data": ...}`,
   * a single JSON object.
   */
  function OutputToJson(data: SearchResult, pattern: string): (r: string)
    ensures |r| >= 26 && r[0] == '{' && r[|r| - 1] == '}'
  {
    "{\"string\": " + JsonString(pattern) + ", \"data\": {" + JoinEntries(data) + "}}"
  }

  // The reader.

  /** Reads one escape after its backslash. */
  function ParseEscape(s: string): (r: Option<(char, string)>)
    ensures r.Some? ==> |r.value.1| < |s|
  {
    if s == [] then None
    else if s[0] == '"' then Some(('"', s[1..]))
    else if s[0] == '\\' then Some(('\\', s[1..]))
    else if s[0] == '/' then Some(('/', s[1..]))
    else if s[0] == 'n' then Some(('\n', s[1..]))
    else if s[0] == 'r' then Some(('\r', s[1..]))
    else if s[0] == 't' then Some(('\t', s[1..]))
    else if s[0] == 'b' then Some((0x08 as char, s[1..]))
    else if s[0] == 'f' then Some((0x0c as char, s[1..]))
    else if s[0] == 'u' && |s| >= 5 then
      match ParseHex4(s[1..5])
      case None => None
      case Some(h) =>
        if 0xD800 <= h < 0xDC00 then
          if |s| >= 11 && s[5..7] == "\\u" then
            match ParseHex4(s[7..11])
            case Some(l) =>
              if 0xDC00 <= l < 0xE000 then Some(((0x1_0000 + (h - 0xD800) * 0x400 + (l - 0xDC00)) as char, s[11..]))
              else None
            case None => None
          else None
        else if 0xDC00 <= h < 0xE000 then None
        else Some((h as char, s[5..]))
    else None
  }

  /** Reads the rest of a string after its opening quote, up to and including the closing quote. */
  function ParseStringBody(s: string): (r: Option<(string, string)>)
    ensures r.Some? ==> |r.value.1| < |s|
    decreases |s|
  {
    if s == [] then None
    else if s[0] == '"' then Some(([], s[1..]))
    else if s[0] == '\\' then
      match ParseEscape(s[1..])
      case None => None
      case Some((c, t)) =>
        match ParseStringBody(t)
        case None => None
        case Some((u, rest)) => Some(([c] + u, rest))
    else
      match ParseStringBody(s[1..])
      case None => None
      case Some((u, rest)) => Some(([s[0]] + u, rest))
  }

  function ParseString(s: string): (r: Option<(string, string)>)
    ensures r.Some? ==> |r.value.1| < |s|
  {
    if s != [] && s[0] == '"' then ParseStringBody(s[1..]) else None
  }

  function ParseMatch(s: string): (r: Option<(Match, string)>)
    ensures r.Some? ==> |r.value.1| < |s|
  {
    match Expect("[", s)
    case None => None
    case Some(a) =>
      match ParseInt(a)
      case None => None
      case Some((n, b)) =>
        match Expect(", ", b)
        case None => None
        case Some(c) =>
          match ParseString(c)
          case None => None
          case Some((text, d)) =>
            match Expect("]", d)
            case None => None
            case Some(e) => Some(((n, text), e))
  }

  /** Reads matches separated by `", "` up to and including the closing `]`. */
  function ParseMatchItems(s: string): (r: Option<(seq<Match>, string)>)
    ensures r.Some? ==> |r.value.1| < |s|
    decreases |s|
  {
    match ParseMatch(s)
    case None => None
    case Some((m, t)) =>
      match Expect(", ", t)
      case Some(u) =>
        (match ParseMatchItems(u)
         case None => None
         case Some((ms, v)) => Some(([m] + ms, v)))
      case None =>
        match Expect("]", t)
        case None => None
        case Some(u) => Some(([m], u))
  }

  function ParseMatchList(s: string): (r: Option<(seq<Match>, string)>)
    ensures r.Some? ==> |r.value.1| < |s|
  {
    match Expect("[", s)
    case None => None
    case Some(a) =>
      match Expect("]", a)
      case Some(b) => Some(([], b))
      case None => ParseMatchItems(a)
  }

  function ParseEntry(s: string): (r: Option<(Entry, string)>)
    ensures r.Some? ==> |r.value.1| < |s|
  {
    match ParseString(s)
    case None => None
    case Some((k, t)) =>
      match Expect(": ", t)
      case None => None
      case Some(u) =>
        match ParseMatchList(u)
        case None => None
        case Some((ms, v)) => Some(((k, ms), v))
  }

  /** Reads entries separated by `", "` up to and including the closing `}`. */
  function ParseEntryItems(s: string): (r: Option<(SearchResult, string)>)
    ensures r.Some? ==> |r.value.1| < |s|
    decreases |s|
  {
    match ParseEntry(s)
    case None => None
    case Some((e, t)) =>
      match Expect(", ", t)
      case Some(u) =>
        (match ParseEntryItems(u)
         case None => None
         case Some((es, v)) => Some(([e] + es, v)))
      case None =>
        match Expect("}", t)
        case None => None
        case Some(u) => Some(([e], u))
  }

  function ParseObject(s: string): (r: Option<(SearchResult, string)>)
    ensures r.Some? ==> |r.value.1| < |s|
  {
    match Expect("{", s)
    case None => None
    case Some(a) =>
      match Expect("}", a)
      case Some(b) => Some(([], b))
      case None => ParseEntryItems(a)
  }

  /** Reads a whole report produced by `output_to_json` back into the search text and the result. */
  function DecodeJson(s: string): Option<(string, SearchResult)> {
    match Expect("{\"string\": ", s)
    case None => None
    case Some(a) =>
      match ParseString(a)
      case None => None
      case Some((pattern, b)) =>
        match Expect(", \"data\": ", b)
        case None => None
        case Some(c) =>
          match ParseObject(c)
          case None => None
          case Some((data, d)) => if d == "}" then Some((pattern, data)) else None
  }

  // Round trips.

  lemma ExpectNot(lit: string, s: string)
    requires lit != [] && s != [] && s[0] != lit[0]
    ensures Expect(lit, s) == None
  {
  }

  lemma ShortEscapeRoundTrip(c: char, e: char, rest: string)
    requires (c, e) in [('"', '"'), ('\\', '\\'), ('\n', 'n'), ('\r', 'r'), ('\t', 't'), (0x08 as char, 'b'), (0x0c as char, 'f')]
    ensures ParseEscape([e] + rest) == Some((c, rest))
  {
    assert ([e] + rest)[0] == e && ([e] + rest)[1..] == rest;
  }

  lemma BmpEscapeRoundTrip(n: nat, rest: string)
    requires n < 0x1_0000 && !(0xD800 <= n < 0xE000)
    ensures ParseEscape("u" + Hex4(n) + rest) == Some((n as char, rest))
  {
    var s := "u" + Hex4(n) + rest;
    assert s[1..5] == Hex4(n);
    assert s[5..] == rest;
    Hex4RoundTrip(n);
  }

  lemma PairEscapeRoundTrip(c: char, rest: string)
    requires c as int >= 0x1_0000
    ensures var n := c as int - 0x1_0000;
      ParseEscape("u" + Hex4(0xD800 + n / 0x400) + "\\u" + Hex4(0xDC00 + n % 0x400) + rest) == Some((c, rest))
  {
    var n := c as int - 0x1_0000;
    var hi, lo := 0xD800 + n / 0x400, 0xDC00 + n % 0x400;
    var s := "u" + Hex4(hi) + "\\u" + Hex4(lo) + rest;
    assert s[1..5] == Hex4(hi);
    assert s[5..7] == "\\u";
    assert s[7..11] == Hex4(lo);
    assert s[11..] == rest;
    Hex4RoundTrip(hi);
    Hex4RoundTrip(lo);
    assert 0x1_0000 + (hi - 0xD800) * 0x400 + (lo - 0xDC00) == c as int;
  }

  /** Each escape reads back as the character it stands for. */
  lemma EscapeCharRoundTrip(c: char, rest: string)
    requires EscapeChar(c) != [c]
    ensures ParseEscape(EscapeChar(c)[1..] + rest) == Some((c, rest))
  {
    if c == '"' || c == '\\' || c == '\n' || c == '\r' || c == '\t' || c as int == 0x08 || c as int == 0x0c {
      ShortEscapeCase(c, rest);
    } else if c as int < 0x1_0000 {
      BmpEscapeCase(c, rest);
    } else {
      PairEscapeCase(c, rest);
    }
  }

  lemma ShortEscapeCase(c: char, rest: string)
    requires c == '"' || c == '\\' || c == '\n' || c == '\r' || c == '\t' || c as int == 0x08 || c as int == 0x0c
    ensures ParseEscape(EscapeChar(c)[1..] + rest) == Some((c, rest))
  {
    if c == '"' {
      ShortEscapeRoundTrip(c, '"', rest);
    } else if c == '\\' {
      ShortEscapeRoundTrip(c, '\\', rest);
    } else if c == '\n' {
      ShortEscapeRoundTrip(c, 'n', rest);
    } else if c == '\r' {
      ShortEscapeRoundTrip(c, 'r', rest);
    } else if c == '\t' {
      ShortEscapeRoundTrip(c, 't', rest);
    } else if c as int == 0x08 {
      ShortEscapeRoundTrip(c, 'b', rest);
    } else {
      ShortEscapeRoundTrip(c, 'f', rest);
    }
  }

  lemma BmpEscapeCase(c: char, rest: string)
    requires !(c == '"' || c == '\\' || c == '\n' || c == '\r' || c == '\t' || c as int == 0x08 || c as int == 0x0c)
    requires !Printable(c) && c as int < 0x1_0000
    ensures ParseEscape(EscapeChar(c)[1..] + rest) == Some((c, rest))
  {
    var h := Hex4(c as int);
    assert EscapeChar(c) == "\\u" + h;
    UnicodeTail(h);
    BmpEscapeRoundTrip(c as int, rest);
  }

  lemma PairEscapeCase(c: char, rest: string)
    requires c as int >= 0x1_0000
    ensures ParseEscape(EscapeChar(c)[1..] + rest) == Some((c, rest))
  {
    var n := c as int - 0x1_0000;
    var h, l := Hex4(0xD800 + n / 0x400), Hex4(0xDC00 + n % 0x400);
    PairEscape(c);
    PairTail(h, l);
    PairEscapeRoundTrip(c, rest);
  }

  lemma PairEscape(c: char)
    requires c as int >= 0x1_0000
    ensures var n := c as int - 0x1_0000;
      EscapeChar(c) == "\\u" + Hex4(0xD800 + n / 0x400) + "\\u" + Hex4(0xDC00 + n % 0x400)
  {
  }

  lemma UnicodeTail(h: string)
    ensures ("\\u" + h)[1..] == "u" + h
  {
  }

  lemma PairTail(h: string, l: string)
    ensures ("\\u" + h + "\\u" + l)[1..] == "u" + h + "\\u" + l
  {
  }

  /** An escaped string body, closed by a quote, reads back as the string. */
  lemma {:induction false} StringBodyRoundTrip(text: string, rest: string)
    ensures ParseStringBody(Escape(text) + "\"" + rest) == Some((text, rest))
  {
    if text == [] {
      assert Escape(text) + "\"" + rest == "\"" + rest;
      ClosingQuote(rest);
    } else {
      var c, more := text[0], text[1..];
      var x := EscapeChar(c);
      var tail := Escape(more) + "\"" + rest;
      StringBodyRoundTrip(more, rest);
      BodyCons(text, rest);
      if x == [c] {
        ReadBodyPlain(c, tail, more, rest);
      } else {
        EscapeCharRoundTrip(c, tail);
        EscapedSplit(x, tail);
        ReadBodyEscaped(c, x + tail, tail, more, rest);
      }
      assert [c] + more == text;
    }
  }

  lemma ClosingQuote(rest: string)
    ensures ParseStringBody("\"" + rest) == Some(([], rest))
  {
    var s := "\"" + rest;
    assert s[0] == '"' && s[1..] == rest;
  }

  lemma BodyCons(text: string, rest: string)
    requires text != []
    ensures Escape(text) + "\"" + rest == EscapeChar(text[0]) + (Escape(text[1..]) + "\"" + rest)
  {
  }

  lemma EscapedSplit(x: string, tail: string)
    requires x != [] && x[0] == '\\'
    ensures var s := x + tail; s != [] && s[0] == '\\' && s[1..] == x[1..] + tail
  {
  }

  /** A string body led by an escape, its parts given. */
  lemma ReadBodyEscaped(c: char, s: string, tail: string, u: string, rest: string)
    requires s != [] && s[0] == '\\'
    requires ParseEscape(s[1..]) == Some((c, tail))
    requires ParseStringBody(tail) == Some((u, rest))
    ensures ParseStringBody(s) == Some(([c] + u, rest))
  {
  }

  /** A string body led by a character written as itself. */
  lemma ReadBodyPlain(c: char, tail: string, u: string, rest: string)
    requires EscapeChar(c) == [c]
    requires ParseStringBody(tail) == Some((u, rest))
    ensures ParseStringBody(EscapeChar(c) + tail) == Some(([c] + u, rest))
  {
    assert c != '\\';
    var s := [c] + tail;
    assert s[0] == c && s[1..] == tail;
  }

  lemma StringRoundTrip(text: string, rest: string)
    ensures ParseString(JsonString(text) + rest) == Some((text, rest))
  {
    var b := Escape(text);
    assert JsonString(text) + rest == "\"" + b + "\"" + rest;
    QuoteSplit(b, rest);
    StringBodyRoundTrip(text, rest);
    ReadString("\"" + b + "\"" + rest, text, rest);
  }

  lemma QuoteSplit(b: string, rest: string)
    ensures var s := "\"" + b + "\"" + rest; s != [] && s[0] == '"' && s[1..] == b + "\"" + rest
  {
  }

  lemma ReadString(s: string, text: string, rest: string)
    requires s != [] && s[0] == '"' && ParseStringBody(s[1..]) == Some((text, rest))
    ensures ParseString(s) == Some((text, rest))
  {
  }

  lemma MatchRoundTrip(m: Match, rest: string)
    ensures ParseMatch(MatchJson(m) + rest) == Some((m, rest))
  {
    var (n, text) := m;
    var d := "]" + rest;
    var c := JsonString(text) + d;
    var b := ", " + c;
    var a := IntToString(n) + b;
    assert MatchJson(m) + rest == "[" + a by {
      Nest5("[", IntToString(n), ", ", JsonString(text), "]", rest);
    }
    assert ParseMatch("[" + a) == Some((m, rest)) by {
      ExpectOf("[", a);
      ParseIntRoundTrip(n, b);
      ExpectOf(", ", c);
      StringRoundTrip(text, d);
      ExpectOf("]", rest);
      ReadMatch("[" + a, a, n, b, c, text, d, rest);
    }
  }

  lemma ReadMatch(s: string, a: string, n: int, b: string, c: string, text: string, d: string, rest: string)
    requires Expect("[", s) == Some(a) && ParseInt(a) == Some((n, b)) && Expect(", ", b) == Some(c)
    requires ParseString(c) == Some((text, d)) && Expect("]", d) == Some(rest)
    ensures ParseMatch(s) == Some(((n, text), rest))
  {
  }

  /** A non-empty list of matches, closed by `]`, reads back as the list. */
  lemma {:induction false} MatchItemsRoundTrip(ms: seq<Match>, rest: string)
    requires ms != []
    ensures ParseMatchItems(JoinMatches(ms) + "]" + rest) == Some((ms, rest))
  {
    if |ms| == 1 {
      LastMatchRoundTrip(ms, rest);
    } else {
      MatchItemsRoundTrip(ms[1..], rest);
      NextMatchRoundTrip(ms, rest);
    }
  }

  lemma LastMatchRoundTrip(ms: seq<Match>, rest: string)
    requires |ms| == 1
    ensures ParseMatchItems(JoinMatches(ms) + "]" + rest) == Some((ms, rest))
  {
    var m := ms[0];
    JoinMatchesOne(ms, rest);
    MatchRoundTrip(m, "]" + rest);
    ExpectNot(", ", "]" + rest);
    ExpectOf("]", rest);
    ReadLastMatch(MatchJson(m) + ("]" + rest), m, "]" + rest, rest);
  }

  lemma NextMatchRoundTrip(ms: seq<Match>, rest: string)
    requires |ms| > 1
    requires ParseMatchItems(JoinMatches(ms[1..]) + "]" + rest) == Some((ms[1..], rest))
    ensures ParseMatchItems(JoinMatches(ms) + "]" + rest) == Some((ms, rest))
  {
    var m, tail := ms[0], ms[1..];
    JoinMatchesMore(ms, rest);
    NextMatchStep(m, tail, JoinMatches(tail) + "]" + rest, rest);
    ConsTail(ms);
  }

  /** One more match in front of a list that reads back. */
  lemma NextMatchStep(m: Match, tail: seq<Match>, more: string, rest: string)
    requires ParseMatchItems(more) == Some((tail, rest))
    ensures ParseMatchItems(MatchJson(m) + (", " + more)) == Some(([m] + tail, rest))
  {
    MatchRoundTrip(m, ", " + more);
    ExpectOf(", ", more);
    ReadNextMatch(MatchJson(m) + (", " + more), m, ", " + more, more, tail, rest);
  }

  lemma JoinMatchesOne(ms: seq<Match>, rest: string)
    requires |ms| == 1
    ensures ms == [ms[0]] && JoinMatches(ms) + "]" + rest == MatchJson(ms[0]) + ("]" + rest)
  {
  }

  lemma JoinMatchesMore(ms: seq<Match>, rest: string)
    requires |ms| > 1
    ensures JoinMatches(ms) + "]" + rest == MatchJson(ms[0]) + (", " + (JoinMatches(ms[1..]) + "]" + rest))
  {
    var x, y := MatchJson(ms[0]), JoinMatches(ms[1..]);
    assert JoinMatches(ms) == x + ", " + y;
    Regroup5(x, ", ", y, "]", rest);
    Regroup4(", ", y, "]", rest);
  }

  lemma Nest5(p: string, q: string, r: string, t: string, u: string, v: string)
    ensures p + q + r + t + u + v == p + (q + (r + (t + (u + v))))
  {
    assert p + q + r + t + u + v == (p + q + r + t) + (u + v);
    assert (p + q + r + t) + (u + v) == (p + q + r) + (t + (u + v));
    assert (p + q + r) + (t + (u + v)) == (p + q) + (r + (t + (u + v)));
  }

  lemma ReadLastMatch(s: string, m: Match, t: string, rest: string)
    requires ParseMatch(s) == Some((m, t)) && Expect(", ", t) == None && Expect("]", t) == Some(rest)
    ensures ParseMatchItems(s) == Some(([m], rest))
  {
  }

  lemma ReadNextMatch(s: string, m: Match, t: string, u: string, ms: seq<Match>, rest: string)
    requires ParseMatch(s) == Some((m, t)) && Expect(", ", t) == Some(u) && ParseMatchItems(u) == Some((ms, rest))
    ensures ParseMatchItems(s) == Some(([m] + ms, rest))
  {
  }

  lemma MatchListRoundTrip(ms: seq<Match>, rest: string)
    ensures ParseMatchList(MatchList(ms) + rest) == Some((ms, rest))
  {
    var a := JoinMatches(ms) + "]" + rest;
    assert MatchList(ms) + rest == "[" + a by {
      Regroup4("[", JoinMatches(ms), "]", rest);
    }
    if ms == [] {
      EmptyListRoundTrip(a, rest);
    } else {
      ItemListRoundTrip(ms, a, rest);
    }
  }

  lemma EmptyListRoundTrip(a: string, rest: string)
    requires a == JoinMatches([]) + "]" + rest
    ensures ParseMatchList("[" + a) == Some(([], rest))
  {
    assert a == "]" + rest;
    ExpectOf("[", a);
    ExpectOf("]", rest);
    ReadEmptyList("[" + a, a, rest);
  }

  lemma ItemListRoundTrip(ms: seq<Match>, a: string, rest: string)
    requires ms != [] && a == JoinMatches(ms) + "]" + rest
    ensures ParseMatchList("[" + a) == Some((ms, rest))
  {
    ExpectOf("[", a);
    MatchItemsRoundTrip(ms, rest);
    ItemsNotClosed(ms, a, rest);
    ReadItemList("[" + a, a, ms, rest);
  }

  lemma ItemsNotClosed(ms: seq<Match>, a: string, rest: string)
    requires ms != [] && a == JoinMatches(ms) + "]" + rest
    ensures Expect("]", a) == None
  {
    MatchesOpen(ms);
    NotClosedBy(JoinMatches(ms), "]", rest);
  }

  /** A literal is not found at the front of a text that starts with a different character. */
  lemma NotClosedBy(j: string, lit: string, rest: string)
    requires j != [] && lit != [] && j[0] != lit[0]
    ensures Expect(lit, j + lit + rest) == None
  {
    var s := j + lit + rest;
    assert s[0] == j[0];
    ExpectNot(lit, s);
  }

  lemma ReadEmptyList(s: string, a: string, rest: string)
    requires Expect("[", s) == Some(a) && Expect("]", a) == Some(rest)
    ensures ParseMatchList(s) == Some(([], rest))
  {
  }

  lemma ReadItemList(s: string, a: string, ms: seq<Match>, rest: string)
    requires Expect("[", s) == Some(a) && Expect("]", a) == None && ParseMatchItems(a) == Some((ms, rest))
    ensures ParseMatchList(s) == Some((ms, rest))
  {
  }

  /** A non-empty list of matches starts with the `[` of its first match. */
  lemma MatchesOpen(ms: seq<Match>)
    requires ms != []
    ensures JoinMatches(ms) != [] && JoinMatches(ms)[0] == '['
  {
    var x := MatchJson(ms[0]);
    assert x[0] == '[';
  }

  /** A non-empty list of entries starts with the quote of its first key. */
  lemma EntriesOpen(d: SearchResult)
    requires d != []
    ensures JoinEntries(d) != [] && JoinEntries(d)[0] == '"'
  {
    var x := EntryJson(d[0]);
    assert x[0] == '"';
  }

  lemma EntryRoundTrip(e: Entry, rest: string)
    ensures ParseEntry(EntryJson(e) + rest) == Some((e, rest))
  {
    var u := MatchList(e.1) + rest;
    var t := ": " + u;
    assert EntryJson(e) + rest == JsonString(e.0) + t by {
      Regroup4(JsonString(e.0), ": ", MatchList(e.1), rest);
    }
    assert ParseEntry(JsonString(e.0) + t) == Some((e, rest)) by {
      StringRoundTrip(e.0, t);
      ExpectOf(": ", u);
      MatchListRoundTrip(e.1, rest);
      ReadEntry(JsonString(e.0) + t, e.0, t, u, e.1, rest);
    }
  }

  lemma ReadEntry(s: string, k: string, t: string, u: string, ms: seq<Match>, rest: string)
    requires ParseString(s) == Some((k, t)) && Expect(": ", t) == Some(u) && ParseMatchList(u) == Some((ms, rest))
    ensures ParseEntry(s) == Some(((k, ms), rest))
  {
  }

  lemma {:induction false} EntryItemsRoundTrip(d: SearchResult, rest: string)
    requires d != []
    ensures ParseEntryItems(JoinEntries(d) + "}" + rest) == Some((d, rest))
  {
    if |d| == 1 {
      LastEntryRoundTrip(d, rest);
    } else {
      EntryItemsRoundTrip(d[1..], rest);
      NextEntryRoundTrip(d, rest);
    }
  }

  lemma LastEntryRoundTrip(d: SearchResult, rest: string)
    requires |d| == 1
    ensures ParseEntryItems(JoinEntries(d) + "}" + rest) == Some((d, rest))
  {
    var e := d[0];
    JoinEntriesOne(d, rest);
    EntryRoundTrip(e, "}" + rest);
    ExpectNot(", ", "}" + rest);
    ExpectOf("}", rest);
    ReadLastEntry(EntryJson(e) + ("}" + rest), e, "}" + rest, rest);
  }

  lemma NextEntryRoundTrip(d: SearchResult, rest: string)
    requires |d| > 1
    requires ParseEntryItems(JoinEntries(d[1..]) + "}" + rest) == Some((d[1..], rest))
    ensures ParseEntryItems(JoinEntries(d) + "}" + rest) == Some((d, rest))
  {
    var e, tail := d[0], d[1..];
    JoinEntriesMore(d, rest);
    NextEntryStep(e, tail, JoinEntries(tail) + "}" + rest, rest);
    ConsTail(d);
  }

  /** One more entry in front of entries that read back. */
  lemma NextEntryStep(e: Entry, tail: SearchResult, more: string, rest: string)
    requires ParseEntryItems(more) == Some((tail, rest))
    ensures ParseEntryItems(EntryJson(e) + (", " + more)) == Some(([e] + tail, rest))
  {
    EntryRoundTrip(e, ", " + more);
    ExpectOf(", ", more);
    ReadNextEntry(EntryJson(e) + (", " + more), e, ", " + more, more, tail, rest);
  }

  lemma JoinEntriesOne(d: SearchResult, rest: string)
    requires |d| == 1
    ensures d == [d[0]] && JoinEntries(d) + "}" + rest == EntryJson(d[0]) + ("}" + rest)
  {
  }

  lemma JoinEntriesMore(d: SearchResult, rest: string)
    requires |d| > 1
    ensures JoinEntries(d) + "}" + rest == EntryJson(d[0]) + (", " + (JoinEntries(d[1..]) + "}" + rest))
  {
    var x, y := EntryJson(d[0]), JoinEntries(d[1..]);
    assert JoinEntries(d) == x + ", " + y;
    Regroup5(x, ", ", y, "}", rest);
    Regroup4(", ", y, "}", rest);
  }

  lemma ReadLastEntry(s: string, e: Entry, t: string, rest: string)
    requires ParseEntry(s) == Some((e, t)) && Expect(", ", t) == None && Expect("}", t) == Some(rest)
    ensures ParseEntryItems(s) == Some(([e], rest))
  {
  }

  lemma ReadNextEntry(s: string, e: Entry, t: string, u: string, d: SearchResult, rest: string)
    requires ParseEntry(s) == Some((e, t)) && Expect(", ", t) == Some(u) && ParseEntryItems(u) == Some((d, rest))
    ensures ParseEntryItems(s) == Some(([e] + d, rest))
  {
  }

  lemma ObjectRoundTrip(d: SearchResult, rest: string)
    ensures ParseObject("{" + JoinEntries(d) + "}" + rest) == Some((d, rest))
  {
    var a := JoinEntries(d) + "}" + rest;
    assert "{" + JoinEntries(d) + "}" + rest == "{" + a by {
      Regroup4("{", JoinEntries(d), "}", rest);
    }
    if d == [] {
      EmptyObjectRoundTrip(a, rest);
    } else {
      ItemObjectRoundTrip(d, a, rest);
    }
  }

  lemma EmptyObjectRoundTrip(a: string, rest: string)
    requires a == JoinEntries([]) + "}" + rest
    ensures ParseObject("{" + a) == Some(([], rest))
  {
    assert a == "}" + rest;
    ExpectOf("{", a);
    ExpectOf("}", rest);
    ReadEmptyObject("{" + a, a, rest);
  }

  lemma ItemObjectRoundTrip(d: SearchResult, a: string, rest: string)
    requires d != [] && a == JoinEntries(d) + "}" + rest
    ensures ParseObject("{" + a) == Some((d, rest))
  {
    ExpectOf("{", a);
    EntryItemsRoundTrip(d, rest);
    EntriesNotClosed(d, a, rest);
    ReadItemObject("{" + a, a, d, rest);
  }

  lemma EntriesNotClosed(d: SearchResult, a: string, rest: string)
    requires d != [] && a == JoinEntries(d) + "}" + rest
    ensures Expect("}", a) == None
  {
    EntriesOpen(d);
    NotClosedBy(JoinEntries(d), "}", rest);
  }

  lemma ReadEmptyObject(s: string, a: string, rest: string)
    requires Expect("{", s) == Some(a) && Expect("}", a) == Some(rest)
    ensures ParseObject(s) == Some(([], rest))
  {
  }

  lemma ReadItemObject(s: string, a: string, d: SearchResult, rest: string)
    requires Expect("{", s) == Some(a) && Expect("}", a) == None && ParseEntryItems(a) == Some((d, rest))
    ensures ParseObject(s) == Some((d, rest))
  {
  }

  /** The JSON report determines the search text and the whole result, in order. */
  lemma JsonRoundTrip(data: SearchResult, pattern: string)
    ensures DecodeJson(OutputToJson(data, pattern)) == Some((pattern, data))
  {
    var c := "{" + JoinEntries(data) + "}" + "}";
    var b := ", \"data\": " + c;
    var a := JsonString(pattern) + b;
    assert OutputToJson(data, pattern) == "{\"string\": " + a;
    ExpectOf("{\"string\": ", a);
    StringRoundTrip(pattern, b);
    ExpectOf(", \"data\": ", c);
    ObjectRoundTrip(data, "}");
  }

  /** Without results, the report is `{"string": <S>, "data": {}}`. */
  lemma JsonEmpty(pattern: string)
    ensures OutputToJson([], pattern) == "{\"string\": \"" + Escape(pattern) + "\", \"data\": {}}"
  {
  }

  predicate AllPrintable(s: string) {
    forall i :: 0 <= i < |s| ==> Printable(s[i])
  }

  lemma PrintableConcat(a: string, b: string)
    requires AllPrintable(a) && AllPrintable(b)
    ensures AllPrintable(a + b)
  {
    forall i | 0 <= i < |a + b| ensures Printable((a + b)[i]) {
      if i >= |a| {
        assert (a + b)[i] == b[i - |a|];
      }
    }
  }

  lemma NumberPrintable(n: int)
    ensures AllPrintable(IntToString(n))
  {
    var s := IntToString(n);
    forall i | 0 <= i < |s| ensures Printable(s[i]) {
      if n < 0 {
        assert s == "-" + NatToString(-n);
        if i > 0 {
          assert s[i] == NatToString(-n)[i - 1];
        }
      }
    }
  }

  lemma StringPrintable(s: string)
    ensures AllPrintable(JsonString(s))
  {
    PrintableConcat("\"", Escape(s));
    PrintableConcat("\"" + Escape(s), "\"");
  }

  lemma MatchPrintable(m: Match)
    ensures AllPrintable(MatchJson(m))
  {
    NumberPrintable(m.0);
    StringPrintable(m.1);
    PrintableConcat("[", IntToString(m.0));
    PrintableConcat("[" + IntToString(m.0), ", ");
    PrintableConcat("[" + IntToString(m.0) + ", ", JsonString(m.1));
    PrintableConcat("[" + IntToString(m.0) + ", " + JsonString(m.1), "]");
  }

  lemma {:induction false} MatchesPrintable(ms: seq<Match>)
    ensures AllPrintable(MatchList(ms))
  {
    JoinMatchesPrintable(ms);
    PrintableConcat("[", JoinMatches(ms));
    PrintableConcat("[" + JoinMatches(ms), "]");
  }

  lemma {:induction false} JoinMatchesPrintable(ms: seq<Match>)
    ensures AllPrintable(JoinMatches(ms))
  {
    if |ms| == 1 {
      MatchPrintable(ms[0]);
    } else if |ms| > 1 {
      MatchPrintable(ms[0]);
      JoinMatchesPrintable(ms[1..]);
      PrintableConcat(MatchJson(ms[0]), ", ");
      PrintableConcat(MatchJson(ms[0]) + ", ", JoinMatches(ms[1..]));
    }
  }

  lemma EntryPrintable(e: Entry)
    ensures AllPrintable(EntryJson(e))
  {
    StringPrintable(e.0);
    MatchesPrintable(e.1);
    PrintableConcat(JsonString(e.0), ": ");
    PrintableConcat(JsonString(e.0) + ": ", MatchList(e.1));
  }

  lemma {:induction false} JoinEntriesPrintable(d: SearchResult)
    ensures AllPrintable(JoinEntries(d))
  {
    if |d| == 1 {
      EntryPrintable(d[0]);
    } else if |d| > 1 {
      EntryPrintable(d[0]);
      JoinEntriesPrintable(d[1..]);
      PrintableConcat(EntryJson(d[0]), ", ");
      PrintableConcat(EntryJson(d[0]) + ", ", JoinEntries(d[1..]));
    }
  }

  /** With `ensure_ascii`, the whole report is printable ASCII, whatever the names and lines contain. */
  lemma JsonAscii(data: SearchResult, pattern: string)
    ensures forall i :: 0 <= i < |OutputToJson(data, pattern)| ==> Printable(OutputToJson(data, pattern)[i])
  {
    var a := "{\"string\": " + JsonString(pattern);
    var b := a + ", \"data\": {";
    StringPrintable(pattern);
    PrintableConcat("{\"string\": ", JsonString(pattern));
    PrintableConcat(a, ", \"data\": {");
    JoinEntriesPrintable(data);
    PrintableConcat(b, JoinEntries(data));
    PrintableConcat(b + JoinEntries(data), "}}");
  }

  /** The empty report of the test suite, with the search text `string`. */
  lemma JsonEmptyExample()
    ensures OutputToJson([], "string") == "{\"string\": \"string\", \"data\": {}}"
  {
    var s := "string";
    JsonEmpty(s);
    StringPlain(s);
    EscapePlain(s);
    JsonExampleHead(s);
    JsonExampleTail("{\"string\": \"" + s);
  }

  /** Characters `ensure_ascii` writes as they are. */
  predicate NoEscapes(s: string) {
    forall i :: 0 <= i < |s| ==> Printable(s[i]) && s[i] != '"' && s[i] != '\\'
  }

  lemma StringPlain(s: string)
    requires s == "string"
    ensures NoEscapes(s)
  {
  }

  lemma JsonExampleHead(s: string)
    requires s == "string"
    ensures "{\"string\": \"" + s == "{\"string\": \"string"
  {
  }

  lemma JsonExampleTail(x: string)
    requires x == "{\"string\": \"string"
    ensures x + "\", \"data\": {}}" == "{\"string\": \"string\", \"data\": {}}"
  {
  }

  /** Printable ASCII other than `"` and `\` is written as it is. */
  lemma {:induction false} EscapePlain(s: string)
    requires NoEscapes(s)
    ensures Escape(s) == s
  {
    if s != [] {
      EscapePlain(s[1..]);
      assert [s[0]] + s[1..] == s;
    }
  }
}
