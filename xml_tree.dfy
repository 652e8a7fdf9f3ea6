/**
 * The part of `xml.etree.ElementTree` that `output_to_xml` relies on: an
 * element tree without attributes or tails, and `tostring` with its default
 * `us-ascii` encoding. An element with neither text nor children is written
 * in the short form `<tag />`; text is written with `&`, `<` and `>` escaped,
 * and every character outside ASCII becomes a decimal character reference.
 * No XML declaration is written for `us-ascii`.
 *
 * A reader for exactly this output comes with it, and the round-trip lemmas
 * show that the serialisation loses nothing.
 */
module XmlTree {
  import opened Wrappers
  import opened Strings

  /** An element; an empty `text` stands for both `None` and `''`, which serialise alike. */
  datatype Element = Element(tag: string, text: string, children: seq<Element>)

  predicate IsTagChar(c: char) {
    'a' <= c <= 'z' || 'A' <= c <= 'Z' || '0' <= c <= '9' || c == '_'
  }

  predicate ValidTag(tag: string) {
    tag != [] && forall i :: 0 <= i < |tag| ==> IsTagChar(tag[i])
  }

  /** Every tag in the tree is a plain name. */
  predicate WellFormed(e: Element)
    decreases e
  {
    ValidTag(e.tag) && forall i :: 0 <= i < |e.children| ==> WellFormed(e.children[i])
  }

  /** What `us-ascii` output contains: ASCII, and never a bare `<` or `>`. */
  predicate SafeText(s: string) {
    forall i :: 0 <= i < |s| ==> s[i] != '<' && s[i] != '>' && s[i] as int < 128
  }

  /** `_escape_cdata` followed by the `xmlcharrefreplace` encoding to ASCII. */
  function EscapeChar(c: char): (r: string)
    ensures r != [] && SafeText(r)
    ensures r[0] == '&' <==> c == '&' || c == '<' || c == '>' || c as int >= 128
  {
    if c == '&' then "&amp;"
    else if c == '<' then "&lt;"
    else if c == '>' then "&gt;"
    else if c as int < 128 then [c]
    else "&#" + NatToString(c as int) + ";"
  }

  function EscapeText(s: string): (r: string)
    ensures SafeText(r)
    ensures r == [] <==> s == []
  {
    if s == [] then [] else EscapeChar(s[0]) + EscapeText(s[1..])
  }

  function StartTag(tag: string): string {
    "<" + tag + ">"
  }

  function EndTag(tag: string): string {
    "</" + tag + ">"
  }

  /** `tostring` of an element and its subtree. */
  function Serialize(e: Element): string
    decreases e
  {
    if e.text == [] && e.children == [] then "<" + e.tag + " />"
    else StartTag(e.tag) + EscapeText(e.text) + SerializeAll(e.children) + EndTag(e.tag)
  }

  function SerializeAll(es: seq<Element>): string
    decreases es
  {
    if es == [] then [] else Serialize(es[0]) + SerializeAll(es[1..])
  }

  /** Reads one escape after its `&`: a named entity or a decimal character reference. */
  function ParseEntity(s: string): (r: Option<(char, string)>)
    ensures r.Some? ==> |r.value.1| < |s|
  {
    if |s| >= 4 && s[..4] == "amp;" then Some(('&', s[4..]))
    else if |s| >= 3 && s[..3] == "lt;" then Some(('<', s[3..]))
    else if |s| >= 3 && s[..3] == "gt;" then Some(('>', s[3..]))
    else if s != [] && s[0] == '#' then
      match ParseNat(s[1..])
      case None => None
      case Some((n, t)) =>
        if t != [] && t[0] == ';' && (n < 0xD800 || 0xE000 <= n < 0x11_0000) then Some((n as char, t[1..]))
        else None
    else None
  }

  /** Reads character data up to the next `<` or the end, undoing the escapes. */
  function ParseText(s: string): (r: Option<(string, string)>)
    ensures r.Some? ==> |r.value.1| <= |s|
    decreases |s|
  {
    if s == [] || s[0] == '<' then Some(([], s))
    else if s[0] == '&' then
      match ParseEntity(s[1..])
      case None => None
      case Some((c, t)) =>
        match ParseText(t)
        case None => None
        case Some((u, rest)) => Some(([c] + u, rest))
    else
      match ParseText(s[1..])
      case None => None
      case Some((u, rest)) => Some(([s[0]] + u, rest))
  }

  /** The number of tag characters at the front of `s`. */
  function TagLength(s: string): (k: nat)
    ensures k <= |s| && (forall i :: 0 <= i < k ==> IsTagChar(s[i])) && (k < |s| ==> !IsTagChar(s[k]))
  {
    if s == [] || !IsTagChar(s[0]) then 0 else 1 + TagLength(s[1..])
  }

  /** Reads one element, in either of its two forms, and returns what follows it. */
  function ParseElement(s: string): (r: Option<(Element, string)>)
    ensures r.Some? ==> |r.value.1| < |s|
    decreases |s|, 0
  {
    if s == [] || s[0] != '<' then None
    else
      var k := TagLength(s[1..]);
      var tag, t := s[1..][..k], s[1..][k..];
      if k == 0 then None
      else if |t| >= 3 && t[..3] == " />" then Some((Element(tag, [], []), t[3..]))
      else if t != [] && t[0] == '>' then
        match ParseText(t[1..])
        case None => None
        case Some((text, u)) =>
          match ParseChildren(u)
          case None => None
          case Some((children, v)) =>
            var close := "</" + tag + ">";
            if |close| <= |v| && v[..|close|] == close then Some((Element(tag, text, children), v[|close|..]))
            else None
      else None
  }

  /** Reads elements for as long as a start tag follows. */
  function ParseChildren(s: string): (r: Option<(seq<Element>, string)>)
    ensures r.Some? ==> |r.value.1| <= |s|
    decreases |s|, 1
  {
    if |s| >= 2 && s[0] == '<' && s[1] != '/' then
      match ParseElement(s)
      case None => None
      case Some((e, t)) =>
        match ParseChildren(t)
        case None => None
        case Some((es, u)) => Some(([e] + es, u))
    else Some(([], s))
  }

  lemma EntityRoundTrip(c: char, rest: string)
    requires EscapeChar(c)[0] == '&'
    ensures ParseEntity(EscapeChar(c)[1..] + rest) == Some((c, rest))
  {
    if c == '&' {
      NamedEntity("amp;", rest);
    } else if c == '<' {
      NamedEntity("lt;", rest);
    } else if c == '>' {
      NamedEntity("gt;", rest);
    } else {
      ReferenceTail(NatToString(c as int), rest);
      CharReference(c, rest);
    }
  }

  lemma ReferenceTail(ds: string, rest: string)
    ensures ("&#" + ds + ";")[1..] + rest == "#" + ds + ";" + rest
  {
  }

  lemma NamedEntity(name: string, rest: string)
    requires name == "amp;" || name == "lt;" || name == "gt;"
    ensures ParseEntity(name + rest) == Some((if name == "amp;" then '&' else if name == "lt;" then '<' else '>', rest))
  {
    var s := name + rest;
    assert s[..|name|] == name && s[|name|..] == rest;
    assert s[0] == name[0];
  }

  lemma CharReference(c: char, rest: string)
    requires c as int >= 128
    ensures ParseEntity("#" + NatToString(c as int) + ";" + rest) == Some((c, rest))
  {
    var ds := NatToString(c as int);
    var s := "#" + ds + ";" + rest;
    assert s[0] == '#';
    assert s[1..] == ds + (";" + rest);
    ParseNatRoundTrip(c as int, ";" + rest);
    assert (";" + rest)[1..] == rest;
  }

  /** Escaped text reads back as the original text, whatever markup follows it. */
  lemma {:induction false} TextRoundTrip(text: string, rest: string)
    requires rest == [] || rest[0] == '<'
    ensures ParseText(EscapeText(text) + rest) == Some((text, rest))
  {
    if text == [] {
      assert EscapeText(text) + rest == rest;
    } else {
      var c, more := text[0], text[1..];
      var x := EscapeChar(c);
      var tail := EscapeText(more) + rest;
      TextRoundTrip(more, rest);
      EscapeCons(text, rest);
      if x[0] == '&' {
        EntityRoundTrip(c, tail);
        EscapedSplit(x, tail);
        ReadEscaped(c, x + tail, tail, more, rest);
      } else {
        ReadPlain(c, tail, more, rest);
      }
      assert [c] + more == text;
    }
  }

  lemma EscapeCons(text: string, rest: string)
    requires text != []
    ensures EscapeText(text) + rest == EscapeChar(text[0]) + (EscapeText(text[1..]) + rest)
  {
  }

  /** Character data led by an escape, its parts given. */
  lemma ReadEscaped(c: char, s: string, tail: string, u: string, rest: string)
    requires s != [] && s[0] == '&'
    requires ParseEntity(s[1..]) == Some((c, tail))
    requires ParseText(tail) == Some((u, rest))
    ensures ParseText(s) == Some(([c] + u, rest))
  {
  }

  lemma EscapedSplit(x: string, tail: string)
    requires x != [] && x[0] == '&'
    ensures var s := x + tail; s != [] && s[0] == '&' && s[1..] == x[1..] + tail
  {
  }

  /** Character data led by a character written as itself. */
  lemma ReadPlain(c: char, tail: string, u: string, rest: string)
    requires EscapeChar(c)[0] != '&'
    requires ParseText(tail) == Some((u, rest))
    ensures ParseText(EscapeChar(c) + tail) == Some(([c] + u, rest))
  {
    assert EscapeChar(c) == [c];
    var s := [c] + tail;
    assert s[0] == c && s[1..] == tail;
  }

  lemma {:induction false} TagRoundTrip(tag: string, rest: string)
    requires ValidTag(tag)
    requires rest != [] && !IsTagChar(rest[0])
    ensures TagLength(tag + rest) == |tag|
  {
    var s := tag + rest;
    assert s[0] == tag[0];
    if |tag| > 1 {
      assert s[1..] == tag[1..] + rest;
      ValidTail(tag);
      TagRoundTrip(tag[1..], rest);
    } else {
      assert s[1..] == rest;
    }
  }

  lemma ValidTail(tag: string)
    requires ValidTag(tag) && |tag| > 1
    ensures ValidTag(tag[1..])
  {
    forall i | 0 <= i < |tag[1..]| ensures IsTagChar(tag[1..][i]) {
      assert tag[1..][i] == tag[i + 1];
    }
  }

  /** A well-formed element reads back as itself, and reading stops right after it. */
  lemma {:induction false} ElementRoundTrip(e: Element, rest: string)
    requires WellFormed(e)
    ensures ParseElement(Serialize(e) + rest) == Some((e, rest))
    decreases e, 1
  {
    if e.text == [] && e.children == [] {
      ReadShort(e.tag, rest);
    } else {
      var close := EndTag(e.tag);
      var after := SerializeAll(e.children) + (close + rest);
      var body := EscapeText(e.text) + after;
      ChildrenStart(e.children, close + rest);
      TextRoundTrip(e.text, after);
      ChildrenRoundTrip(e.children, close + rest);
      ReadFull(e.tag, body, e.text, e.children, after, rest);
      SerializeFull(e, rest);
    }
  }

  lemma SerializeFull(e: Element, rest: string)
    requires e.text != [] || e.children != []
    ensures Serialize(e) + rest
      == StartTag(e.tag) + (EscapeText(e.text) + (SerializeAll(e.children) + (EndTag(e.tag) + rest)))
  {
    var s, x, c, t := StartTag(e.tag), EscapeText(e.text), SerializeAll(e.children), EndTag(e.tag);
    assert Serialize(e) == s + x + c + t;
    assert s + x + c + t + rest == s + x + c + (t + rest);
    assert s + x + c + (t + rest) == s + x + (c + (t + rest));
    assert s + x + (c + (t + rest)) == s + (x + (c + (t + rest)));
  }

  lemma ReadShort(tag: string, rest: string)
    requires ValidTag(tag)
    ensures ParseElement(Serialize(Element(tag, [], [])) + rest) == Some((Element(tag, [], []), rest))
  {
    var t := " />" + rest;
    var s := "<" + tag + t;
    assert Serialize(Element(tag, [], [])) + rest == s;
    OpenTag(tag, t);
    ParseShort(s, tag, t, rest);
  }

  /** One reading of the short form of an element, its parts given. */
  lemma ParseShort(s: string, tag: string, t: string, rest: string)
    requires s != [] && s[0] == '<' && |tag| > 0
    requires TagLength(s[1..]) == |tag| && s[1..][..|tag|] == tag && s[1..][|tag|..] == t
    requires t == " />" + rest
    ensures ParseElement(s) == Some((Element(tag, [], []), rest))
  {
    assert t[..3] == " />" && t[3..] == rest;
  }

  /** Reading a start tag, character data, children and the matching end tag. */
  lemma ReadFull(tag: string, body: string, text: string, children: seq<Element>, after: string, rest: string)
    requires ValidTag(tag)
    requires ParseText(body) == Some((text, after))
    requires ParseChildren(after) == Some((children, EndTag(tag) + rest))
    ensures ParseElement(StartTag(tag) + body) == Some((Element(tag, text, children), rest))
  {
    var t := ">" + body;
    assert StartTag(tag) + body == "<" + tag + t;
    OpenTag(tag, t);
    assert t[1..] == body;
    CloseTag(tag, rest);
    ParseFull("<" + tag + t, tag, t, text, after, children, EndTag(tag) + rest, rest);
  }

  /** The start of `<tag` followed by a character that cannot continue the tag. */
  lemma OpenTag(tag: string, t: string)
    requires ValidTag(tag) && t != [] && !IsTagChar(t[0])
    ensures var s := "<" + tag + t;
      s != [] && s[0] == '<' && TagLength(s[1..]) == |tag| && s[1..][..|tag|] == tag && s[1..][|tag|..] == t
  {
    var s := "<" + tag + t;
    assert s[1..] == tag + t;
    TagRoundTrip(tag, t);
  }

  lemma CloseTag(tag: string, rest: string)
    ensures var close, v := "</" + tag + ">", EndTag(tag) + rest;
      |close| <= |v| && v[..|close|] == close && v[|close|..] == rest
  {
  }

  /** One reading of the full form of an element, its parts given. */
  lemma ParseFull(s: string, tag: string, t: string, text: string, u: string, children: seq<Element>, v: string, rest: string)
    requires s != [] && s[0] == '<' && |tag| > 0
    requires TagLength(s[1..]) == |tag| && s[1..][..|tag|] == tag && s[1..][|tag|..] == t
    requires t != [] && t[0] == '>'
    requires ParseText(t[1..]) == Some((text, u))
    requires ParseChildren(u) == Some((children, v))
    requires |"</" + tag + ">"| <= |v| && v[..|"</" + tag + ">"|] == "</" + tag + ">" && v[|"</" + tag + ">"|..] == rest
    ensures ParseElement(s) == Some((Element(tag, text, children), rest))
  {
    assert !(|t| >= 3 && t[..3] == " />") by {
      if |t| >= 3 {
        assert t[..3][0] == '>';
      }
    }
  }

  /** A serialised sequence of elements followed by an end tag starts with `<`. */
  lemma ChildrenStart(es: seq<Element>, rest: string)
    requires rest != [] && rest[0] == '<'
    ensures var s := SerializeAll(es) + rest; s != [] && s[0] == '<'
  {
    if es != [] {
      var x := Serialize(es[0]);
      SerializeOpens(es[0]);
      assert SerializeAll(es) + rest == x + (SerializeAll(es[1..]) + rest);
      assert (x + (SerializeAll(es[1..]) + rest))[0] == x[0];
    }
  }

  lemma SerializeOpens(e: Element)
    ensures Serialize(e) != [] && Serialize(e)[0] == '<'
  {
    if e.text != [] || e.children != [] {
      var x := StartTag(e.tag);
      assert x[0] == '<';
      assert Serialize(e) == x + (EscapeText(e.text) + SerializeAll(e.children) + EndTag(e.tag));
    }
  }

  /** A serialised element starts with `<` and the first character of its tag. */
  lemma SerializeStart(e: Element)
    requires ValidTag(e.tag)
    ensures |Serialize(e)| >= 2 && Serialize(e)[0] == '<' && Serialize(e)[1] == e.tag[0]
  {
  }

  lemma {:induction false} ChildrenRoundTrip(es: seq<Element>, rest: string)
    requires forall i :: 0 <= i < |es| ==> WellFormed(es[i])
    requires |rest| >= 2 && rest[0] == '<' && rest[1] == '/'
    ensures ParseChildren(SerializeAll(es) + rest) == Some((es, rest))
    decreases es, 0
  {
    if es == [] {
      assert SerializeAll(es) + rest == rest;
    } else {
      var e, more := es[0], es[1..];
      var tail := SerializeAll(more) + rest;
      assert WellFormed(e);
      assert forall i :: 0 <= i < |more| ==> WellFormed(more[i]) by {
        forall i | 0 <= i < |more| ensures WellFormed(more[i]) {
          assert more[i] == es[i + 1];
        }
      }
      ElementRoundTrip(e, tail);
      ChildrenRoundTrip(more, rest);
      ChildrenStep(e, more, rest);
      assert [e] + more == es;
    }
  }

  lemma ChildrenStep(e: Element, more: seq<Element>, rest: string)
    requires ValidTag(e.tag)
    requires ParseElement(Serialize(e) + (SerializeAll(more) + rest)) == Some((e, SerializeAll(more) + rest))
    requires ParseChildren(SerializeAll(more) + rest) == Some((more, rest))
    ensures ParseChildren(SerializeAll([e] + more) + rest) == Some(([e] + more, rest))
  {
    SerializeStart(e);
    ReadNext(e, Serialize(e), more, SerializeAll(more) + rest, rest);
    SerializeCons(e, more, rest);
  }

  lemma SerializeCons(e: Element, more: seq<Element>, rest: string)
    ensures SerializeAll([e] + more) + rest == Serialize(e) + (SerializeAll(more) + rest)
  {
    assert ([e] + more)[1..] == more;
  }

  /** An element followed by more elements. */
  lemma ReadNext(e: Element, x: string, es: seq<Element>, tail: string, rest: string)
    requires |x| >= 2 && x[0] == '<' && x[1] != '/'
    requires ParseElement(x + tail) == Some((e, tail))
    requires ParseChildren(tail) == Some((es, rest))
    ensures ParseChildren(x + tail) == Some(([e] + es, rest))
  {
    assert (x + tail)[0] == '<' && (x + tail)[1] == x[1];
  }

  /** `tostring(root)` reads back as `root` and nothing else. */
  lemma DocumentRoundTrip(root: Element)
    requires WellFormed(root)
    ensures ParseElement(Serialize(root)) == Some((root, []))
  {
    ElementRoundTrip(root, []);
    assert Serialize(root) + [] == Serialize(root);
  }

  predicate Ascii(s: string) {
    forall i :: 0 <= i < |s| ==> s[i] as int < 128
  }

  lemma AsciiConcat(a: string, b: string)
    requires Ascii(a) && Ascii(b)
    ensures Ascii(a + b)
  {
    forall i | 0 <= i < |a + b| ensures (a + b)[i] as int < 128 {
      if i >= |a| {
        assert (a + b)[i] == b[i - |a|];
      }
    }
  }

  /** The `us-ascii` encoding: a well-formed tree serialises to ASCII only. */
  lemma {:induction false} SerializeAscii(e: Element)
    requires WellFormed(e)
    ensures Ascii(Serialize(e))
    decreases e, 1
  {
    AsciiConcat("<", e.tag);
    if e.text == [] && e.children == [] {
      AsciiConcat("<" + e.tag, " />");
    } else {
      AsciiConcat("<" + e.tag, ">");
      AsciiConcat("</" , e.tag);
      AsciiConcat("</" + e.tag, ">");
      SerializeAllAscii(e.children);
      AsciiConcat(StartTag(e.tag), EscapeText(e.text));
      AsciiConcat(StartTag(e.tag) + EscapeText(e.text), SerializeAll(e.children));
      AsciiConcat(StartTag(e.tag) + EscapeText(e.text) + SerializeAll(e.children), EndTag(e.tag));
    }
  }

  lemma {:induction false} SerializeAllAscii(es: seq<Element>)
    requires forall i :: 0 <= i < |es| ==> WellFormed(es[i])
    ensures Ascii(SerializeAll(es))
    decreases es, 0
  {
    if es != [] {
      SerializeAscii(es[0]);
      SerializeAllAscii(es[1..]);
      AsciiConcat(Serialize(es[0]), SerializeAll(es[1..]));
    }
  }

  /** ASCII text without `&`, `<` or `>` is written as it is. */
  /** ASCII text that `_escape_cdata` leaves as it is. */
  predicate NoMarkup(s: string) {
    forall i :: 0 <= i < |s| ==> s[i] != '&' && s[i] != '<' && s[i] != '>' && s[i] as int < 128
  }

  lemma {:induction false} EscapePlain(s: string)
    requires NoMarkup(s)
    ensures EscapeText(s) == s
  {
    if s != [] {
      EscapePlain(s[1..]);
      assert [s[0]] + s[1..] == s;
    }
  }
}
