/**
 * The XML formatter (`output_to_xml`, BulkSearch.py:150-166). The document
 * is `<search>` holding `<string>` (the search text) and `<files>`. For each
 * file, `<files>` receives a `<file>` element holding `<name>`, followed by a
 * `<matchs>` element holding one `<match>` per match. `<matchs>` is a sibling
 * of its `<file>`, not a child, because the source attaches it to `files`.
 */
module XmlOutput {
  import opened Wrappers
  import opened Strings
  import opened SearchResults
  import opened XmlTree

  function Leaf(tag: string, text: string): Element {
    Element(tag, text, [])
  }

  function MatchElement(m: Match): Element {
    Element("match", [], [Leaf("line_number", IntToString(m.0)), Leaf("line_string", m.1)])
  }

  function MatchElements(ms: seq<Match>): seq<Element> {
    seq(|ms|, i requires 0 <= i < |ms| => MatchElement(ms[i]))
  }

  /** The two elements one dictionary entry adds to `<files>`. */
  function FileElements(e: Entry): seq<Element> {
    [Element("file", [], [Leaf("name", e.0)]), Element("matchs", [], MatchElements(e.1))]
  }

  function FilesChildren(d: SearchResult): seq<Element> {
    if d == [] then [] else FileElements(d[0]) + FilesChildren(d[1..])
  }

  /** The tree `output_to_xml` builds before serialising it. */
  function SearchTree(d: SearchResult, pattern: string): Element {
    Element("search", [], [Leaf("string", pattern), Element("files", [], FilesChildren(d))])
  }

  /**
   * The loops of `output_to_xml`. ElementTree builds the tree by attaching
   * new sub-elements to existing ones; here each element is built as a value
   * and placed once it is complete.
   */
  method OutputToXml(data: SearchResult, pattern: string) returns (xml: string)
    ensures xml == Serialize(SearchTree(data, pattern))
  {
    var files: seq<Element> := [];
    for i := 0 to |data|
      invariant files == FilesChildren(data[..i])
    {
      var (file, matchs) := data[i];
      var fileNode := Element("file", [], [Element("name", file, [])]);
      var matchsNode := BuildMatchs(matchs);
      FilesChildrenSnoc(data[..i], data[i]);
      assert data[..i + 1] == data[..i] + [data[i]];
      files := files + [fileNode, matchsNode];
    }
    assert data[..|data|] == data;
    var root := Element("search", [], [Element("string", pattern, []), Element("files", [], files)]);
    xml := Serialize(root);
  }

  /** The inner loop: one `<match>` per match, in order, under a new `<matchs>`. */
  method BuildMatchs(matchs: seq<Match>) returns (node: Element)
    ensures node == Element("matchs", [], MatchElements(matchs))
  {
    var children: seq<Element> := [];
    for j := 0 to |matchs|
      invariant children == MatchElements(matchs[..j])
    {
      var (lineCount, lineString) := matchs[j];
      var lineCountNode := Element("line_number", IntToString(lineCount), []);
      var lineStringNode := Element("line_string", lineString, []);
      MatchElementsSnoc(matchs, j);
      children := children + [Element("match", [], [lineCountNode, lineStringNode])];
    }
    assert matchs[..|matchs|] == matchs;
    node := Element("matchs", [], children);
  }

  lemma MatchElementsSnoc(ms: seq<Match>, j: int)
    requires 0 <= j < |ms|
    ensures MatchElements(ms[..j + 1]) == MatchElements(ms[..j]) + [MatchElement(ms[j])]
  {
    var a, b := MatchElements(ms[..j + 1]), MatchElements(ms[..j]) + [MatchElement(ms[j])];
    assert |a| == |b|;
    forall i | 0 <= i < |a| ensures a[i] == b[i] {
      assert ms[..j + 1][i] == ms[i];
      if i < j {
        assert ms[..j][i] == ms[i];
      }
    }
  }

  lemma {:induction false} FilesChildrenSnoc(d: SearchResult, e: Entry)
    ensures FilesChildren(d + [e]) == FilesChildren(d) + FileElements(e)
  {
    if d == [] {
      assert [e][1..] == [];
    } else {
      assert (d + [e])[1..] == d[1..] + [e];
      FilesChildrenSnoc(d[1..], e);
    }
  }

  /** Reads one `<match>` back: its line number must be a whole decimal integer. */
  function DecodeMatch(e: Element): Option<Match> {
    if e.tag == "match" && e.text == [] && |e.children| == 2
      && e.children[0].tag == "line_number" && e.children[0].children == []
      && e.children[1].tag == "line_string" && e.children[1].children == []
    then
      match ParseInt(e.children[0].text)
      case Some((n, rest)) => if rest == [] then Some((n, e.children[1].text)) else None
      case None => None
    else None
  }

  function DecodeMatches(es: seq<Element>): Option<seq<Match>> {
    if es == [] then Some([])
    else
      match (DecodeMatch(es[0]), DecodeMatches(es[1..]))
      case (Some(m), Some(ms)) => Some([m] + ms)
      case _ => None
  }

  /** Reads the children of `<files>` back, a `<file>` and a `<matchs>` at a time. */
  function DecodeFiles(es: seq<Element>): Option<SearchResult>
    decreases |es|
  {
    if es == [] then Some([])
    else if |es| >= 2 && es[0].tag == "file" && es[0].text == [] && |es[0].children| == 1
      && es[0].children[0].tag == "name" && es[0].children[0].children == []
      && es[1].tag == "matchs" && es[1].text == []
    then
      match (DecodeMatches(es[1].children), DecodeFiles(es[2..]))
      case (Some(ms), Some(d)) => Some([(es[0].children[0].text, ms)] + d)
      case _ => None
    else None
  }

  function DecodeSearch(root: Element): Option<(string, SearchResult)> {
    if root.tag == "search" && root.text == [] && |root.children| == 2
      && root.children[0].tag == "string" && root.children[0].children == []
      && root.children[1].tag == "files" && root.children[1].text == []
    then
      match DecodeFiles(root.children[1].children)
      case Some(d) => Some((root.children[0].text, d))
      case None => None
    else None
  }

  /** Reads a whole document produced by `output_to_xml` back into the search text and the result. */
  function DecodeXml(xml: string): Option<(string, SearchResult)> {
    match ParseElement(xml)
    case Some((root, rest)) => if rest == [] then DecodeSearch(root) else None
    case None => None
  }

  lemma MatchRoundTrip(m: Match)
    ensures DecodeMatch(MatchElement(m)) == Some(m)
  {
    ParseIntRoundTrip(m.0, []);
    assert IntToString(m.0) + [] == IntToString(m.0);
  }

  lemma {:induction false} MatchesRoundTrip(ms: seq<Match>)
    ensures DecodeMatches(MatchElements(ms)) == Some(ms)
  {
    if ms != [] {
      MatchesRoundTrip(ms[1..]);
      MatchesCons(ms);
    }
  }

  lemma MatchesCons(ms: seq<Match>)
    requires ms != [] && DecodeMatches(MatchElements(ms[1..])) == Some(ms[1..])
    ensures DecodeMatches(MatchElements(ms)) == Some(ms)
  {
    MatchElementsTail(ms);
    MatchRoundTrip(ms[0]);
    DecodeMatchesCons(MatchElements(ms), ms[0], ms[1..]);
    ConsTail(ms);
  }

  lemma MatchElementsTail(ms: seq<Match>)
    requires ms != []
    ensures var es := MatchElements(ms); es != [] && es[0] == MatchElement(ms[0]) && es[1..] == MatchElements(ms[1..])
  {
    var es := MatchElements(ms);
    assert |es[1..]| == |MatchElements(ms[1..])|;
    forall i | 0 <= i < |es[1..]| ensures es[1..][i] == MatchElements(ms[1..])[i] {
      assert ms[1..][i] == ms[i + 1];
    }
  }

  lemma DecodeMatchesCons(es: seq<Element>, m: Match, ms: seq<Match>)
    requires es != [] && DecodeMatch(es[0]) == Some(m) && DecodeMatches(es[1..]) == Some(ms)
    ensures DecodeMatches(es) == Some([m] + ms)
  {
  }

  lemma {:induction false} FilesRoundTrip(d: SearchResult)
    ensures DecodeFiles(FilesChildren(d)) == Some(d)
  {
    if d != [] {
      MatchesRoundTrip(d[0].1);
      FilesRoundTrip(d[1..]);
      DecodeFilesCons(d[0], FilesChildren(d[1..]), d[1..]);
      ConsTail(d);
    }
  }

  lemma DecodeFilesCons(e: Entry, rest: seq<Element>, d: SearchResult)
    requires DecodeMatches(MatchElements(e.1)) == Some(e.1) && DecodeFiles(rest) == Some(d)
    ensures DecodeFiles(FileElements(e) + rest) == Some([e] + d)
  {
    var es := FileElements(e) + rest;
    assert es[0] == Element("file", [], [Leaf("name", e.0)]);
    assert es[1] == Element("matchs", [], MatchElements(e.1));
    assert es[2..] == rest;
  }

  predicate AllWellFormed(es: seq<Element>) {
    forall i :: 0 <= i < |es| ==> WellFormed(es[i])
  }

  lemma {:induction false} FilesWellFormed(d: SearchResult)
    ensures AllWellFormed(FilesChildren(d))
  {
    if d != [] {
      FilesWellFormed(d[1..]);
      FileElementsWellFormed(d[0]);
      AllWellFormedConcat(FileElements(d[0]), FilesChildren(d[1..]));
    }
  }

  lemma AllWellFormedConcat(a: seq<Element>, b: seq<Element>)
    requires AllWellFormed(a) && AllWellFormed(b)
    ensures AllWellFormed(a + b)
  {
    forall i | 0 <= i < |a + b| ensures WellFormed((a + b)[i]) {
      if i >= |a| {
        assert (a + b)[i] == b[i - |a|];
      } else {
        assert (a + b)[i] == a[i];
      }
    }
  }

  lemma FileElementsWellFormed(e: Entry)
    ensures AllWellFormed(FileElements(e))
  {
    var f := Element("file", [], [Leaf("name", e.0)]);
    assert WellFormed(f) by {
      assert WellFormed(Leaf("name", e.0));
    }
    MatchsWellFormed(e.1);
  }

  lemma MatchsWellFormed(ms: seq<Match>)
    ensures WellFormed(Element("matchs", [], MatchElements(ms)))
  {
    var es := MatchElements(ms);
    forall i | 0 <= i < |es| ensures WellFormed(es[i]) {
      MatchWellFormed(ms[i]);
    }
  }

  lemma MatchWellFormed(m: Match)
    ensures WellFormed(MatchElement(m))
  {
    var e := MatchElement(m);
    LeafTags();
    LeafWellFormed("line_number", IntToString(m.0));
    LeafWellFormed("line_string", m.1);
    assert ValidTag(e.tag) && AllWellFormed(e.children);
  }

  lemma LeafWellFormed(tag: string, text: string)
    requires ValidTag(tag)
    ensures WellFormed(Leaf(tag, text))
  {
  }

  /** The tags `output_to_xml` writes are plain names. */
  lemma LeafTags()
    ensures ValidTag("match") && ValidTag("line_number") && ValidTag("line_string")
  {
    TagOf("match");
    TagOf("line_number");
    TagOf("line_string");
  }

  lemma TagOf(tag: string)
    requires tag == "match" || tag == "line_number" || tag == "line_string"
    ensures ValidTag(tag)
  {
  }

  lemma TreeWellFormed(d: SearchResult, pattern: string)
    ensures WellFormed(SearchTree(d, pattern))
  {
    FilesWellFormed(d);
    var root := SearchTree(d, pattern);
    assert WellFormed(root.children[0]);
    assert WellFormed(root.children[1]);
  }

  /** The XML report determines the search text and the whole result, in order. */
  lemma XmlRoundTrip(data: SearchResult, pattern: string)
    ensures DecodeXml(Serialize(SearchTree(data, pattern))) == Some((pattern, data))
  {
    TreeWellFormed(data, pattern);
    DocumentRoundTrip(SearchTree(data, pattern));
    FilesRoundTrip(data);
  }

  /** The whole report is ASCII, whatever the file names and lines contain. */
  lemma XmlAscii(data: SearchResult, pattern: string)
    ensures Ascii(Serialize(SearchTree(data, pattern)))
  {
    TreeWellFormed(data, pattern);
    SerializeAscii(SearchTree(data, pattern));
  }

  /** Without results, `<files>` is written in its short form. */
  lemma XmlEmpty(pattern: string)
    ensures Serialize(SearchTree([], pattern))
      == StartTag("search") + Serialize(Leaf("string", pattern)) + "<files />" + EndTag("search")
  {
    var a, b := Leaf("string", pattern), Element("files", [], FilesChildren([]));
    var root := SearchTree([], pattern);
    assert root == Element("search", [], [a, b]);
    assert Serialize(b) == "<files />";
    SerializePair(a, b);
    SerializeRoot(root, [a, b]);
    ConcatAssoc(StartTag("search"), Serialize(a), Serialize(b));
  }

  lemma SerializePair(a: Element, b: Element)
    ensures SerializeAll([a, b]) == Serialize(a) + Serialize(b)
  {
    assert [a, b][1..] == [b];
    assert SerializeAll([b]) == Serialize(b) + SerializeAll([]);
  }

  /** An element without text and with children. */
  lemma SerializeRoot(root: Element, children: seq<Element>)
    requires root.text == [] && root.children == children && children != []
    ensures Serialize(root) == StartTag(root.tag) + SerializeAll(children) + EndTag(root.tag)
  {
    assert EscapeText([]) == [];
  }

  /** The empty report of the test suite, with the search text `string`. */
  lemma XmlEmptyExample()
    ensures Serialize(SearchTree([], "string")) == "<search><string>string</string><files /></search>"
  {
    var s := "string";
    XmlEmpty(s);
    StringPlain(s);
    LeafText("string", s);
    ExampleTags("search");
    ExampleTags("string");
    EmptyExampleText(StartTag("search"), StartTag("string"), EndTag("string"), EndTag("search"));
  }

  lemma StringPlain(s: string)
    requires s == "string"
    ensures s != [] && NoMarkup(s)
  {
  }

  lemma ExampleTags(tag: string)
    requires tag == "search" || tag == "string"
    ensures StartTag(tag) == "<" + tag + ">" && EndTag(tag) == "</" + tag + ">"
    ensures tag == "search" ==> StartTag(tag) == "<search>" && EndTag(tag) == "</search>"
    ensures tag == "string" ==> StartTag(tag) == "<string>" && EndTag(tag) == "</string>"
  {
  }

  /** A leaf whose text needs no escaping. */
  lemma LeafText(tag: string, text: string)
    requires text != [] && NoMarkup(text)
    ensures Serialize(Leaf(tag, text)) == StartTag(tag) + text + EndTag(tag)
  {
    EscapePlain(text);
    assert SerializeAll([]) == [];
  }

  lemma EmptyExampleText(a: string, b: string, c: string, d: string)
    requires a == "<search>" && b == "<string>" && c == "</string>" && d == "</search>"
    ensures a + (b + "string" + c) + "<files />" + d == "<search><string>string</string><files /></search>"
  {
    JoinLeaf(b, c);
    JoinHead(a, b + "string" + c);
    JoinFiles(a + (b + "string" + c));
    JoinTail(a + (b + "string" + c) + "<files />", d);
  }

  lemma JoinLeaf(b: string, c: string)
    requires b == "<string>" && c == "</string>"
    ensures b + "string" + c == "<string>string</string>"
  {
  }

  lemma JoinHead(a: string, x: string)
    requires a == "<search>" && x == "<string>string</string>"
    ensures a + x == "<search><string>string</string>"
  {
  }

  lemma JoinFiles(x: string)
    requires x == "<search><string>string</string>"
    ensures x + "<files />" == "<search><string>string</string><files />"
  {
  }

  lemma JoinTail(x: string, d: string)
    requires x == "<search><string>string</string><files />" && d == "</search>"
    ensures x + d == "<search><string>string</string><files /></search>"
  {
  }
}
