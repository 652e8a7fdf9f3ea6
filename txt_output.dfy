/**
 * The plain-text formatter (`output_to_txt`, BulkSearch.py:140-147): for each
 * file in dictionary order, its path on a line of its own, one
 * `Line <n>: <text>` line per match, then an empty line. A matched line keeps
 * the terminator it was read with, so the text of a match that ends in a
 * newline is followed by a second one.
 */
module TxtOutput {
  import opened Wrappers
  import opened Strings
  import opened SearchResults

  /** The line written for one match. */
  function MatchLine(m: Match): string {
    "Line " + IntToString(m.0) + ": " + m.1 + "\n"
  }

  /** The lines written for a match list, in order. */
  function MatchLines(ms: seq<Match>): string {
    if ms == [] then "" else MatchLine(ms[0]) + MatchLines(ms[1..])
  }

  /** The block written for one file. */
  function Block(e: Entry): string {
    e.0 + "\n" + MatchLines(e.1) + "\n"
  }

  /** The report: the blocks of the files in dictionary order. */
  function Txt(d: SearchResult): string {
    if d == [] then "" else Block(d[0]) + Txt(d[1..])
  }

  method OutputToTxt(data: SearchResult) returns (msg: string)
    ensures msg == Txt(data)
  {
    msg := "";
    for i := 0 to |data|
      invariant msg == Txt(data[..i])
    {
      var (file, matchs) := data[i];
      ghost var before := msg;
      msg := msg + file + "\n";
      var lines := MatchesToTxt(matchs);
      msg := msg + lines + "\n";
      TxtStep(data, i, before, lines);
    }
    assert data[..|data|] == data;
  }

  lemma TxtStep(data: SearchResult, i: int, before: string, lines: string)
    requires 0 <= i < |data| && before == Txt(data[..i]) && lines == MatchLines(data[i].1)
    ensures before + data[i].0 + "\n" + lines + "\n" == Txt(data[..i + 1])
  {
    Regroup5(before, data[i].0, "\n", lines, "\n");
    PrefixSnoc(data, i);
    TxtSnoc(data[..i], data[i]);
  }

  /** The inner loop of `output_to_txt`, over one file's matches. */
  method MatchesToTxt(matchs: seq<Match>) returns (msg: string)
    ensures msg == MatchLines(matchs)
  {
    msg := "";
    for j := 0 to |matchs|
      invariant msg == MatchLines(matchs[..j])
    {
      var (lineCount, lineStr) := matchs[j];
      ghost var before := msg;
      msg := msg + "Line " + IntToString(lineCount) + ": " + lineStr + "\n";
      MatchLinesPrefix(matchs, j, before);
    }
    assert matchs[..|matchs|] == matchs;
  }

  lemma MatchLinesPrefix(ms: seq<Match>, j: int, before: string)
    requires 0 <= j < |ms| && before == MatchLines(ms[..j])
    ensures before + "Line " + IntToString(ms[j].0) + ": " + ms[j].1 + "\n" == MatchLines(ms[..j + 1])
  {
    Regroup6(before, "Line ", IntToString(ms[j].0), ": ", ms[j].1, "\n");
    PrefixSnoc(ms, j);
    MatchLinesSnoc(ms[..j], ms[j]);
  }

  lemma {:induction false} MatchLinesSnoc(ms: seq<Match>, m: Match)
    ensures MatchLines(ms + [m]) == MatchLines(ms) + MatchLine(m)
  {
    if ms == [] {
      assert [m][1..] == [];
    } else {
      assert (ms + [m])[1..] == ms[1..] + [m];
      MatchLinesSnoc(ms[1..], m);
      ConcatAssoc(MatchLine(ms[0]), MatchLines(ms[1..]), MatchLine(m));
    }
  }

  lemma {:induction false} TxtSnoc(d: SearchResult, e: Entry)
    ensures Txt(d + [e]) == Txt(d) + Block(e)
  {
    if d == [] {
      assert [e][1..] == [];
    } else {
      assert (d + [e])[1..] == d[1..] + [e];
      TxtSnoc(d[1..], e);
      ConcatAssoc(Block(d[0]), Txt(d[1..]), Block(e));
    }
  }

  /** The report of two dictionaries one after the other is the two reports one after the other. */
  lemma {:induction false} TxtAppend(a: SearchResult, b: SearchResult)
    ensures Txt(a + b) == Txt(a) + Txt(b)
  {
    if a == [] {
      assert a + b == b;
    } else {
      assert (a + b)[1..] == a[1..] + b;
      TxtAppend(a[1..], b);
      ConcatAssoc(Block(a[0]), Txt(a[1..]), Txt(b));
    }
  }

  /** The report is empty exactly when the dictionary is. */
  lemma TxtEmpty(d: SearchResult)
    ensures Txt(d) == [] <==> d == []
  {
    if d != [] {
      assert |Block(d[0])| > 0;
    }
  }

  // Reading a report back. A path that contains a newline, or a matched line
  // with a newline before its end, makes the report ambiguous; any other
  // result can be read back. Paths the enumerator builds always start with `/`.

  predicate NoNewline(s: string) {
    forall i :: 0 <= i < |s| ==> s[i] != '\n'
  }

  /** A line as read from a text file: a newline, if any, only at its end. */
  predicate LineText(s: string) {
    forall i :: 0 <= i < |s| - 1 ==> s[i] != '\n'
  }

  /** A result whose report can be read back unambiguously. */
  predicate Readable(d: SearchResult) {
    forall i :: 0 <= i < |d| ==>
      var (name, ms) := d[i];
      name != [] && name[0] == '/' && NoNewline(name)
      && forall j :: 0 <= j < |ms| ==> LineText(ms[j].1)
  }

  /** The length of the first line of `s`, without its newline. */
  function LineLength(s: string): (k: nat)
    ensures k <= |s| && NoNewline(s[..k]) && (k < |s| ==> s[k] == '\n')
  {
    if s == [] || s[0] == '\n' then 0
    else
      var k := 1 + LineLength(s[1..]);
      assert s[..k] == [s[0]] + s[1..][..k - 1];
      k
  }

  /** Reads `Line <n>: ` and the rest of that line: the number, the line's text and what follows its newline. */
  function ParseLineHead(s: string): (r: Option<(int, string, string)>)
    ensures r.Some? ==> |r.value.2| < |s|
  {
    match Expect("Line ", s)
    case None => None
    case Some(a) =>
      match ParseInt(a)
      case None => None
      case Some((n, b)) =>
        match Expect(": ", b)
        case None => None
        case Some(c) =>
          var k := LineLength(c);
          if k == |c| then None else Some((n, c[..k], c[k + 1..]))
  }

  /**
   * Reads `Line` lines up to and including the empty line that ends a block.
   * After a match line, a second newline belongs to the matched text when a
   * `Line` line or the end of the block follows it, and ends the block when
   * a path or the end of the report follows it.
   */
  function ParseMatchLines(s: string): (r: Option<(seq<Match>, string)>)
    ensures r.Some? ==> |r.value.1| < |s|
    decreases |s|
  {
    if s != [] && s[0] == '\n' then Some(([], s[1..]))
    else
      match ParseLineHead(s)
      case None => None
      case Some((n, t, p)) =>
        if p != [] && p[0] == '\n' && (|p| == 1 || p[1] == '/') then Some(([(n, t)], p[1..]))
        else if p != [] && p[0] == '\n' then
          match ParseMatchLines(p[1..])
          case None => None
          case Some((ms, rest)) => Some(([(n, t + "\n")] + ms, rest))
        else
          match ParseMatchLines(p)
          case None => None
          case Some((ms, rest)) => Some(([(n, t)] + ms, rest))
  }

  /** Reads blocks until the report ends. */
  function ParseBlocks(s: string): Option<SearchResult>
    decreases |s|
  {
    if s == [] then Some([])
    else
      var k := LineLength(s);
      if k == |s| then None
      else
        match ParseMatchLines(s[k + 1..])
        case None => None
        case Some((ms, rest)) =>
          match ParseBlocks(rest)
          case None => None
          case Some(d) => Some([(s[..k], ms)] + d)
  }

  lemma LineLengthOf(t: string, rest: string)
    requires NoNewline(t)
    ensures LineLength(t + "\n" + rest) == |t|
  {
    if t == [] {
      assert (t + "\n" + rest)[0] == '\n';
    } else {
      assert (t + "\n" + rest)[1..] == t[1..] + "\n" + rest;
      LineLengthOf(t[1..], rest);
    }
  }

  lemma LineHeadRoundTrip(n: int, t: string, p: string)
    requires NoNewline(t)
    ensures ParseLineHead("Line " + IntToString(n) + ": " + t + "\n" + p) == Some((n, t, p))
  {
    var c := t + "\n" + p;
    var b := ": " + c;
    var a := IntToString(n) + b;
    LineNest(IntToString(n), t, p);
    ExpectOf("Line ", a);
    ParseIntRoundTrip(n, b);
    ExpectOf(": ", c);
    LineLengthOf(t, p);
    LineSplit(t, p);
    ReadLineHead("Line " + a, a, n, b, c, t, p);
  }

  lemma LineNest(x: string, t: string, p: string)
    ensures "Line " + x + ": " + t + "\n" + p == "Line " + (x + (": " + (t + "\n" + p)))
  {
    Regroup6("Line ", x, ": ", t, "\n", p);
    Regroup4(x, ": ", t + "\n", p);
    Regroup5(x, ": ", t, "\n", p);
    ConcatAssoc(": ", t + "\n", p);
  }

  lemma LineSplit(t: string, p: string)
    ensures var c := t + "\n" + p; |t| < |c| && c[..|t|] == t && c[|t| + 1..] == p
  {
    var c := t + "\n" + p;
    assert c[..|t|] == t;
    assert c[|t| + 1..] == p;
  }

  /** One reading of a `Line` line head, its parts given. */
  lemma ReadLineHead(s: string, a: string, n: int, b: string, c: string, t: string, p: string)
    requires Expect("Line ", s) == Some(a) && ParseInt(a) == Some((n, b)) && Expect(": ", b) == Some(c)
    requires LineLength(c) == |t| && |t| < |c| && c[..|t|] == t && c[|t| + 1..] == p
    ensures ParseLineHead(s) == Some((n, t, p))
  {
  }

  /** A match line as written, and its first character. */
  lemma LineOf(n: int, t: string, p: string)
    ensures var s := "Line " + IntToString(n) + ": " + t + "\n" + p;
      MatchLine((n, t)) + p == s && s != [] && s[0] == 'L'
  {
    LineNest(IntToString(n), t, p);
  }

  /** A newline in front of `after`. */
  lemma NewlineSplit(after: string)
    ensures var p := "\n" + after; p != [] && p[0] == '\n' && p[1..] == after && (after != [] ==> |p| > 1 && p[1] == after[0])
  {
  }

  /** The last line of a block, its parts given. */
  lemma ReadEnd(s: string, n: int, t: string, p: string, next: string)
    requires s != [] && s[0] != '\n' && ParseLineHead(s) == Some((n, t, p))
    requires p != [] && p[0] == '\n' && (|p| == 1 || p[1] == '/') && p[1..] == next
    ensures ParseMatchLines(s) == Some(([(n, t)], next))
  {
  }

  /** A line followed directly by another line, its parts given. */
  lemma ReadNext(s: string, n: int, t: string, p: string, more: seq<Match>, next: string)
    requires s != [] && s[0] != '\n' && ParseLineHead(s) == Some((n, t, p))
    requires p != [] && p[0] != '\n' && ParseMatchLines(p) == Some((more, next))
    ensures ParseMatchLines(s) == Some(([(n, t)] + more, next))
  {
  }

  /** A line whose newline is followed by a second one that belongs to it, its parts given. */
  lemma ReadKept(s: string, n: int, t: string, p: string, after: string, more: seq<Match>, next: string)
    requires s != [] && s[0] != '\n' && ParseLineHead(s) == Some((n, t, p))
    requires p != [] && p[0] == '\n' && |p| > 1 && p[1] != '/' && p[1..] == after
    requires ParseMatchLines(after) == Some((more, next))
    ensures ParseMatchLines(s) == Some(([(n, t + "\n")] + more, next))
  {
  }

  /** The last match line of a block, followed by the empty line and a path or the end of the report. */
  lemma ReadBlockEnd(n: int, t: string, next: string)
    requires NoNewline(t)
    requires next == [] || next[0] == '/'
    ensures ParseMatchLines(MatchLine((n, t)) + ("\n" + next)) == Some(([(n, t)], next))
  {
    var p := "\n" + next;
    LineOf(n, t, p);
    LineHeadRoundTrip(n, t, p);
    NewlineSplit(next);
    ReadEnd(MatchLine((n, t)) + p, n, t, p, next);
  }

  /** A match line followed by another one. */
  lemma ReadNextLine(n: int, t: string, after: string, more: seq<Match>, next: string)
    requires NoNewline(t)
    requires after != [] && after[0] == 'L'
    requires ParseMatchLines(after) == Some((more, next))
    ensures ParseMatchLines(MatchLine((n, t)) + after) == Some(([(n, t)] + more, next))
  {
    LineOf(n, t, after);
    LineHeadRoundTrip(n, t, after);
    ReadNext(MatchLine((n, t)) + after, n, t, after, more, next);
  }

  /** Match lines followed by the empty line that ends the block read back as the matches. */
  lemma {:induction false} MatchLinesRoundTrip(ms: seq<Match>, next: string)
    requires forall j :: 0 <= j < |ms| ==> LineText(ms[j].1)
    requires next == [] || next[0] == '/'
    ensures ParseMatchLines(MatchLines(ms) + "\n" + next) == Some((ms, next))
  {
    if ms == [] {
      assert MatchLines(ms) + "\n" + next == "\n" + next;
    } else {
      var m, more := ms[0], ms[1..];
      assert ms == [m] + more;
      assert forall j :: 0 <= j < |more| ==> LineText(more[j].1) by {
        forall j | 0 <= j < |more| ensures LineText(more[j].1) {
          assert more[j] == ms[j + 1];
        }
      }
      MatchLinesRoundTrip(more, next);
      var after := MatchLines(more) + "\n" + next;
      assert LineText(m.1);
      MatchLinesStep(m, more, next);
      ReadMatchLine(m, after, more, next);
    }
  }

  lemma MatchLinesStep(m: Match, more: seq<Match>, next: string)
    ensures MatchLines([m] + more) + "\n" + next == MatchLine(m) + (MatchLines(more) + "\n" + next)
    ensures var after := MatchLines(more) + "\n" + next;
      after != [] && (more == [] ==> after == "\n" + next) && (more != [] ==> after[0] == 'L')
  {
    assert ([m] + more)[1..] == more;
    if more != [] {
      assert (MatchLine(more[0]) + MatchLines(more[1..]))[0] == 'L';
    }
  }

  /** One match line, then either more match lines or the end of the block. */
  lemma ReadMatchLine(m: Match, after: string, more: seq<Match>, next: string)
    requires LineText(m.1)
    requires next == [] || next[0] == '/'
    requires after != [] && (more == [] ==> after == "\n" + next) && (more != [] ==> after[0] == 'L')
    requires ParseMatchLines(after) == Some((more, next))
    ensures ParseMatchLines(MatchLine(m) + after) == Some(([m] + more, next))
  {
    if m.1 != [] && m.1[|m.1| - 1] == '\n' {
      KeptMatchLine(m, after, more, next);
    } else {
      PlainMatchLine(m, after, more, next);
    }
  }

  lemma KeptMatchLine(m: Match, after: string, more: seq<Match>, next: string)
    requires LineText(m.1) && m.1 != [] && m.1[|m.1| - 1] == '\n'
    requires after != [] && (after[0] == 'L' || after[0] == '\n')
    requires ParseMatchLines(after) == Some((more, next))
    ensures ParseMatchLines(MatchLine(m) + after) == Some(([m] + more, next))
  {
    KeptSplit(m.1);
    var t := m.1[..|m.1| - 1];
    ReadKeptLine(m.0, t, after, more, next);
    assert m == (m.0, t + "\n");
  }

  lemma PlainMatchLine(m: Match, after: string, more: seq<Match>, next: string)
    requires LineText(m.1) && (m.1 == [] || m.1[|m.1| - 1] != '\n')
    requires next == [] || next[0] == '/'
    requires after != [] && (more == [] ==> after == "\n" + next) && (more != [] ==> after[0] == 'L')
    requires ParseMatchLines(after) == Some((more, next))
    ensures ParseMatchLines(MatchLine(m) + after) == Some(([m] + more, next))
  {
    ReadPlainLine(m.0, m.1, after, more, next);
    assert m == (m.0, m.1);
  }

  lemma KeptSplit(text: string)
    requires LineText(text) && text != [] && text[|text| - 1] == '\n'
    ensures var t := text[..|text| - 1]; text == t + "\n" && NoNewline(t)
  {
    var t := text[..|text| - 1];
    assert text == t + "\n";
  }

  lemma ReadKeptLine(n: int, t: string, after: string, more: seq<Match>, next: string)
    requires NoNewline(t)
    requires after != [] && (after[0] == 'L' || after[0] == '\n')
    requires ParseMatchLines(after) == Some((more, next))
    ensures ParseMatchLines(MatchLine((n, t + "\n")) + after) == Some(([(n, t + "\n")] + more, next))
  {
    var p := "\n" + after;
    KeptOf(n, t, after);
    LineOf(n, t, p);
    LineHeadRoundTrip(n, t, p);
    NewlineSplit(after);
    ReadKept(MatchLine((n, t + "\n")) + after, n, t, p, after, more, next);
  }

  /** A matched line that ends in a newline is written with a second one. */
  lemma KeptOf(n: int, t: string, after: string)
    ensures MatchLine((n, t + "\n")) + after == "Line " + IntToString(n) + ": " + t + "\n" + ("\n" + after)
  {
    var h := "Line " + IntToString(n) + ": ";
    assert MatchLine((n, t + "\n")) == h + (t + "\n") + "\n";
    ConcatAssoc(h, t, "\n");
    ConcatAssoc(h + t + "\n", "\n", after);
  }

  lemma ReadPlainLine(n: int, text: string, after: string, more: seq<Match>, next: string)
    requires LineText(text) && (text == [] || text[|text| - 1] != '\n')
    requires next == [] || next[0] == '/'
    requires after != [] && (more == [] ==> after == "\n" + next) && (more != [] ==> after[0] == 'L')
    requires ParseMatchLines(after) == Some((more, next))
    ensures ParseMatchLines(MatchLine((n, text)) + after) == Some(([(n, text)] + more, next))
  {
    PlainNoNewline(text);
    if more == [] {
      ReadLastLine(n, text, after, more, next);
    } else {
      ReadNextLine(n, text, after, more, next);
    }
  }

  lemma PlainNoNewline(text: string)
    requires LineText(text) && (text == [] || text[|text| - 1] != '\n')
    ensures NoNewline(text)
  {
  }

  lemma ReadLastLine(n: int, t: string, after: string, more: seq<Match>, next: string)
    requires NoNewline(t)
    requires next == [] || next[0] == '/'
    requires more == [] && after == "\n" + next
    ensures ParseMatchLines(MatchLine((n, t)) + after) == Some(([(n, t)] + more, next))
  {
    ReadBlockEnd(n, t, next);
    assert [(n, t)] + more == [(n, t)];
  }

  /** A readable result's report reads back as the result. */
  lemma {:induction false} TxtRoundTrip(d: SearchResult)
    requires Readable(d)
    ensures ParseBlocks(Txt(d)) == Some(d)
  {
    if d != [] {
      var e, more := d[0], d[1..];
      ReadableTail(d);
      TxtRoundTrip(more);
      TxtStart(more);
      MatchLinesRoundTrip(e.1, Txt(more));
      ReadBlock(e.0, e.1, Txt(more), more);
      ConsTail(d);
    }
  }

  lemma ReadableTail(d: SearchResult)
    requires Readable(d) && d != []
    ensures Readable(d[1..])
    ensures d[0].0 != [] && NoNewline(d[0].0)
    ensures forall j :: 0 <= j < |d[0].1| ==> LineText(d[0].1[j].1)
  {
    var more := d[1..];
    forall i | 0 <= i < |more| ensures more[i] == d[i + 1] { }
  }

  /** A readable report starts with a path, or is empty. */
  lemma TxtStart(d: SearchResult)
    requires Readable(d)
    ensures Txt(d) == [] || Txt(d)[0] == '/'
  {
    if d != [] {
      var name := d[0].0;
      assert name != [] && name[0] == '/';
      FirstOf(name, "\n", MatchLines(d[0].1), "\n", Txt(d[1..]));
    }
  }

  lemma FirstOf(a: string, b: string, c: string, x: string, y: string)
    requires a != []
    ensures var s := a + b + c + x + y; s != [] && s[0] == a[0]
  {
  }

  lemma ReadBlock(name: string, ms: seq<Match>, next: string, more: SearchResult)
    requires name != [] && NoNewline(name)
    requires ParseMatchLines(MatchLines(ms) + "\n" + next) == Some((ms, next))
    requires ParseBlocks(next) == Some(more)
    ensures ParseBlocks(Block((name, ms)) + next) == Some([(name, ms)] + more)
  {
    var body := MatchLines(ms) + "\n" + next;
    Regroup4(name + "\n", MatchLines(ms), "\n", next);
    LineLengthOf(name, body);
    LineSplit(name, body);
    ReadBlockAt(Block((name, ms)) + next, name, body, ms, next, more);
  }

  /** One reading of a block, its parts given. */
  lemma ReadBlockAt(s: string, name: string, body: string, ms: seq<Match>, next: string, more: SearchResult)
    requires s != [] && LineLength(s) == |name| && |name| < |s| && s[..|name|] == name && s[|name| + 1..] == body
    requires ParseMatchLines(body) == Some((ms, next))
    requires ParseBlocks(next) == Some(more)
    ensures ParseBlocks(s) == Some([(name, ms)] + more)
  {
  }
}
