/**
 * The line matcher (`search_on_file`, BulkSearch.py:85-96): read an open
 * file line by line with a 1-based counter, keep `(number, line)` for every
 * line the pattern matches, and stop quietly at the first line that cannot
 * be decoded.
 */
module LineMatcher {
  import opened SearchResults

  /**
   * One step of iterating over the open file: a decoded line, with its line
   * terminator if the file has one, or the decode error that ends the
   * iteration.
   */
  datatype LineRead = Line(text: string) | DecodeError

  /** `re.search(pattern, line)` is truthy: the regular-expression engine, left abstract. */
  type Matcher = (string, string) -> bool

  /** The number of lines read before the first decode error. */
  function ReadableCount(file: seq<LineRead>): (n: nat)
    ensures n <= |file|
    ensures forall k :: 0 <= k < n ==> file[k].Line?
    ensures n < |file| ==> file[n].DecodeError?
  {
    if file == [] || file[0].DecodeError? then 0 else 1 + ReadableCount(file[1..])
  }

  /** The matches among lines that all decoded: `(k + 1, text)` for every matching line at index `k`. */
  function Collect(lines: seq<LineRead>, pattern: string, search: Matcher): seq<Match>
    requires forall k :: 0 <= k < |lines| ==> lines[k].Line?
  {
    if lines == [] then []
    else
      var earlier := Collect(lines[..|lines| - 1], pattern, search);
      var text := lines[|lines| - 1].text;
      if search(pattern, text) then earlier + [(|lines|, text)] else earlier
  }

  /** What `search_on_file` returns for a file: the matches before the first decode error. */
  function FileMatches(file: seq<LineRead>, pattern: string, search: Matcher): seq<Match>
  {
    Collect(file[..ReadableCount(file)], pattern, search)
  }

  method SearchOnFile(file: seq<LineRead>, pattern: string, search: Matcher) returns (result: seq<Match>)
    ensures result == FileMatches(file, pattern, search)
  {
    result := [];
    var lineCounter := 0;
    while lineCounter < |file|
      invariant lineCounter <= ReadableCount(file)
      invariant result == Collect(file[..lineCounter], pattern, search)
    {
      match file[lineCounter]
      case DecodeError =>
        // the `except UnicodeDecodeError` clause: log, keep what was found
        break;
      case Line(line) =>
        lineCounter := lineCounter + 1;
        assert file[..lineCounter][..lineCounter - 1] == file[..lineCounter - 1];
        if search(pattern, line) {
          result := result + [(lineCounter, line)];
        }
    }
  }

  /**
   * The matches are numbered from 1, in strictly increasing order, within
   * the lines read; each carries its line unchanged; and every matching line
   * read is among them.
   */
  lemma {:induction false} CollectSpec(lines: seq<LineRead>, pattern: string, search: Matcher)
    requires forall k :: 0 <= k < |lines| ==> lines[k].Line?
    ensures forall i :: 0 <= i < |Collect(lines, pattern, search)| ==>
      var (n, text) := Collect(lines, pattern, search)[i];
      1 <= n <= |lines| && lines[n - 1] == Line(text) && search(pattern, text)
    ensures forall i, j :: 0 <= i < j < |Collect(lines, pattern, search)| ==>
      Collect(lines, pattern, search)[i].0 < Collect(lines, pattern, search)[j].0
    ensures forall k :: 0 <= k < |lines| && search(pattern, lines[k].text) ==>
      (k + 1, lines[k].text) in Collect(lines, pattern, search)
  {
    if lines != [] {
      var earlier := lines[..|lines| - 1];
      CollectSpec(earlier, pattern, search);
      assert forall k :: 0 <= k < |earlier| ==> earlier[k] == lines[k];
    }
  }

  /**
   * A line is in the result of `search_on_file` exactly when it comes before
   * the first undecodable line and the pattern matches it; the line numbers
   * are 1-based, strictly increasing and at most the number of lines read.
   */
  lemma FileMatchesSpec(file: seq<LineRead>, pattern: string, search: Matcher)
    ensures forall i :: 0 <= i < |FileMatches(file, pattern, search)| ==>
      var (n, text) := FileMatches(file, pattern, search)[i];
      1 <= n <= ReadableCount(file) && file[n - 1] == Line(text) && search(pattern, text)
    ensures forall i, j :: 0 <= i < j < |FileMatches(file, pattern, search)| ==>
      FileMatches(file, pattern, search)[i].0 < FileMatches(file, pattern, search)[j].0
    ensures forall k :: 0 <= k < ReadableCount(file) && search(pattern, file[k].text) ==>
      (k + 1, file[k].text) in FileMatches(file, pattern, search)
  {
    var lines := file[..ReadableCount(file)];
    CollectSpec(lines, pattern, search);
    assert forall k :: 0 <= k < |lines| ==> lines[k] == file[k];
  }

  /** A decode error ends the scan: what follows it is never looked at, and what came before is kept. */
  lemma DecodeErrorEndsScan(before: seq<LineRead>, after: seq<LineRead>, pattern: string, search: Matcher)
    requires forall k :: 0 <= k < |before| ==> before[k].Line?
    ensures FileMatches(before + [DecodeError] + after, pattern, search) == FileMatches(before, pattern, search)
  {
    var file := before + [DecodeError] + after;
    ReadableCountOf(before, [DecodeError] + after);
    assert file == before + ([DecodeError] + after);
    ReadableCountOf(before, []);
    assert before + [] == before;
    assert file[..|before|] == before;
    assert before[..|before|] == before;
  }

  lemma {:induction false} ReadableCountOf(before: seq<LineRead>, after: seq<LineRead>)
    requires forall k :: 0 <= k < |before| ==> before[k].Line?
    requires after == [] || after[0].DecodeError?
    ensures ReadableCount(before + after) == |before|
  {
    if before == [] {
      assert before + after == after;
    } else {
      assert (before + after)[1..] == before[1..] + after;
      ReadableCountOf(before[1..], after);
    }
  }
}
