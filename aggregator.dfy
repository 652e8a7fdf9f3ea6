/**
 * The result aggregator (`process_search`, BulkSearch.py:99-115): choose the
 * root from the arguments, enumerate its files, run the line matcher on each
 * file in order and record the files that have at least one match, in an
 * insertion-ordered dictionary.
 */
module Aggregator {
  import opened Wrappers
  import opened SearchResults
  import opened LineMatcher
  import opened FileEnumerator

  /** The parsed command line, as far as `process_search` reads it. */
  datatype Args = Args(inputFile: Option<Path>, path: Option<Path>, recursive: bool, pattern: string)

  /** `--in` if given, else `--path`, else the current directory. */
  function SearchRoot(args: Args, cwd: Path): Path {
    if args.inputFile.Some? then args.inputFile.value
    else if args.path.Some? then args.path.value
    else cwd
  }

  /**
   * The dictionary the loop over `files` builds: `result[file] = matches`
   * for every file whose matches are not empty, in order.
   */
  function Aggregate(files: seq<string>, read: string -> seq<LineRead>, pattern: string, search: Matcher): (r: SearchResult)
    ensures DistinctKeys(r)
  {
    if files == [] then []
    else
      var earlier := Aggregate(files[..|files| - 1], read, pattern, search);
      var file := files[|files| - 1];
      var found := FileMatches(read(file), pattern, search);
      if found != [] then Put(earlier, file, found) else earlier
  }

  /**
   * `read(file)` stands for what iterating over `open(file)` yields: the
   * file's contents are a parameter of the model, as is the regular
   * expression engine `search`.
   */
  method ProcessSearch(args: Args, cwd: Path, fs: Node, read: string -> seq<LineRead>, search: Matcher)
    returns (r: Result<SearchResult>)
    ensures r == match Enumerate(fs, SearchRoot(args, cwd), args.recursive)
                 case Err(e) => Err(e)
                 case Ok(files) => Ok(Aggregate(files, read, args.pattern, search))
  {
    var root: Path;
    if args.inputFile.Some? {
      root := args.inputFile.value;
    } else if args.path.Some? {
      root := args.path.value;
    } else {
      root := cwd;
    }
    var listing := GetAllFiles(fs, root, args.recursive);
    if listing.Err? {
      // the exception raised while listing propagates
      return Err(listing.failure);
    }
    var result := SearchFiles(listing.value, read, args.pattern, search);
    return Ok(result);
  }

  /** The loop of `process_search` over the enumerated files. */
  method SearchFiles(files: seq<string>, read: string -> seq<LineRead>, pattern: string, search: Matcher)
    returns (result: SearchResult)
    ensures result == Aggregate(files, read, pattern, search)
  {
    result := [];
    for i := 0 to |files|
      invariant result == Aggregate(files[..i], read, pattern, search)
    {
      assert files[..i + 1][..i] == files[..i];
      var temp := SearchOnFile(read(files[i]), pattern, search);
      if temp != [] {
        // the source searches the file a second time for the value it stores
        var again := SearchOnFile(read(files[i]), pattern, search);
        result := Put(result, files[i], again);
      }
    }
    assert files[..|files|] == files;
  }

  /** The index of the first occurrence of `x` in `s`. */
  function FirstIndex(s: seq<string>, x: string): (k: nat)
    requires x in s
    ensures k < |s| && s[k] == x && forall j :: 0 <= j < k ==> s[j] != x
  {
    if s[0] == x then 0 else 1 + FirstIndex(s[1..], x)
  }

  lemma {:induction false} FirstIndexPrefix(s: seq<string>, y: string, x: string)
    requires x in s
    ensures x in s + [y] && FirstIndex(s + [y], x) == FirstIndex(s, x)
  {
    if s[0] != x {
      assert (s + [y])[1..] == s[1..] + [y];
      FirstIndexPrefix(s[1..], y, x);
    }
  }

  /** The keys are exactly the enumerated files whose match list is not empty. */
  lemma {:induction false} AggregateKeys(files: seq<string>, read: string -> seq<LineRead>, pattern: string, search: Matcher)
    ensures forall k :: k in Keys(Aggregate(files, read, pattern, search)) <==>
      k in files && FileMatches(read(k), pattern, search) != []
  {
    if files != [] {
      var init, file := files[..|files| - 1], files[|files| - 1];
      AggregateKeys(init, read, pattern, search);
      assert files == init + [file];
    }
  }

  /** Each key holds the match list of its file. */
  lemma {:induction false} AggregateValues(files: seq<string>, read: string -> seq<LineRead>, pattern: string, search: Matcher)
    ensures forall k :: k in Keys(Aggregate(files, read, pattern, search)) ==>
      Get(Aggregate(files, read, pattern, search), k) == Some(FileMatches(read(k), pattern, search))
  {
    if files != [] {
      var init, file := files[..|files| - 1], files[|files| - 1];
      AggregateValues(init, read, pattern, search);
    }
  }

  /**
   * The entries of the result of `process_search`: each holds its file's
   * match list, which is never empty.
   */
  lemma AggregateEntries(files: seq<string>, read: string -> seq<LineRead>, pattern: string, search: Matcher)
    ensures forall i :: 0 <= i < |Aggregate(files, read, pattern, search)| ==>
      var (file, matches) := Aggregate(files, read, pattern, search)[i];
      matches == FileMatches(read(file), pattern, search) && matches != []
  {
    var r := Aggregate(files, read, pattern, search);
    AggregateKeys(files, read, pattern, search);
    AggregateValues(files, read, pattern, search);
    forall i | 0 <= i < |r|
      ensures r[i].1 == FileMatches(read(r[i].0), pattern, search) && r[i].1 != []
    {
      assert Keys(r)[i] == r[i].0;
      GetAt(r, r[i].0, r[i].1);
    }
  }

  /** Keys are in the order of their keys' positions in `files`. */
  ghost predicate OrderedBy(r: SearchResult, files: seq<string>) {
    forall i, j :: 0 <= i < j < |r| ==> InOrder(files, r[i].0, r[j].0)
  }

  /** `x` is enumerated before `y`. */
  predicate InOrder(files: seq<string>, x: string, y: string) {
    x in files && y in files && FirstIndex(files, x) < FirstIndex(files, y)
  }

  /** Keys are ordered by the first position of their file in the enumeration. */
  lemma {:induction false} AggregateOrder(files: seq<string>, read: string -> seq<LineRead>, pattern: string, search: Matcher)
    ensures OrderedBy(Aggregate(files, read, pattern, search), files)
  {
    if files != [] {
      var init, file := files[..|files| - 1], files[|files| - 1];
      assert files == init + [file];
      AggregateOrder(init, read, pattern, search);
      AggregateKeys(init, read, pattern, search);
      var found := FileMatches(read(file), pattern, search);
      var d := Aggregate(init, read, pattern, search);
      if found != [] {
        assert file in Keys(d) <==> file in init;
        OrderStep(d, init, file, found);
      } else {
        OrderExtend(d, init, file);
      }
    }
  }

  /** Appending to `files` keeps the order of the existing keys. */
  lemma OrderExtend(d: SearchResult, init: seq<string>, file: string)
    requires OrderedBy(d, init)
    ensures OrderedBy(d, init + [file])
  {
    var files := init + [file];
    forall i, j | 0 <= i < j < |d|
      ensures InOrder(files, d[i].0, d[j].0)
    {
      OrderedAt(d, init, i, j);
      FirstIndexPrefix(init, file, d[i].0);
      FirstIndexPrefix(init, file, d[j].0);
    }
  }

  lemma OrderedAt(d: SearchResult, files: seq<string>, i: int, j: int)
    requires OrderedBy(d, files) && 0 <= i < j < |d|
    ensures d[i].0 in files && d[j].0 in files && FirstIndex(files, d[i].0) < FirstIndex(files, d[j].0)
  {
  }

  /** Putting the next file keeps the keys ordered. */
  lemma OrderStep(d: SearchResult, init: seq<string>, file: string, found: seq<Match>)
    requires DistinctKeys(d) && OrderedBy(d, init)
    requires forall k :: k in Keys(d) ==> k in init
    requires file in Keys(d) <==> file in init
    ensures OrderedBy(Put(d, file, found), init + [file])
  {
    var files := init + [file];
    var r := Put(d, file, found);
    OrderExtend(d, init, file);
    forall x | x in Keys(d) ensures FirstIndex(files, x) < |init| {
      FirstIndexPrefix(init, file, x);
    }
    if file !in init {
      assert FirstIndex(files, file) == |init|;
    }
    forall i, j | 0 <= i < j < |r|
      ensures InOrder(files, r[i].0, r[j].0)
    {
      assert Keys(r)[i] == r[i].0 && Keys(r)[j] == r[j].0;
      if j < |d| {
        assert Keys(d)[i] == d[i].0 && Keys(d)[j] == d[j].0;
      } else {
        assert Keys(d)[i] == d[i].0;
      }
    }
  }

  /**
   * The invariants of a search result: no file has an empty match list, and
   * within each file the line numbers start at 1 and strictly increase.
   */
  lemma ResultInvariants(files: seq<string>, read: string -> seq<LineRead>, pattern: string, search: Matcher)
    ensures forall i :: 0 <= i < |Aggregate(files, read, pattern, search)| ==>
      var matches := Aggregate(files, read, pattern, search)[i].1;
      matches != []
      && (forall m :: 0 <= m < |matches| ==> matches[m].0 >= 1)
      && (forall m, n :: 0 <= m < n < |matches| ==> matches[m].0 < matches[n].0)
  {
    AggregateEntries(files, read, pattern, search);
    var r := Aggregate(files, read, pattern, search);
    forall i | 0 <= i < |r| {
      FileMatchesSpec(read(r[i].0), pattern, search);
    }
  }
}
