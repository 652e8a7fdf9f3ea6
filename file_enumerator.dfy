/**
 * The file enumerator (`get_all_files`, BulkSearch.py:57-82) over an
 * in-memory directory tree. A directory's children are kept in the order the
 * operating system lists them; `os.walk` is modelled top-down, as the source
 * calls it: a directory's own files, then each subdirectory in turn.
 */
module FileEnumerator {
  import opened Wrappers

  /** A directory entry: a regular file, or a directory with its entries in listing order. */
  datatype Node = File(name: string) | Dir(name: string, children: seq<Node>)

  /** An absolute path as its components below the root directory `/`. */
  type Path = seq<string>

  /** How `get_all_files` can end without a list of files. */
  datatype Failure =
    | IndirectionFile  // the root is a regular file: a list of further roots, not modelled
    | ListDirFailed    // `os.listdir` raised on a root that is not a directory

  datatype Result<T> = Ok(value: T) | Err(failure: Failure)

  /** A real directory never holds two entries with the same name. */
  predicate WellFormed(n: Node)
    decreases n
  {
    match n
    case File(_) => true
    case Dir(_, ch) =>
      && (forall i, j :: 0 <= i < j < |ch| ==> ch[i].name != ch[j].name)
      && (forall i :: 0 <= i < |ch| ==> WellFormed(ch[i]))
  }

  /** The first entry called `name`. */
  function FindChild(ch: seq<Node>, name: string): (r: Option<Node>)
    ensures r.Some? ==> r.value in ch && r.value.name == name
    ensures r.None? ==> forall i :: 0 <= i < |ch| ==> ch[i].name != name
  {
    if ch == [] then None
    else if ch[0].name == name then Some(ch[0])
    else FindChild(ch[1..], name)
  }

  /** The entry at the relative path `rel` below `n`. */
  function LookupIn(n: Node, rel: Path): Option<Node>
    decreases rel
  {
    if rel == [] then Some(n)
    else
      match n
      case File(_) => None
      case Dir(_, ch) =>
        match FindChild(ch, rel[0])
        case None => None
        case Some(c) => LookupIn(c, rel[1..])
  }

  /** `os.path.isfile`: the path names a regular file. */
  predicate IsFileAt(fs: Node, p: Path) {
    LookupIn(fs, p).Some? && LookupIn(fs, p).value.File?
  }

  // ---------------------------------------------------------------------
  // Rendering paths as the source builds its strings

  function Joined(d: Path): string {
    if d == [] then "" else Joined(d[..|d| - 1]) + "/" + d[|d| - 1]
  }

  /** The `dirpath` string of a directory, as `os.walk` joins it. */
  function DirString(d: Path): string {
    if d == [] then "/" else Joined(d)
  }

  /** `root + os.sep + file`, which `os.path.abspath` leaves as it is for these paths. */
  function Render(p: Path): string {
    if p == [] then "/" else DirString(p[..|p| - 1]) + "/" + p[|p| - 1]
  }

  function RenderAll(ps: seq<Path>): seq<string> {
    seq(|ps|, i requires 0 <= i < |ps| => Render(ps[i]))
  }

  lemma RenderFile(d: Path, f: string)
    ensures Render(d + [f]) == DirString(d) + "/" + f
  {
    assert (d + [f])[..|d|] == d;
  }

  // ---------------------------------------------------------------------
  // os.walk, top-down

  /** One `(root, dirs, files)` triple that `os.walk` yields. */
  datatype WalkStep = WalkStep(dirpath: Path, dirnames: seq<string>, filenames: seq<string>)

  function FileNames(ch: seq<Node>): seq<string> {
    if ch == [] then [] else (if ch[0].File? then [ch[0].name] else []) + FileNames(ch[1..])
  }

  function DirNames(ch: seq<Node>): seq<string> {
    if ch == [] then [] else (if ch[0].Dir? then [ch[0].name] else []) + DirNames(ch[1..])
  }

  function WalkNode(n: Node, top: Path): seq<WalkStep>
    decreases n
  {
    match n
    case File(_) => []
    case Dir(_, ch) => [WalkStep(top, DirNames(ch), FileNames(ch))] + WalkChildren(ch, top)
  }

  function WalkChildren(ch: seq<Node>, top: Path): seq<WalkStep>
    decreases ch
  {
    if ch == [] then []
    else (if ch[0].Dir? then WalkNode(ch[0], top + [ch[0].name]) else []) + WalkChildren(ch[1..], top)
  }

  /** `os.walk(top)`: nothing for a path that does not exist or is not a directory. */
  function Walk(fs: Node, top: Path): seq<WalkStep> {
    match LookupIn(fs, top)
    case None => []
    case Some(n) => WalkNode(n, top)
  }

  /** The files of one triple, in the order of its `files` list. */
  function StepFiles(s: WalkStep): seq<Path> {
    seq(|s.filenames|, k requires 0 <= k < |s.filenames| => s.dirpath + [s.filenames[k]])
  }

  function StepsFiles(steps: seq<WalkStep>): seq<Path> {
    if steps == [] then [] else StepFiles(steps[0]) + StepsFiles(steps[1..])
  }

  /** Every file the recursive walk from `top` reaches, in the order the source appends them. */
  function WalkFiles(fs: Node, top: Path): seq<Path> {
    StepsFiles(Walk(fs, top))
  }

  function ChildrenFiles(ch: seq<Node>, top: Path): seq<Path> {
    StepsFiles(WalkChildren(ch, top))
  }

  function NodeFiles(n: Node, top: Path): seq<Path> {
    StepsFiles(WalkNode(n, top))
  }

  // ---------------------------------------------------------------------
  // The enumeration itself

  /** What the recursive branch appends for the roots `roots`. */
  function RecursiveFiles(fs: Node, roots: seq<Path>): seq<Path> {
    if roots == [] then [] else RecursiveFiles(fs, roots[..|roots| - 1]) + WalkFiles(fs, roots[|roots| - 1])
  }

  /** The entries of a listed directory that are regular files, as paths under `dir`. */
  function ListedFiles(items: seq<Node>, dir: Path): seq<Path> {
    if items == [] then []
    else
      var last := items[|items| - 1];
      ListedFiles(items[..|items| - 1], dir) + (if last.File? then [dir + [last.name]] else [])
  }

  /** What the non-recursive branch appends for the roots `roots`, or the failure of `os.listdir`. */
  function FlatFiles(fs: Node, roots: seq<Path>): Result<seq<Path>> {
    if roots == [] then Ok([])
    else
      match FlatFiles(fs, roots[..|roots| - 1])
      case Err(e) => Err(e)
      case Ok(earlier) =>
        match LookupIn(fs, roots[|roots| - 1])
        case Some(Dir(_, items)) => Ok(earlier + ListedFiles(items, roots[|roots| - 1]))
        case _ => Err(ListDirFailed)
  }

  /** What `get_all_files(path, recursive)` returns, over the tree `fs`. */
  function Enumerate(fs: Node, path: Path, recursive: bool): Result<seq<string>> {
    if IsFileAt(fs, path) then Err(IndirectionFile)
    else if recursive then Ok(RenderAll(RecursiveFiles(fs, [path])))
    else
      match FlatFiles(fs, [path])
      case Err(e) => Err(e)
      case Ok(ps) => Ok(RenderAll(ps))
  }

  method GetAllFiles(fs: Node, path: Path, recursive: bool) returns (r: Result<seq<string>>)
    ensures r == Enumerate(fs, path, recursive)
  {
    var pathAbs := path;
    if IsFileAt(fs, pathAbs) {
      // reading the indirection file is I/O and is not modelled
      return Err(IndirectionFile);
    }
    var paths := [pathAbs];
    if recursive {
      var files := WalkRoots(fs, paths);
      r := Ok(files);
    } else {
      r := ListRoots(fs, paths);
    }
    assert paths == [path];
  }

  /** The recursive branch (BulkSearch.py:70-75): every file `os.walk` yields from each root. */
  method WalkRoots(fs: Node, paths: seq<Path>) returns (result: seq<string>)
    ensures result == RenderAll(RecursiveFiles(fs, paths))
  {
    result := [];
    for i := 0 to |paths|
      invariant result == RenderAll(RecursiveFiles(fs, paths[..i]))
    {
      var found := WalkRoot(fs, paths[i]);
      RecursiveFilesSnoc(fs, paths, i);
      RenderAllAppend(RecursiveFiles(fs, paths[..i]), WalkFiles(fs, paths[i]));
      result := result + found;
    }
    assert paths[..|paths|] == paths;
  }

  /** The loops over the triples of one `os.walk(top)` and over their files. */
  method WalkRoot(fs: Node, top: Path) returns (result: seq<string>)
    ensures result == RenderAll(WalkFiles(fs, top))
  {
    result := [];
    var steps := Walk(fs, top);
    for j := 0 to |steps|
      invariant result == RenderAll(StepsFiles(steps[..j]))
    {
      var found := StepPaths(steps[j]);
      StepsFilesSnoc(steps[..j], steps[j]);
      assert steps[..j + 1] == steps[..j] + [steps[j]];
      RenderAllAppend(StepsFiles(steps[..j]), StepFiles(steps[j]));
      result := result + found;
    }
    assert steps[..|steps|] == steps;
  }

  lemma RecursiveFilesSnoc(fs: Node, paths: seq<Path>, i: nat)
    requires i < |paths|
    ensures RecursiveFiles(fs, paths[..i + 1]) == RecursiveFiles(fs, paths[..i]) + WalkFiles(fs, paths[i])
  {
    assert paths[..i + 1][..i] == paths[..i];
  }

  /**
   * The non-recursive branch (BulkSearch.py:76-81): the entries of each root
   * that are regular files; `os.listdir` raises on a root that is not a
   * directory.
   */
  method ListRoots(fs: Node, paths: seq<Path>) returns (r: Result<seq<string>>)
    ensures r == match FlatFiles(fs, paths)
                 case Err(e) => Err(e)
                 case Ok(ps) => Ok(RenderAll(ps))
  {
    var result: seq<string> := [];
    ghost var acc: seq<Path> := [];
    for i := 0 to |paths|
      invariant FlatFiles(fs, paths[..i]) == Ok(acc)
      invariant result == RenderAll(acc)
    {
      assert paths[..i + 1][..i] == paths[..i];
      match LookupIn(fs, paths[i])
      case Some(Dir(_, items)) =>
        var found := ListRoot(items, paths[i]);
        RenderAllAppend(acc, ListedFiles(items, paths[i]));
        result := result + found;
        acc := acc + ListedFiles(items, paths[i]);
      case _ =>
        FlatFilesErr(fs, paths, i + 1);
        return Err(ListDirFailed);
    }
    assert paths[..|paths|] == paths;
    return Ok(result);
  }

  /** The loop over `os.listdir(dir)`: the entries that are regular files, as `dir + os.sep + item`. */
  method ListRoot(items: seq<Node>, dir: Path) returns (result: seq<string>)
    ensures result == RenderAll(ListedFiles(items, dir))
  {
    result := [];
    for k := 0 to |items|
      invariant result == RenderAll(ListedFiles(items[..k], dir))
    {
      assert items[..k + 1][..k] == items[..k];
      if items[k].File? {
        RenderFile(dir, items[k].name);
        RenderAllSnoc(ListedFiles(items[..k], dir), dir + [items[k].name]);
        result := result + [DirString(dir) + "/" + items[k].name];
      }
    }
    assert items[..|items|] == items;
  }

  /** The innermost loop (BulkSearch.py:73-75): `root + os.sep + file` for each file of one triple. */
  method StepPaths(step: WalkStep) returns (result: seq<string>)
    ensures result == RenderAll(StepFiles(step))
  {
    result := [];
    for k := 0 to |step.filenames|
      invariant result == RenderAll(StepFiles(step)[..k])
    {
      RenderFile(step.dirpath, step.filenames[k]);
      RenderAllSnoc(StepFiles(step)[..k], step.dirpath + [step.filenames[k]]);
      result := result + [DirString(step.dirpath) + "/" + step.filenames[k]];
      assert StepFiles(step)[..k + 1] == StepFiles(step)[..k] + [step.dirpath + [step.filenames[k]]];
    }
    assert StepFiles(step)[..|step.filenames|] == StepFiles(step);
  }

  lemma RenderAllAppend(a: seq<Path>, b: seq<Path>)
    ensures RenderAll(a + b) == RenderAll(a) + RenderAll(b)
  {
  }

  lemma RenderAllSnoc(ps: seq<Path>, p: Path)
    ensures RenderAll(ps + [p]) == RenderAll(ps) + [Render(p)]
  {
  }

  lemma StepsFilesSnoc(steps: seq<WalkStep>, s: WalkStep)
    ensures StepsFiles(steps + [s]) == StepsFiles(steps) + StepFiles(s)
  {
    StepsFilesAppend(steps, [s]);
    assert StepsFiles([s]) == StepFiles(s) + StepsFiles([]);
  }

  lemma {:induction false} StepsFilesAppend(a: seq<WalkStep>, b: seq<WalkStep>)
    ensures StepsFiles(a + b) == StepsFiles(a) + StepsFiles(b)
  {
    if a != [] {
      assert (a + b)[1..] == a[1..] + b;
      StepsFilesAppend(a[1..], b);
    } else {
      assert a + b == b;
    }
  }

  lemma {:induction false} FlatFilesErr(fs: Node, paths: seq<Path>, n: nat)
    requires 0 < n <= |paths|
    requires FlatFiles(fs, paths[..n - 1]).Ok?
    requires !(LookupIn(fs, paths[n - 1]).Some? && LookupIn(fs, paths[n - 1]).value.Dir?)
    ensures FlatFiles(fs, paths) == Err(ListDirFailed)
  {
    if n == |paths| {
      assert paths[..n] == paths;
      assert paths[..n][..n - 1] == paths[..n - 1];
    } else {
      var init := paths[..|paths| - 1];
      assert init[..n] == paths[..n] && init[..n - 1] == paths[..n - 1];
      FlatFilesErr(fs, init, n);
    }
  }
}
