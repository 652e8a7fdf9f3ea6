/**
 * What `get_all_files` promises about the files it lists: the recursive walk
 * lists every regular file below the root and nothing else, a directory's
 * own files before any file of its subdirectories; the flat listing lists
 * exactly the root's own files; a root that does not exist lists nothing.
 */
module EnumerationProperties {
  import opened Wrappers
  import opened FileEnumerator

  /** `rel` names a regular file below `n`. */
  predicate IsFileIn(n: Node, rel: Path) {
    LookupIn(n, rel).Some? && LookupIn(n, rel).value.File?
  }

  predicate DistinctNames(ch: seq<Node>) {
    forall i, j :: 0 <= i < j < |ch| ==> ch[i].name != ch[j].name
  }

  /** `q` lies in a subdirectory, at any depth, of the directory that holds `p`. */
  predicate InSubdirectoryOf(q: Path, p: Path) {
    1 <= |p| < |q| && q[..|p| - 1] == p[..|p| - 1]
  }

  /** No file is listed after a file of one of the subdirectories of its own directory. */
  predicate Preorder(ps: seq<Path>) {
    forall i, j :: 0 <= i < |ps| && 0 <= j < |ps| && InSubdirectoryOf(ps[j], ps[i]) ==> i < j
  }

  // ---------------------------------------------------------------------
  // Lookup

  lemma {:induction false} LookupAppend(n: Node, root: Path, rel: Path)
    ensures LookupIn(n, root + rel) == match LookupIn(n, root)
                                      case None => None
                                      case Some(m) => LookupIn(m, rel)
    decreases root
  {
    if root == [] {
      assert root + rel == rel;
    } else {
      assert (root + rel)[0] == root[0];
      assert (root + rel)[1..] == root[1..] + rel;
      match n
      case File(_) =>
      case Dir(_, ch) =>
        match FindChild(ch, root[0])
        case None =>
        case Some(c) => LookupAppend(c, root[1..], rel);
    }
  }

  lemma {:induction false} LookupWellFormed(n: Node, rel: Path)
    requires WellFormed(n) && LookupIn(n, rel).Some?
    ensures WellFormed(LookupIn(n, rel).value)
    decreases rel
  {
    if rel != [] {
      match n
      case Dir(_, ch) =>
        var c := FindChild(ch, rel[0]).value;
        var i :| 0 <= i < |ch| && ch[i] == c;
        LookupWellFormed(c, rel[1..]);
    }
  }

  /** Under a root that does not exist there is nothing. */
  lemma LookupMissing(fs: Node, root: Path, p: Path)
    requires LookupIn(fs, root).None?
    requires |p| >= |root| && p[..|root|] == root
    ensures LookupIn(fs, p).None?
  {
    assert p == root + p[|root|..];
    LookupAppend(fs, root, p[|root|..]);
  }

  // ---------------------------------------------------------------------
  // The files of one directory

  lemma {:induction false} FileNamesIff(ch: seq<Node>, x: string)
    requires DistinctNames(ch)
    ensures x in FileNames(ch) <==> FindChild(ch, x).Some? && FindChild(ch, x).value.File?
  {
    if ch != [] {
      var rest := ch[1..];
      assert DistinctNames(rest) by {
        forall i, j | 0 <= i < j < |rest| ensures rest[i].name != rest[j].name {
          assert rest[i] == ch[i + 1] && rest[j] == ch[j + 1];
        }
      }
      FileNamesIff(rest, x);
      if ch[0].name == x {
        assert forall i :: 0 <= i < |rest| ==> rest[i].name != x by {
          forall i | 0 <= i < |rest| ensures rest[i].name != x {
            assert rest[i] == ch[i + 1];
          }
        }
      }
    }
  }

  function OwnStep(ch: seq<Node>, top: Path): WalkStep {
    WalkStep(top, DirNames(ch), FileNames(ch))
  }

  lemma OwnFilesIff(ch: seq<Node>, top: Path, p: Path)
    requires DistinctNames(ch)
    ensures p in StepFiles(OwnStep(ch, top)) <==>
      |p| == |top| + 1 && p[..|top|] == top
      && FindChild(ch, p[|top|]).Some? && FindChild(ch, p[|top|]).value.File?
  {
    var fs := StepFiles(OwnStep(ch, top));
    if p in fs {
      var k :| 0 <= k < |fs| && fs[k] == p;
      assert p == top + [FileNames(ch)[k]];
      assert p[|top|] == FileNames(ch)[k];
      assert p[..|top|] == top;
      FileNamesIff(ch, p[|top|]);
    }
    if |p| == |top| + 1 && p[..|top|] == top
      && FindChild(ch, p[|top|]).Some? && FindChild(ch, p[|top|]).value.File? {
      FileNamesIff(ch, p[|top|]);
      var names := FileNames(ch);
      var k :| 0 <= k < |names| && names[k] == p[|top|];
      assert p == top + [names[k]];
      assert fs[k] == p;
    }
  }

  lemma LookupOne(ch: seq<Node>, name: string, rel: Path)
    ensures LookupIn(Dir(name, ch), rel) ==
      if rel == [] then Some(Dir(name, ch))
      else match FindChild(ch, rel[0])
           case None => None
           case Some(c) => LookupIn(c, rel[1..])
  {
  }

  // ---------------------------------------------------------------------
  // The recursive walk lists exactly the regular files below its top

  lemma {:induction false} NodeFilesIff(n: Node, top: Path, p: Path)
    requires WellFormed(n)
    ensures p in NodeFiles(n, top) <==> |p| > |top| && p[..|top|] == top && IsFileIn(n, p[|top|..])
    decreases n, 1
  {
    match n
    case File(_) =>
      assert NodeFiles(n, top) == [];
    case Dir(name, ch) =>
      var own := OwnStep(ch, top);
      assert WalkNode(n, top) == [own] + WalkChildren(ch, top);
      StepsFilesAppend([own], WalkChildren(ch, top));
      assert StepsFiles([own]) == StepFiles(own) + StepsFiles([]);
      assert NodeFiles(n, top) == StepFiles(own) + ChildrenFiles(ch, top);
      OwnFilesIff(ch, top, p);
      ChildrenFilesIff(ch, top, p);
      if |p| > |top| {
        var rel := p[|top|..];
        LookupOne(ch, name, rel);
        assert rel[0] == p[|top|];
        assert rel[1..] == p[|top| + 1..];
        if |p| == |top| + 1 {
          assert rel[1..] == [];
        }
      }
  }

  lemma {:induction false} ChildrenFilesIff(ch: seq<Node>, top: Path, p: Path)
    requires DistinctNames(ch) && forall i :: 0 <= i < |ch| ==> WellFormed(ch[i])
    ensures p in ChildrenFiles(ch, top) <==>
      |p| > |top| + 1 && p[..|top|] == top
      && FindChild(ch, p[|top|]).Some? && IsFileIn(FindChild(ch, p[|top|]).value, p[|top| + 1..])
    decreases ch, 0
  {
    if ch == [] {
      assert ChildrenFiles(ch, top) == [];
    } else {
      var c0, rest := ch[0], ch[1..];
      ChildrenTail(ch);
      ChildrenSplit(ch, top);
      ChildrenFilesIff(rest, top, p);
      if c0.Dir? {
        NodeFilesIff(c0, top + [c0.name], p);
      }
      if |p| > |top| + 1 {
        PrefixExtend(p, top, c0.name);
        if c0.File? {
          assert LookupIn(c0, p[|top| + 1..]).None?;
        }
      }
    }
  }

  /** The tail of a well-formed list of entries is well formed, and shares no name with its head. */
  lemma ChildrenTail(ch: seq<Node>)
    requires ch != []
    requires DistinctNames(ch) && forall i :: 0 <= i < |ch| ==> WellFormed(ch[i])
    ensures DistinctNames(ch[1..])
    ensures forall i :: 0 <= i < |ch[1..]| ==> ch[1..][i].name != ch[0].name && WellFormed(ch[1..][i])
  {
    var rest := ch[1..];
    forall i, j | 0 <= i < j < |rest| ensures rest[i].name != rest[j].name {
      assert rest[i] == ch[i + 1] && rest[j] == ch[j + 1];
    }
    forall i | 0 <= i < |rest| ensures rest[i].name != ch[0].name && WellFormed(rest[i]) {
      assert rest[i] == ch[i + 1];
    }
  }

  /** The walk below a list of entries: the first entry's subtree, then the rest. */
  lemma ChildrenSplit(ch: seq<Node>, top: Path)
    requires ch != []
    ensures ChildrenFiles(ch, top)
      == (if ch[0].Dir? then NodeFiles(ch[0], top + [ch[0].name]) else []) + ChildrenFiles(ch[1..], top)
  {
    var first := if ch[0].Dir? then WalkNode(ch[0], top + [ch[0].name]) else [];
    assert WalkChildren(ch, top) == first + WalkChildren(ch[1..], top);
    StepsFilesAppend(first, WalkChildren(ch[1..], top));
    if ch[0].File? {
      assert StepsFiles(first) == [];
    }
  }

  lemma PrefixExtend(p: Path, top: Path, name: string)
    requires |p| > |top|
    ensures (p[..|top| + 1] == top + [name]) <==> (p[..|top|] == top && p[|top|] == name)
  {
    if p[..|top|] == top && p[|top|] == name {
      assert p[..|top| + 1] == p[..|top|] + [p[|top|]];
    }
    if p[..|top| + 1] == top + [name] {
      assert p[..|top|] == p[..|top| + 1][..|top|];
    }
  }

  // ---------------------------------------------------------------------
  // A directory's own files come before the files of its subdirectories

  lemma PreorderAppend(a: seq<Path>, b: seq<Path>)
    requires Preorder(a) && Preorder(b)
    requires forall x, y :: x in a && y in b ==> !InSubdirectoryOf(x, y)
    ensures Preorder(a + b)
  {
    var ab := a + b;
    forall i, j | 0 <= i < |ab| && 0 <= j < |ab| && InSubdirectoryOf(ab[j], ab[i]) ensures i < j {
      if i >= |a| && j >= |a| {
        assert ab[i] == b[i - |a|] && ab[j] == b[j - |a|];
      } else if i < |a| && j < |a| {
        assert ab[i] == a[i] && ab[j] == a[j];
      }
    }
  }

  lemma {:induction false} NodePreorder(n: Node, top: Path)
    requires WellFormed(n)
    ensures Preorder(NodeFiles(n, top))
    decreases n, 1
  {
    match n
    case File(_) =>
      assert NodeFiles(n, top) == [];
    case Dir(name, ch) =>
      var own := OwnStep(ch, top);
      assert WalkNode(n, top) == [own] + WalkChildren(ch, top);
      StepsFilesAppend([own], WalkChildren(ch, top));
      assert StepsFiles([own]) == StepFiles(own) + StepsFiles([]);
      var a, b := StepFiles(own), ChildrenFiles(ch, top);
      assert forall x :: x in a ==> |x| == |top| + 1;
      forall y | y in b ensures |y| > |top| + 1 {
        ChildrenFilesIff(ch, top, y);
      }
      ChildrenPreorder(ch, top);
      PreorderAppend(a, b);
  }

  lemma {:induction false} ChildrenPreorder(ch: seq<Node>, top: Path)
    requires DistinctNames(ch) && forall i :: 0 <= i < |ch| ==> WellFormed(ch[i])
    ensures Preorder(ChildrenFiles(ch, top))
    decreases ch, 0
  {
    if ch == [] {
      assert ChildrenFiles(ch, top) == [];
    } else {
      var c0, rest := ch[0], ch[1..];
      ChildrenTail(ch);
      ChildrenSplit(ch, top);
      var a := if c0.Dir? then NodeFiles(c0, top + [c0.name]) else [];
      var b := ChildrenFiles(rest, top);
      ChildrenPreorder(rest, top);
      if c0.Dir? {
        NodePreorder(c0, top + [c0.name]);
        SiblingsApart(c0, rest, top);
      }
      PreorderAppend(a, b);
    }
  }

  /** No file below one entry lies in a subdirectory of a file below a later sibling. */
  lemma SiblingsApart(c0: Node, rest: seq<Node>, top: Path)
    requires c0.Dir? && WellFormed(c0)
    requires DistinctNames(rest) && forall i :: 0 <= i < |rest| ==> rest[i].name != c0.name && WellFormed(rest[i])
    ensures forall x, y :: x in NodeFiles(c0, top + [c0.name]) && y in ChildrenFiles(rest, top) ==> !InSubdirectoryOf(x, y)
  {
    forall x, y | x in NodeFiles(c0, top + [c0.name]) && y in ChildrenFiles(rest, top)
      ensures !InSubdirectoryOf(x, y)
    {
      BelowEntry(c0, top, x);
      BelowSibling(rest, top, c0.name, y);
      ApartAt(x, y, |top|);
    }
  }

  /** A file below an entry has the entry's name right after the top. */
  lemma BelowEntry(c0: Node, top: Path, x: Path)
    requires WellFormed(c0) && x in NodeFiles(c0, top + [c0.name])
    ensures |x| > |top| + 1 && x[|top|] == c0.name
  {
    NodeFilesIff(c0, top + [c0.name], x);
    PrefixExtend(x, top, c0.name);
  }

  /** A file below a later sibling has that sibling's name right after the top. */
  lemma BelowSibling(rest: seq<Node>, top: Path, name: string, y: Path)
    requires DistinctNames(rest) && forall i :: 0 <= i < |rest| ==> rest[i].name != name && WellFormed(rest[i])
    requires y in ChildrenFiles(rest, top)
    ensures |y| > |top| + 1 && y[|top|] != name
  {
    ChildrenFilesIff(rest, top, y);
    var c := FindChild(rest, y[|top|]).value;
    assert c in rest && c.name == y[|top|];
  }

  /** Two paths that differ before the last component of `y` do not nest. */
  lemma ApartAt(x: Path, y: Path, k: int)
    requires 0 <= k < |y| - 1 && k < |x| && x[k] != y[k]
    ensures !InSubdirectoryOf(x, y)
  {
  }

  // ---------------------------------------------------------------------
  // The flat listing is the root's own files

  lemma {:induction false} FileNamesSnoc(items: seq<Node>, x: Node)
    ensures FileNames(items + [x]) == FileNames(items) + (if x.File? then [x.name] else [])
  {
    var last := if x.File? then [x.name] else [];
    if items == [] {
      assert items + [x] == [x];
      assert FileNames([x]) == last + FileNames([]);
    } else {
      var head := if items[0].File? then [items[0].name] else [];
      assert (items + [x])[0] == items[0];
      assert (items + [x])[1..] == items[1..] + [x];
      FileNamesSnoc(items[1..], x);
      assert FileNames(items + [x]) == head + (FileNames(items[1..]) + last);
      assert head + (FileNames(items[1..]) + last) == (head + FileNames(items[1..])) + last;
    }
  }

  lemma {:induction false} ListedIsOwnStep(items: seq<Node>, dir: Path)
    ensures ListedFiles(items, dir) == StepFiles(OwnStep(items, dir))
  {
    if items != [] {
      var init, last := items[..|items| - 1], items[|items| - 1];
      ListedIsOwnStep(init, dir);
      assert items == init + [last];
      FileNamesSnoc(init, last);
    }
  }

  // ---------------------------------------------------------------------
  // get_all_files

  /** The recursive enumeration of a root that is not a regular file is the walk from that root. */
  lemma RecursiveEnumeration(fs: Node, root: Path)
    requires !IsFileAt(fs, root)
    ensures Enumerate(fs, root, true) == Ok(RenderAll(WalkFiles(fs, root)))
  {
    assert [root][..0] == [];
    assert RenderAll([]) == [];
    assert RecursiveFiles(fs, [root]) == RecursiveFiles(fs, []) + WalkFiles(fs, root);
    assert [] + WalkFiles(fs, root) == WalkFiles(fs, root);
  }

  /**
   * The recursive walk lists every regular file below its root, at every
   * depth, and nothing else: never a directory, never the root itself.
   */
  lemma WalkFilesExactly(fs: Node, root: Path, p: Path)
    requires WellFormed(fs)
    ensures p in WalkFiles(fs, root) <==> |p| > |root| && p[..|root|] == root && IsFileAt(fs, p)
  {
    match LookupIn(fs, root)
    case None =>
      if |p| > |root| && p[..|root|] == root {
        LookupMissing(fs, root, p);
      }
    case Some(n) =>
      LookupWellFormed(fs, root);
      NodeFilesIff(n, root, p);
      if |p| > |root| && p[..|root|] == root {
        assert p == root + p[|root|..];
        LookupAppend(fs, root, p[|root|..]);
      }
  }

  /** In the recursive walk, each directory's own files come before those of its subdirectories. */
  lemma WalkFilesPreorder(fs: Node, root: Path)
    requires WellFormed(fs)
    ensures Preorder(WalkFiles(fs, root))
  {
    match LookupIn(fs, root)
    case None =>
    case Some(n) =>
      LookupWellFormed(fs, root);
      NodePreorder(n, root);
  }

  /** The flat enumeration of a directory is its entries that are regular files, in listing order. */
  lemma FlatEnumeration(fs: Node, root: Path, name: string, items: seq<Node>)
    requires LookupIn(fs, root) == Some(Dir(name, items))
    ensures Enumerate(fs, root, false) == Ok(RenderAll(ListedFiles(items, root)))
  {
    assert [root][..0] == [];
    assert FlatFiles(fs, [root]) == Ok([] + ListedFiles(items, root));
    assert [] + ListedFiles(items, root) == ListedFiles(items, root);
  }

  /** The flat listing of a directory holds exactly the regular files directly in it. */
  lemma ListedFilesExactly(fs: Node, root: Path, name: string, items: seq<Node>, p: Path)
    requires WellFormed(fs) && LookupIn(fs, root) == Some(Dir(name, items))
    ensures p in ListedFiles(items, root) <==> |p| == |root| + 1 && p[..|root|] == root && IsFileAt(fs, p)
  {
    LookupWellFormed(fs, root);
    ListedIsOwnStep(items, root);
    OwnFilesIff(items, root, p);
    if |p| == |root| + 1 && p[..|root|] == root {
      PathSplit(p, root);
      ChildPath(fs, root, name, items, p[|root|]);
    }
  }

  lemma PathSplit(p: Path, root: Path)
    requires |p| == |root| + 1 && p[..|root|] == root
    ensures p == root + [p[|root|]]
  {
    assert p == p[..|root|] + [p[|root|]];
  }

  /** A path one component below a directory names a regular file when that entry is one. */
  lemma ChildPath(fs: Node, root: Path, name: string, items: seq<Node>, x: string)
    requires LookupIn(fs, root) == Some(Dir(name, items))
    ensures IsFileAt(fs, root + [x]) <==> FindChild(items, x).Some? && FindChild(items, x).value.File?
  {
    LookupAppend(fs, root, [x]);
    LookupOne(items, name, [x]);
    assert [x][1..] == [];
  }

  /** The flat listing of a directory is what the recursive walk lists first. */
  lemma ListedFilesFirst(fs: Node, root: Path, name: string, items: seq<Node>)
    requires LookupIn(fs, root) == Some(Dir(name, items))
    ensures |ListedFiles(items, root)| <= |WalkFiles(fs, root)|
    ensures ListedFiles(items, root) == WalkFiles(fs, root)[..|ListedFiles(items, root)|]
  {
    ListedIsOwnStep(items, root);
    var own := OwnStep(items, root);
    var n := Dir(name, items);
    assert WalkNode(n, root) == [own] + WalkChildren(items, root);
    StepsFilesAppend([own], WalkChildren(items, root));
    assert StepsFiles([own]) == StepFiles(own) + StepsFiles([]);
    assert WalkFiles(fs, root) == StepFiles(own) + ChildrenFiles(items, root);
  }

  /** A root that does not exist: the recursive walk lists nothing, `os.listdir` raises. */
  lemma MissingRoot(fs: Node, root: Path)
    requires LookupIn(fs, root).None?
    ensures Enumerate(fs, root, true) == Ok([])
    ensures Enumerate(fs, root, false) == Err(ListDirFailed)
  {
    assert [root][..0] == [];
    assert RenderAll([]) == [];
    assert RecursiveFiles(fs, [root]) == RecursiveFiles(fs, []) + WalkFiles(fs, root);
    assert FlatFiles(fs, [root]) == Err(ListDirFailed);
  }
}
