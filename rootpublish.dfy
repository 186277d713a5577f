/** Publishing a package from the list of files its package file names
    (publish.go): the package file itself is added to the list when
    missing, and the file tree stores its files as nil leaves. */
module RootPublish {
  import opened Common
  import opened Strings
  import PkgFile
  import Publish

  // ---------------------------------------------------------------------
  // The file list

  /** The files `PublishPackage` publishes: the package's own list, with
      the package file appended when the list does not name it. */
  method FilesToPublish(files: seq<string>) returns (r: seq<string>)
    ensures PkgFile.PkgFileName in r
    ensures PkgFile.PkgFileName in files ==> r == files
    ensures PkgFile.PkgFileName !in files ==> r == files + [PkgFile.PkgFileName]
  {
    var found := false;
    var i := 0;
    while i < |files|
      invariant 0 <= i <= |files|
      invariant found <==> PkgFile.PkgFileName in files[..i]
    {
      if files[i] == PkgFile.PkgFileName {
        found := true;
        break;
      }
      i := i + 1;
    }
    assert found || files[..i] == files;
    r := files;
    if !found {
      r := files + [PkgFile.PkgFileName];
    }
  }

  // ---------------------------------------------------------------------
  // The file tree

  /** A `filetree` pointer: `File` is the nil pointer a file is stored as,
      `Folder` a node with children. */
  datatype FileTree = File | Folder(children: map<string, FileTree>)

  type Children = map<string, FileTree>

  /** A child folder, which is smaller than its parent. */
  function Sub(ch: Children, f: string): (r: Children)
    requires f in ch && ch[f].Folder?
    ensures r == ch[f].children && Folder(r) < Folder(ch)
  {
    assert ch[f] in ch.Values;
    ch[f].children
  }

  /** The tree has a node at the non-empty path `p`. */
  predicate Has(ch: Children, p: seq<string>)
    decreases |p|
  {
    p != [] && p[0] in ch && (|p| == 1 || (ch[p[0]].Folder? && Has(ch[p[0]].children, p[1..])))
  }

  /** The node at a path the tree has. */
  function NodeAt(ch: Children, p: seq<string>): FileTree
    requires Has(ch, p)
    decreases |p|
  {
    if |p| == 1 then ch[p[0]] else NodeAt(ch[p[0]].children, p[1..])
  }

  /** No file on the way to `p`: descending into a nil leaf is a nil
      pointer dereference in `insert`. */
  predicate NoFileAbove(ch: Children, p: seq<string>)
    decreases |p|
  {
    |p| > 1 && p[0] in ch ==> ch[p[0]].Folder? && NoFileAbove(ch[p[0]].children, p[1..])
  }

  /** `filetree.insert` (publish.go:57-79): missing folders on the way are
      created, and the last name must not exist yet; the new file is a
      nil leaf. */
  function Insert(ch: Children, p: seq<string>): (r: Result<Children>)
    requires p != [] && NoFileAbove(ch, p)
    ensures r.Err? <==> Has(ch, p)
    ensures r.Err? ==> r.error == Msg("path already exists: " + p[|p| - 1])
    ensures r.Ok? ==> Has(r.value, p) && NodeAt(r.value, p) == File
    decreases |p|
  {
    if |p| > 1 then
      var child := if p[0] in ch then ch[p[0]].children else map[];
      match Insert(child, p[1..])
      case Err(e) => Err(e)
      case Ok(c) => Ok(ch[p[0] := Folder(c)])
    else if p[0] in ch then Err(Msg("path already exists: " + p[0]))
    else Ok(ch[p[0] := File])
  }

  /** After an insert the tree's nodes are the old nodes and the prefixes
      of the inserted path; the files among them are the old files and
      the inserted path. */
  lemma {:induction false} InsertNodes(ch: Children, p: seq<string>, q: seq<string>)
    requires p != [] && NoFileAbove(ch, p) && Insert(ch, p).Ok?
    ensures Has(Insert(ch, p).value, q) <==> Has(ch, q) || (q != [] && q <= p)
    ensures Has(Insert(ch, p).value, q) && NodeAt(Insert(ch, p).value, q) == File <==>
      (Has(ch, q) && NodeAt(ch, q) == File) || q == p
    decreases |p|
  {
    if |p| > 1 {
      var child := if p[0] in ch then ch[p[0]].children else map[];
      if q != [] && |q| > 1 {
        InsertNodes(child, p[1..], q[1..]);
      } else {
        InsertNodes(child, p[1..], p[1..]);
      }
    }
  }

  /** The `insert` calls of `newFiletreeFromFiles` never descend into a
      nil leaf: each file meets no file on its way down the tree the files
      before it build, unless an earlier insert has already failed. These
      are exactly the lists on which the Go code does not dereference nil. */
  predicate Buildable(files: seq<string>)
    decreases |files|, 0
  {
    files == [] ||
    var front := files[..|files| - 1];
    && Buildable(front)
    && (Build(front).Ok? ==> NoFileAbove(Build(front).value, Publish.PartsOf(files[|files| - 1])))
  }

  /** The tree the files build, or the first insert error. */
  function Build(files: seq<string>): (r: Result<Children>)
    requires Buildable(files)
    decreases |files|, 1
  {
    if files == [] then Ok(map[])
    else
      var n := |files| - 1;
      match Build(files[..n])
      case Err(e) => Err(e)
      case Ok(t) => Insert(t, Publish.PartsOf(files[n]))
  }

  /** The files before some point are buildable when all are. */
  lemma {:induction false} BuildablePrefix(files: seq<string>, k: nat)
    requires Buildable(files) && k <= |files|
    ensures Buildable(files[..k])
    decreases |files|
  {
    if k < |files| {
      var n := |files| - 1;
      assert files[..n][..k] == files[..k];
      BuildablePrefix(files[..n], k);
    } else {
      assert files[..k] == files;
    }
  }

  /** A file listed twice stops the build before a later file below it
      is inserted: `["a", "a", "a/b"]` builds with the error
      "path already exists: a" and no nil leaf is descended into. */
  lemma RepeatBeforeNested()
    ensures Buildable(["a", "a", "a/b"])
    ensures Build(["a", "a", "a/b"]) == Err(Msg("path already exists: a"))
  {
    var files := ["a", "a", "a/b"];
    assert Publish.PartsOf("a") == ["a"] by {
      assert TrimRight("a", {'/'}) == "a";
      assert Split("a", '/') == ["a"];
    }
    var one: seq<string>, two: seq<string> := ["a"], ["a", "a"];
    assert one[..0] == [] && two[..1] == one && files[..2] == two;
    assert Build(one) == Ok(map["a" := File]);
    assert Buildable(two);
    assert Build(two) == Err(Msg("path already exists: a"));
  }

  /** No earlier file is a folder above a later one. */
  predicate NoFileAsFolder(files: seq<string>) {
    forall i, j :: 0 <= i < j < |files| ==> !(Publish.PartsOf(files[i]) < Publish.PartsOf(files[j]))
  }

  /** A list in which no earlier file is a folder above a later one is
      buildable. */
  lemma {:induction false} NoFileAsFolderBuildable(files: seq<string>)
    requires NoFileAsFolder(files)
    ensures Buildable(files)
    decreases |files|
  {
    if files != [] {
      var n := |files| - 1;
      assert NoFileAsFolder(files[..n]);
      NoFileAsFolderBuildable(files[..n]);
      NoFileAboveNext(files, n);
    }
  }

  /** `newFiletreeFromFiles` (publish.go:45-55). */
  method NewFiletreeFromFiles(files: seq<string>) returns (r: Result<Children>)
    requires Buildable(files)
    ensures r == Build(files)
  {
    var root: Children := map[];
    var i := 0;
    while i < |files|
      invariant 0 <= i <= |files|
      invariant Buildable(files[..i]) && Build(files[..i]) == Ok(root)
    {
      assert files[..i + 1][..i] == files[..i];
      BuildablePrefix(files, i + 1);
      var parts := Split(TrimRight(files[i], {'/'}), '/');
      var ins := Insert(root, parts);
      if ins.Err? {
        BuildStops(files, i + 1);
        return Err(ins.error);
      }
      root := ins.value;
      i := i + 1;
    }
    assert files[..i] == files;
    return Ok(root);
  }

  /** Once an insert fails, the whole build fails with that error. */
  lemma {:induction false} BuildStops(files: seq<string>, k: nat)
    requires Buildable(files) && k <= |files|
    requires Buildable(files[..k]) && Build(files[..k]).Err?
    ensures Build(files) == Build(files[..k])
    decreases |files| - k
  {
    if k < |files| {
      assert files[..k + 1][..k] == files[..k];
      BuildablePrefix(files, k + 1);
      BuildStops(files, k + 1);
    } else {
      assert files[..k] == files;
    }
  }

  /** The built tree's nodes are the non-empty prefixes of the files'
      paths, and its files are exactly those paths. */
  lemma {:induction false} BuildFiles(files: seq<string>, p: seq<string>)
    requires Buildable(files) && Build(files).Ok?
    ensures Has(Build(files).value, p) <==> p != [] && exists f :: f in files && p <= Publish.PartsOf(f)
    ensures Has(Build(files).value, p) && NodeAt(Build(files).value, p) == File <==>
      exists f :: f in files && p == Publish.PartsOf(f)
    decreases |files|, 1
  {
    if files != [] {
      var n := |files| - 1;
      var t := Build(files[..n]).value;
      BuildFiles(files[..n], p);
      InsertNodes(t, Publish.PartsOf(files[n]), p);
      Publish.SnocMembers(files);
    }
  }

  /** A file that no earlier file lies above meets no file on its way
      down the tree the earlier files build. */
  lemma {:induction false} NoFileAboveNext(files: seq<string>, n: nat)
    requires NoFileAsFolder(files) && n < |files| && Buildable(files[..n])
    ensures Build(files[..n]).Ok? ==> NoFileAbove(Build(files[..n]).value, Publish.PartsOf(files[n]))
  {
    if Build(files[..n]).Ok? {
      var t := Build(files[..n]).value;
      var p := Publish.PartsOf(files[n]);
      forall q | q < p && Has(t, q)
        ensures NodeAt(t, q) != File
      {
        BuildFiles(files[..n], q);
        forall f | f in files[..n]
          ensures q != Publish.PartsOf(f)
        {
          var i :| 0 <= i < n && files[..n][i] == f;
          assert Publish.PartsOf(files[i]) == Publish.PartsOf(f);
        }
      }
      NoFileAboveOf(t, p);
    }
  }

  /** No file lies above `p` when every proper prefix of `p` the tree has
      is a folder. */
  lemma {:induction false} NoFileAboveOf(ch: Children, p: seq<string>)
    requires forall q :: q < p && Has(ch, q) ==> NodeAt(ch, q) != File
    ensures NoFileAbove(ch, p)
    decreases |p|
  {
    if |p| > 1 && p[0] in ch {
      assert [p[0]] < p && Has(ch, [p[0]]);
      forall q | q < p[1..] && Has(ch[p[0]].children, q)
        ensures NodeAt(ch[p[0]].children, q) != File
      {
        assert [p[0]] + q < p && Has(ch, [p[0]] + q);
        assert ([p[0]] + q)[1..] == q;
      }
      NoFileAboveOf(ch[p[0]].children, p[1..]);
    }
  }

  /** A file clashes with an earlier one: it is the same path, or a folder
      above it. */
  predicate Clash(files: seq<string>, j: nat)
    requires j < |files|
  {
    exists f :: f in files[..j] && Publish.PartsOf(files[j]) <= Publish.PartsOf(f)
  }

  /** The build fails exactly when some file clashes with an earlier one. */
  lemma {:induction false} BuildFails(files: seq<string>)
    requires Buildable(files)
    ensures Build(files).Err? <==> exists j :: 0 <= j < |files| && Clash(files, j)
    decreases |files|, 1
  {
    if files != [] {
      BuildStep(files);
    }
  }

  /** The step of `BuildFails`: from the files before the last to all. */
  lemma {:induction false} BuildStep(files: seq<string>)
    requires files != [] && Buildable(files)
    ensures Build(files).Err? <==> exists j :: 0 <= j < |files| && Clash(files, j)
    decreases |files|, 0
  {
    var n := |files| - 1;
    var front := files[..n];
    BuildFails(front);
    ClashSplit(files, front);
    if Build(front).Ok? {
      BuildLast(files);
    }
  }

  /** Some file clashes when one before the last does or the last does. */
  lemma ClashSplit(files: seq<string>, front: seq<string>)
    requires files != [] && front == files[..|files| - 1]
    ensures (exists j :: 0 <= j < |files| && Clash(files, j)) <==>
      (exists j :: 0 <= j < |front| && Clash(front, j)) || Clash(files, |front|)
  {
    ClashFront(files);
    if j :| 0 <= j < |front| && Clash(front, j) {
      assert Clash(files, j);
    }
    if j :| 0 <= j < |files| && Clash(files, j) {
      if j < |front| {
        assert Clash(front, j);
      }
    }
  }

  /** Clashes among the files before the last are the same in the front. */
  lemma ClashFront(files: seq<string>)
    requires files != []
    ensures forall j :: 0 <= j < |files| - 1 ==> (Clash(files[..|files| - 1], j) <==> Clash(files, j))
  {
    var n := |files| - 1;
    forall j | 0 <= j < n
      ensures Clash(files[..n], j) <==> Clash(files, j)
    {
      assert files[..n][..j] == files[..j];
    }
  }

  /** When the files before the last build, the last insert fails exactly
      when the last file clashes. */
  lemma BuildLast(files: seq<string>)
    requires files != [] && Buildable(files) && Build(files[..|files| - 1]).Ok?
    ensures Build(files).Err? <==> Clash(files, |files| - 1)
  {
    var n := |files| - 1;
    BuildFiles(files[..n], Publish.PartsOf(files[n]));
  }

  // ---------------------------------------------------------------------
  // Adding the tree to IPFS
  //
  // These definitions follow those of the Publish module for this file's
  // own tree type: the source keeps the two publish variants apart, with
  // their own `filetree`, and so does the model.

  /** The paths of the files below a folder, as `addTree` opens them. */
  function FilePaths(ch: Children, cwd: string): set<string>
    decreases Folder(ch)
  {
    (set f | f in ch && ch[f] == File :: PathJoin(cwd, f)) +
    (set f, p | f in ch && ch[f].Folder? && p in FilePaths(Sub(ch, f), PathJoin(cwd, f)) :: p)
  }

  /** Every file below a folder can be opened and added. */
  predicate Readable(ch: Children, cwd: string, read: Publish.Reader)
    decreases Folder(ch), 1
  {
    forall f :: f in ch ==> ChildReadable(ch, f, cwd, read)
  }

  predicate ChildReadable(ch: Children, f: string, cwd: string, read: Publish.Reader)
    requires f in ch
    decreases Folder(ch), 0
  {
    if ch[f] == File then read(PathJoin(cwd, f)).Ok?
    else Readable(Sub(ch, f), PathJoin(cwd, f), read)
  }

  predicate ReadableFrom(ch: Children, done: set<string>, cwd: string, read: Publish.Reader) {
    done <= ch.Keys && forall f :: f in done ==> ChildReadable(ch, f, cwd, read)
  }

  /** What adding a folder gives: a directory built from `blank` with a
      link per child. */
  function DagOf(ch: Children, cwd: string, read: Publish.Reader, blank: map<string, Publish.Node>): (r: Publish.Node)
    requires Readable(ch, cwd, read)
    ensures r.Dir? && r.links.Keys == blank.Keys + ch.Keys
    decreases Folder(ch), 2
  {
    Publish.Dir(blank + LinksFrom(ch, ch.Keys, cwd, read, blank))
  }

  /** The links of the children in `done`. */
  function LinksFrom(ch: Children, done: set<string>, cwd: string, read: Publish.Reader, blank: map<string, Publish.Node>): (r: map<string, Publish.Node>)
    requires ReadableFrom(ch, done, cwd, read)
    ensures r.Keys == done
    decreases Folder(ch), 1
  {
    map f | f in done :: ChildLink(ch, f, cwd, read, blank)
  }

  /** The object for child `f`: a file's hash, or the subdirectory. */
  function ChildLink(ch: Children, f: string, cwd: string, read: Publish.Reader, blank: map<string, Publish.Node>): Publish.Node
    requires f in ch && ChildReadable(ch, f, cwd, read)
    decreases Folder(ch), 0
  {
    if ch[f] == File then Publish.Leaf(read(PathJoin(cwd, f)).value)
    else DagOf(Sub(ch, f), PathJoin(cwd, f), read, blank)
  }

  /** A child's files are among its parent's. */
  lemma ChildPaths(ch: Children, f: string, cwd: string)
    requires f in ch
    ensures ch[f] == File ==> PathJoin(cwd, f) in FilePaths(ch, cwd)
    ensures ch[f].Folder? ==> FilePaths(ch[f].children, PathJoin(cwd, f)) <= FilePaths(ch, cwd)
  {
    if ch[f].Folder? {
      forall p | p in FilePaths(ch[f].children, PathJoin(cwd, f))
        ensures p in FilePaths(ch, cwd)
      {
        assert p in FilePaths(Sub(ch, f), PathJoin(cwd, f));
      }
    }
  }

  lemma LinksFromAdd(ch: Children, done: set<string>, f: string, cwd: string, read: Publish.Reader,
                     blank: map<string, Publish.Node>, h: Publish.Node)
    requires ReadableFrom(ch, done, cwd, read) && f in ch && ChildReadable(ch, f, cwd, read)
    requires h == ChildLink(ch, f, cwd, read, blank)
    ensures ReadableFrom(ch, done + {f}, cwd, read)
    ensures (blank + LinksFrom(ch, done, cwd, read, blank))[f := h] == blank + LinksFrom(ch, done + {f}, cwd, read, blank)
  {
  }

  /** Once every child is linked, the directory is the whole folder's. */
  lemma AllLinked(ch: Children, done: set<string>, cwd: string, read: Publish.Reader, blank: map<string, Publish.Node>)
    requires done == ch.Keys && ReadableFrom(ch, done, cwd, read)
    ensures Readable(ch, cwd, read)
    ensures Publish.Dir(blank + LinksFrom(ch, done, cwd, read, blank)) == DagOf(ch, cwd, read, blank)
  {
  }

  /** The publisher's state: `blankDir` is the empty directory object that
      every directory, and the published root, is patched from. */
  class PM {
    var blankDir: Publish.Node
    /** Opening and adding a file. */
    const read: Publish.Reader
    /** The error `shell.NewObject("unixfs-dir")` returns, if any. */
    const newObjectErr: Option<Error>

    constructor (read: Publish.Reader, newObjectErr: Option<Error>)
      ensures this.read == read && this.newObjectErr == newObjectErr
      ensures blankDir == Publish.Dir(map[])
    {
      this.read := read;
      this.newObjectErr := newObjectErr;
      blankDir := Publish.Dir(map[]);
    }

    /** `PublishPackage` (publish.go:11-39): the package's files plus the
        package file, added as a tree and linked under the package's name. */
    method PublishPackage(dir: string, name: string, pkgFiles: seq<string>) returns (r: Result<Publish.Node>)
      requires Buildable(if PkgFile.PkgFileName in pkgFiles then pkgFiles else pkgFiles + [PkgFile.PkgFileName])
      modifies this
      ensures newObjectErr.Some? ==> r == Err(newObjectErr.value)
      ensures r.Ok? ==>
        var files := if PkgFile.PkgFileName in pkgFiles then pkgFiles else pkgFiles + [PkgFile.PkgFileName];
        blankDir == Publish.Dir(map[]) && Build(files).Ok? && Readable(Build(files).value, dir, read) &&
        r.value == Publish.Dir(map[name := DagOf(Build(files).value, dir, read, map[])])
      ensures newObjectErr.None? ==>
        var files := if PkgFile.PkgFileName in pkgFiles then pkgFiles else pkgFiles + [PkgFile.PkgFileName];
        r.Ok? <==> Build(files).Ok? && Readable(Build(files).value, dir, read)
    {
      var files := FilesToPublish(pkgFiles);
      if newObjectErr.Some? {
        return Err(newObjectErr.value);
      }
      blankDir := Publish.Dir(map[]);
      var pkgdir := AddFiles(dir, files);
      if pkgdir.Err? {
        return Err(pkgdir.error);
      }
      return Ok(Publish.Dir(blankDir.links[name := pkgdir.value]));
    }

    /** `addFiles` (publish.go:81-88). */
    method AddFiles(root: string, files: seq<string>) returns (r: Result<Publish.Node>)
      requires blankDir.Dir? && Buildable(files)
      ensures Build(files).Err? ==> r == Err(Build(files).error)
      ensures Build(files).Ok? ==> (r.Ok? <==> Readable(Build(files).value, root, read))
      ensures r.Ok? ==> Build(files).Ok? && r.value == DagOf(Build(files).value, root, read, blankDir.links)
    {
      var tree := NewFiletreeFromFiles(files);
      if tree.Err? {
        return Err(tree.error);
      }
      r := AddTree(tree.value, root);
    }

    /** `addTree` (publish.go:90-125): a nil child is a file, any other
        child a folder; the children come in whatever order the map
        yields them, and the result does not depend on it. */
    method AddTree(ch: Children, cwd: string) returns (r: Result<Publish.Node>)
      requires blankDir.Dir?
      ensures r.Ok? <==> Readable(ch, cwd, read)
      ensures r.Ok? ==> r.value == DagOf(ch, cwd, read, blankDir.links)
      ensures r.Err? ==> exists p :: p in FilePaths(ch, cwd) && read(p) == Err(r.error)
      decreases Folder(ch), 1, 1
    {
      var blank := blankDir.links;
      var cur := blank;
      var todo := ch.Keys;
      while todo != {}
        invariant todo <= ch.Keys
        invariant ReadableFrom(ch, ch.Keys - todo, cwd, read)
        invariant cur == blank + LinksFrom(ch, ch.Keys - todo, cwd, read, blank)
        decreases |todo|
      {
        var f :| f in todo;
        var next := LinkChild(ch, f, cwd, todo, cur);
        if next.Err? {
          return Err(next.error);
        }
        cur := next.value;
        todo := todo - {f};
      }
      AllLinked(ch, ch.Keys - todo, cwd, read, blank);
      return Ok(Publish.Dir(cur));
    }

    /** One turn of the loop of `addTree`. */
    method LinkChild(ch: Children, f: string, cwd: string, todo: set<string>, cur: map<string, Publish.Node>)
      returns (r: Result<map<string, Publish.Node>>)
      requires blankDir.Dir? && f in todo && todo <= ch.Keys
      requires ReadableFrom(ch, ch.Keys - todo, cwd, read)
      requires cur == blankDir.links + LinksFrom(ch, ch.Keys - todo, cwd, read, blankDir.links)
      ensures r.Ok? ==> ReadableFrom(ch, ch.Keys - (todo - {f}), cwd, read)
      ensures r.Ok? ==> r.value == blankDir.links + LinksFrom(ch, ch.Keys - (todo - {f}), cwd, read, blankDir.links)
      ensures r.Err? ==> !Readable(ch, cwd, read)
      ensures r.Err? ==> exists p :: p in FilePaths(ch, cwd) && read(p) == Err(r.error)
      decreases Folder(ch), 1, 0
    {
      var h := AddChild(ch, f, cwd);
      if h.Err? {
        return Err(h.error);
      }
      LinksFromAdd(ch, ch.Keys - todo, f, cwd, read, blankDir.links, h.value);
      assert ch.Keys - (todo - {f}) == (ch.Keys - todo) + {f};
      return Ok(cur[f := h.value]);
    }

    /** The object for child `f`: the file added, or the folder built. */
    method AddChild(ch: Children, f: string, cwd: string) returns (r: Result<Publish.Node>)
      requires blankDir.Dir? && f in ch
      ensures r.Ok? <==> ChildReadable(ch, f, cwd, read)
      ensures r.Ok? ==> r.value == ChildLink(ch, f, cwd, read, blankDir.links)
      ensures r.Err? ==> !Readable(ch, cwd, read)
      ensures r.Err? ==> exists p :: p in FilePaths(ch, cwd) && read(p) == Err(r.error)
      decreases Folder(ch), 0
    {
      ChildPaths(ch, f, cwd);
      if ch[f] == File {
        var h := read(PathJoin(cwd, f));
        if h.Err? {
          return Err(h.error);
        }
        return Ok(Publish.Leaf(h.value));
      }
      r := AddTree(Sub(ch, f), PathJoin(cwd, f));
    }
  }
}
