/** Publishing a package directory (gxutil/publish.go): the walk picks the
    files to publish, they are arranged into a file tree, and the tree is
    added to IPFS bottom-up, one `add-link` patch per child onto an empty
    directory object.

    IPFS objects are content addressed, so an object is identified here
    with its content: a file is `Leaf(h)`, where `h` is what adding the
    file's bytes returns, and a directory is its map of named links. */
module Publish {
  import opened Common
  import opened Strings

  // ---------------------------------------------------------------------
  // Choosing the files

  /** One visit of `filepath.Walk`: a path under the walked directory. */
  datatype Entry = Entry(path: string, isDir: bool)

  /** A compiled ignore file (`.gitignore`, `.gxignore`): which relative
      paths it matches. */
  type Matcher = string -> bool

  /** What `filepath.Walk` guarantees about the paths it visits below `dir`. */
  predicate WalkedFrom(dir: string, entries: seq<Entry>) {
    dir != [] &&
    forall i :: 0 <= i < |entries| && !entries[i].isDir ==>
      HasPrefix(entries[i].path, dir) && |entries[i].path| > |dir|
  }

  /** The path relative to `dir`, without the separator after `dir`. */
  function RelPath(dir: string, p: string): (r: string)
    requires dir != [] && HasPrefix(p, dir) && |p| > |dir|
    ensures dir[|dir| - 1] == '/' ==> dir + r == p
    ensures dir[|dir| - 1] != '/' ==> dir + [p[|dir|]] + r == p
  {
    var rel := p[|dir|..];
    if dir[|dir| - 1] != '/' then rel[1..] else rel
  }

  /** The walk filter: ignore files first, then the `.git` and `vendor`
      prefixes, which also exclude names such as `.gitignore`. */
  predicate Kept(rel: string, gitig: Option<Matcher>, gxig: Option<Matcher>) {
    !(gitig.Some? && gitig.value(rel)) &&
    !(gxig.Some? && gxig.value(rel)) &&
    !HasPrefix(rel, ".git") &&
    !HasPrefix(rel, "vendor")
  }

  /** The relative paths the walk collects, in walk order. */
  function Published(dir: string, entries: seq<Entry>, gitig: Option<Matcher>, gxig: Option<Matcher>): (r: seq<string>)
    requires WalkedFrom(dir, entries)
    ensures |r| <= |entries|
    ensures forall k :: 0 <= k < |r| ==> Kept(r[k], gitig, gxig)
  {
    if entries == [] then []
    else
      var n := |entries| - 1;
      var e := entries[n];
      var front := Published(dir, entries[..n], gitig, gxig);
      if !e.isDir && Kept(RelPath(dir, e.path), gitig, gxig) then front + [RelPath(dir, e.path)]
      else front
  }

  /** The walk callback of `PublishPackage` (gxutil/publish.go:24-60),
      appending to `files` visit by visit. */
  method CollectFiles(dir: string, entries: seq<Entry>, gitig: Option<Matcher>, gxig: Option<Matcher>)
    returns (files: seq<string>)
    requires WalkedFrom(dir, entries)
    ensures files == Published(dir, entries, gitig, gxig)
  {
    files := [];
    var i := 0;
    while i < |entries|
      invariant 0 <= i <= |entries|
      invariant files == Published(dir, entries[..i], gitig, gxig)
    {
      assert entries[..i + 1][..i] == entries[..i];
      var e := entries[i];
      if !e.isDir {
        var rel := e.path[|dir|..];
        if dir[|dir| - 1] != '/' {
          rel := rel[1..];
        }
        if Kept(rel, gitig, gxig) {
          files := files + [rel];
        }
      }
      i := i + 1;
    }
    assert entries[..i] == entries;
  }

  /** Walk visit `e` is a file whose path relative to `dir` is `x`. */
  predicate FileAs(dir: string, e: Entry, x: string) {
    !e.isDir && dir != [] && HasPrefix(e.path, dir) && |e.path| > |dir| && RelPath(dir, e.path) == x
  }

  /** A path is published exactly when some file the walk visits has it as
      its relative path and the filter keeps it. */
  lemma {:induction false} PublishedExactly(dir: string, entries: seq<Entry>, gitig: Option<Matcher>, gxig: Option<Matcher>, x: string)
    requires WalkedFrom(dir, entries)
    ensures x in Published(dir, entries, gitig, gxig) <==>
      Kept(x, gitig, gxig) && exists e :: e in entries && FileAs(dir, e, x)
    decreases |entries|
  {
    if entries != [] {
      var n := |entries| - 1;
      var e := entries[n];
      assert WalkedFrom(dir, entries[..n]);
      PublishedExactly(dir, entries[..n], gitig, gxig, x);
      forall d | d in entries
        ensures d in entries[..n] || d == e
      {
        var i :| 0 <= i < |entries| && entries[i] == d;
        if i < n {
          assert entries[..n][i] == d;
        }
      }
      if !e.isDir {
        assert FileAs(dir, e, RelPath(dir, e.path));
      }
    }
  }

  // ---------------------------------------------------------------------
  // The file tree

  /** A `filetree` node: a childless node is a file, any other node a
      directory. */
  datatype Tree = Tree(children: map<string, Tree>)

  /** `newFiletree()`. */
  const Empty := Tree(map[])

  predicate IsFile(t: Tree) { t.children == map[] }

  /** A child, which is smaller than its parent. */
  function Child(t: Tree, f: string): (r: Tree)
    requires f in t.children
    ensures r == t.children[f] && r < t
  {
    assert t.children[f] in t.children.Values;
    t.children[f]
  }

  /** The tree has a node at the non-empty path `p`. */
  predicate Has(t: Tree, p: seq<string>)
    decreases |p|
  {
    p != [] && p[0] in t.children && (|p| == 1 || Has(t.children[p[0]], p[1..]))
  }

  /** `filetree.insert` (gxutil/publish.go:98-120): missing directories on
      the way are created, and the last name must not exist yet. A file
      that already exists can still gain children and so become a
      directory. An empty path is the `panic` branch, which no caller
      reaches. */
  function Insert(t: Tree, p: seq<string>): (r: Result<Tree>)
    requires p != []
    ensures r.Err? <==> Has(t, p)
    ensures r.Err? ==> r.error == Msg("path already exists: " + p[|p| - 1])
    ensures r.Ok? ==> Has(r.value, p)
    decreases |p|
  {
    if |p| > 1 then
      var child := if p[0] in t.children then t.children[p[0]] else Empty;
      match Insert(child, p[1..])
      case Err(e) => Err(e)
      case Ok(c) => Ok(Tree(t.children[p[0] := c]))
    else if p[0] in t.children then Err(Msg("path already exists: " + p[0]))
    else Ok(Tree(t.children[p[0] := Empty]))
  }

  /** After an insert the tree's nodes are the old nodes and the prefixes
      of the inserted path, and the inserted node is a file. */
  lemma {:induction false} InsertNodes(t: Tree, p: seq<string>, q: seq<string>)
    requires p != [] && Insert(t, p).Ok?
    ensures Has(Insert(t, p).value, q) <==> Has(t, q) || (q != [] && q <= p)
    ensures IsFile(NodeAt(Insert(t, p).value, p))
    decreases |p|
  {
    var r := Insert(t, p).value;
    if |p| > 1 {
      var child := if p[0] in t.children then t.children[p[0]] else Empty;
      if q != [] && |q| > 1 {
        InsertNodes(child, p[1..], q[1..]);
        if q[0] == p[0] && !(p[0] in t.children) {
          EmptyHasNothing(q[1..]);
        }
      } else {
        InsertNodes(child, p[1..], p[1..]);
      }
    }
  }

  lemma EmptyHasNothing(q: seq<string>)
    ensures !Has(Empty, q)
  {
  }

  /** The node at a path the tree has. */
  function NodeAt(t: Tree, p: seq<string>): Tree
    requires Has(t, p)
    decreases |p|
  {
    if |p| == 1 then t.children[p[0]] else NodeAt(t.children[p[0]], p[1..])
  }

  /** A file name as `newFiletreeFromFiles` splits it. */
  function PartsOf(f: string): (r: seq<string>)
    ensures r != []
  {
    Split(TrimRight(f, {'/'}), '/')
  }

  /** The tree the files build, or the first insert error. */
  function Build(files: seq<string>): Result<Tree>
  {
    if files == [] then Ok(Empty)
    else
      var n := |files| - 1;
      match Build(files[..n])
      case Err(e) => Err(e)
      case Ok(t) => Insert(t, PartsOf(files[n]))
  }

  /** `newFiletreeFromFiles` (gxutil/publish.go:86-96). */
  method NewFiletreeFromFiles(files: seq<string>) returns (r: Result<Tree>)
    ensures r == Build(files)
  {
    var root := Empty;
    var i := 0;
    while i < |files|
      invariant 0 <= i <= |files|
      invariant Build(files[..i]) == Ok(root)
    {
      assert files[..i + 1][..i] == files[..i];
      var parts := Split(TrimRight(files[i], {'/'}), '/');
      var ins := Insert(root, parts);
      if ins.Err? {
        assert Build(files[..i + 1]).Err?;
        BuildStops(files, i + 1);
        return Err(ins.error);
      }
      root := ins.value;
      i := i + 1;
    }
    assert files[..i] == files;
    return Ok(root);
  }

  /** Once an insert fails, the whole build fails with that error. */
  lemma {:induction false} BuildStops(files: seq<string>, k: nat)
    requires k <= |files| && Build(files[..k]).Err?
    ensures Build(files) == Build(files[..k])
    decreases |files| - k
  {
    if k < |files| {
      assert files[..k + 1][..k] == files[..k];
      BuildStops(files, k + 1);
    } else {
      assert files[..k] == files;
    }
  }

  /** The built tree's nodes are exactly the non-empty prefixes of the
      files' paths. */
  lemma {:induction false} BuildNodes(files: seq<string>, q: seq<string>)
    requires Build(files).Ok?
    ensures Has(Build(files).value, q) <==> q != [] && exists f :: f in files && q <= PartsOf(f)
    decreases |files|
  {
    if files != [] {
      var n := |files| - 1;
      BuildNodes(files[..n], q);
      InsertNodes(Build(files[..n]).value, PartsOf(files[n]), q);
      SnocMembers(files);
    } else {
      EmptyHasNothing(q);
    }
  }

  /** The members of a non-empty sequence are those of its front and its
      last element. */
  lemma SnocMembers(files: seq<string>)
    requires files != []
    ensures forall f :: f in files <==> f in files[..|files| - 1] || f == files[|files| - 1]
  {
    assert files == files[..|files| - 1] + [files[|files| - 1]];
  }

  /** File `j` names a node that an earlier file already made: the same
      path, or a directory above it. */
  predicate Clash(files: seq<string>, j: nat)
    requires j < |files|
  {
    exists f :: f in files[..j] && PartsOf(files[j]) <= PartsOf(f)
  }

  /** The build fails exactly when some file clashes with an earlier one. */
  lemma {:induction false} BuildFails(files: seq<string>)
    ensures Build(files).Err? <==> exists j :: 0 <= j < |files| && Clash(files, j)
    decreases |files|
  {
    if files != [] {
      var n := |files| - 1;
      var front := files[..n];
      BuildFails(front);
      ClashFront(files);
      if Build(front).Ok? {
        BuildLast(files);
      } else {
        var j :| 0 <= j < n && Clash(front, j);
        assert Clash(files, j);
      }
    }
  }

  /** Clashes among the files before the last are the same in the front. */
  lemma ClashFront(files: seq<string>)
    requires files != []
    ensures forall j :: 0 <= j < |files| - 1 ==> (Clash(files[..|files| - 1], j) <==> Clash(files, j))
  {
    var n := |files| - 1;
    forall j | 0 <= j < n
      ensures Clash(files[..n], j) <==> Clash(files, j)
    {
      assert files[..n][..j] == files[..j];
    }
  }

  /** When the files before the last build, the last insert fails exactly
      when the last file clashes. */
  lemma BuildLast(files: seq<string>)
    requires files != [] && Build(files[..|files| - 1]).Ok?
    ensures Build(files).Err? <==> Clash(files, |files| - 1)
  {
    var n := |files| - 1;
    BuildNodes(files[..n], PartsOf(files[n]));
  }

  // ---------------------------------------------------------------------
  // Adding the tree to IPFS

  /** An IPFS object, identified with its content. */
  datatype Node = Leaf(hash: string) | Dir(links: map<string, Node>)

  /** `os.Open` followed by `shell.Add` for the file at a path: the hash
      of its bytes, or the error either step returns. */
  type Reader = string -> Result<string>

  /** The paths of the files below `nd`, as `addTree` opens them. */
  function FilePaths(nd: Tree, cwd: string): set<string>
    decreases nd
  {
    (set f | f in nd.children && IsFile(nd.children[f]) :: PathJoin(cwd, f)) +
    (set f, p | f in nd.children && !IsFile(nd.children[f]) && p in FilePaths(Child(nd, f), PathJoin(cwd, f)) :: p)
  }

  /** A child's files are among its parent's. */
  lemma ChildPaths(nd: Tree, f: string, cwd: string)
    requires f in nd.children
    ensures IsFile(nd.children[f]) ==> PathJoin(cwd, f) in FilePaths(nd, cwd)
    ensures !IsFile(nd.children[f]) ==> FilePaths(nd.children[f], PathJoin(cwd, f)) <= FilePaths(nd, cwd)
  {
    if !IsFile(nd.children[f]) {
      forall p | p in FilePaths(nd.children[f], PathJoin(cwd, f))
        ensures p in FilePaths(nd, cwd)
      {
        assert p in FilePaths(Child(nd, f), PathJoin(cwd, f));
      }
    }
  }

  /** Every file below `nd` can be opened and added. */
  predicate Readable(nd: Tree, cwd: string, read: Reader)
    decreases nd, 1
  {
    forall f :: f in nd.children ==> ChildReadable(nd, f, cwd, read)
  }

  /** Child `f` can be added: its file can be read, or all files below it. */
  predicate ChildReadable(nd: Tree, f: string, cwd: string, read: Reader)
    requires f in nd.children
    decreases nd, 0
  {
    if IsFile(nd.children[f]) then read(PathJoin(cwd, f)).Ok?
    else Readable(Child(nd, f), PathJoin(cwd, f), read)
  }

  /** A tree can be added exactly when every file below it can be read. */
  lemma {:induction false} ReadableFiles(nd: Tree, cwd: string, read: Reader)
    ensures Readable(nd, cwd, read) <==> forall p :: p in FilePaths(nd, cwd) ==> read(p).Ok?
    decreases nd
  {
    if Readable(nd, cwd, read) {
      forall p | p in FilePaths(nd, cwd)
        ensures read(p).Ok?
      {
        if f :| f in nd.children && IsFile(nd.children[f]) && p == PathJoin(cwd, f) {
          assert ChildReadable(nd, f, cwd, read);
        } else {
          var f :| f in nd.children && !IsFile(nd.children[f]) && p in FilePaths(Child(nd, f), PathJoin(cwd, f));
          assert ChildReadable(nd, f, cwd, read);
          ReadableFiles(Child(nd, f), PathJoin(cwd, f), read);
        }
      }
    }
    if forall p :: p in FilePaths(nd, cwd) ==> read(p).Ok? {
      forall f | f in nd.children
        ensures ChildReadable(nd, f, cwd, read)
      {
        ChildPaths(nd, f, cwd);
        if !IsFile(nd.children[f]) {
          ReadableFiles(Child(nd, f), PathJoin(cwd, f), read);
        }
      }
    }
  }

  /** What adding a node gives: a directory built from `blank` with a
      link per child, to the file's hash or to the subdirectory. */
  function DagOf(nd: Tree, cwd: string, read: Reader, blank: map<string, Node>): (r: Node)
    requires Readable(nd, cwd, read)
    ensures r.Dir? && r.links.Keys == blank.Keys + nd.children.Keys
    decreases nd, 2
  {
    Dir(blank + LinksFrom(nd, nd.children.Keys, cwd, read, blank))
  }

  /** The object linked under child `f`. */
  function ChildLink(nd: Tree, f: string, cwd: string, read: Reader, blank: map<string, Node>): Node
    requires f in nd.children && ChildReadable(nd, f, cwd, read)
    decreases nd, 0
  {
    var c := Child(nd, f);
    if IsFile(c) then Leaf(read(PathJoin(cwd, f)).value)
    else DagOf(c, PathJoin(cwd, f), read, blank)
  }

  predicate ReadableFrom(nd: Tree, done: set<string>, cwd: string, read: Reader) {
    done <= nd.children.Keys && forall f :: f in done ==> ChildReadable(nd, f, cwd, read)
  }

  /** The links of the children in `done`. */
  function LinksFrom(nd: Tree, done: set<string>, cwd: string, read: Reader, blank: map<string, Node>): (r: map<string, Node>)
    requires ReadableFrom(nd, done, cwd, read)
    ensures r.Keys == done
    decreases nd, 1
  {
    map f | f in done :: ChildLink(nd, f, cwd, read, blank)
  }

  /** Once every child is linked, the directory is the whole tree's. */
  lemma AllLinked(nd: Tree, done: set<string>, cwd: string, read: Reader, blank: map<string, Node>)
    requires done == nd.children.Keys && ReadableFrom(nd, done, cwd, read)
    ensures Readable(nd, cwd, read)
    ensures Dir(blank + LinksFrom(nd, done, cwd, read, blank)) == DagOf(nd, cwd, read, blank)
  {
  }

  lemma LinksFromAdd(nd: Tree, done: set<string>, f: string, cwd: string, read: Reader, blank: map<string, Node>, h: Node)
    requires ReadableFrom(nd, done, cwd, read) && f in nd.children && ChildReadable(nd, f, cwd, read)
    requires h == ChildLink(nd, f, cwd, read, blank)
    ensures ReadableFrom(nd, done + {f}, cwd, read)
    ensures (blank + LinksFrom(nd, done, cwd, read, blank))[f := h] == blank + LinksFrom(nd, done + {f}, cwd, read, blank)
  {
  }

  /** `gi.CompileIgnoreFile` as `PublishPackage` uses it: a missing
      ignore file is no matcher, any other error is returned. */
  function IgnoreFile(m: Result<Matcher>): (r: Result<Option<Matcher>>)
    ensures r.Err? <==> m.Err? && !IsNotExist(m.error)
    ensures r.Err? ==> r.error == m.error
    ensures r.Ok? && r.value.Some? ==> m == Ok(r.value.value)
  {
    match m
    case Ok(g) => Ok(Some(g))
    case Err(e) => if IsNotExist(e) then Ok(None) else Err(e)
  }

  /** The publisher's state: `blankDir` is the empty directory object that
      every directory, and the published root, is patched from. */
  class PM {
    var blankDir: Node
    /** Opening and adding a file. */
    const read: Reader
    /** The error `shell.NewObject("unixfs-dir")` returns, if any. */
    const newObjectErr: Option<Error>

    constructor (read: Reader, newObjectErr: Option<Error>)
      ensures this.read == read && this.newObjectErr == newObjectErr
      ensures blankDir == Dir(map[])
    {
      this.read := read;
      this.newObjectErr := newObjectErr;
      blankDir := Dir(map[]);
    }

    /** `PublishPackage` (gxutil/publish.go:13-76): compile the ignore
        files, collect the files, make the empty directory object, add the
        tree, and link it under the package's name. */
    method PublishPackage(dir: string, pkgName: string, entries: seq<Entry>, gitig: Result<Matcher>, gxig: Result<Matcher>)
      returns (r: Result<Node>)
      requires WalkedFrom(dir, entries)
      modifies this
      ensures IgnoreFile(gitig).Err? ==> r == Err(gitig.error)
      ensures IgnoreFile(gitig).Ok? && IgnoreFile(gxig).Err? ==> r == Err(gxig.error)
      ensures IgnoreFile(gitig).Ok? && IgnoreFile(gxig).Ok? && newObjectErr.Some? ==> r == Err(newObjectErr.value)
      ensures r.Ok? ==>
        IgnoreFile(gitig).Ok? && IgnoreFile(gxig).Ok? && blankDir == Dir(map[]) &&
        var files := Published(dir, entries, IgnoreFile(gitig).value, IgnoreFile(gxig).value);
        Build(files).Ok? && Readable(Build(files).value, dir, read) &&
        r.value == Dir(map[pkgName := DagOf(Build(files).value, dir, read, map[])])
      ensures IgnoreFile(gitig).Ok? && IgnoreFile(gxig).Ok? && newObjectErr.None? ==>
        var files := Published(dir, entries, IgnoreFile(gitig).value, IgnoreFile(gxig).value);
        r.Ok? <==> Build(files).Ok? && Readable(Build(files).value, dir, read)
    {
      var gi := IgnoreFile(gitig);
      if gi.Err? {
        return Err(gi.error);
      }
      var gx := IgnoreFile(gxig);
      if gx.Err? {
        return Err(gx.error);
      }
      var files := CollectFiles(dir, entries, gi.value, gx.value);
      if newObjectErr.Some? {
        return Err(newObjectErr.value);
      }
      blankDir := Dir(map[]);
      var pkgdir := AddFiles(dir, files);
      if pkgdir.Err? {
        return Err(pkgdir.error);
      }
      return Ok(Dir(blankDir.links[pkgName := pkgdir.value]));
    }

    /** `addFiles` (gxutil/publish.go:122-129). */
    method AddFiles(root: string, files: seq<string>) returns (r: Result<Node>)
      requires blankDir.Dir?
      ensures Build(files).Err? ==> r == Err(Build(files).error)
      ensures Build(files).Ok? ==> (r.Ok? <==> Readable(Build(files).value, root, read))
      ensures r.Ok? ==> Build(files).Ok? && r.value == DagOf(Build(files).value, root, read, blankDir.links)
    {
      var tree := NewFiletreeFromFiles(files);
      if tree.Err? {
        return Err(tree.error);
      }
      r := AddTree(tree.value, root);
    }

    /** `addTree` (gxutil/publish.go:131-166): the children in whatever
        order the map yields them, each added (a file) or built (a
        directory) and then linked onto the accumulator. It succeeds
        exactly when every file can be read, and then the order makes no
        difference; otherwise it returns the error of one unreadable file. */
    method AddTree(nd: Tree, cwd: string) returns (r: Result<Node>)
      requires blankDir.Dir?
      ensures r.Ok? <==> Readable(nd, cwd, read)
      ensures r.Ok? ==> r.value == DagOf(nd, cwd, read, blankDir.links)
      ensures r.Err? ==> exists p :: p in FilePaths(nd, cwd) && read(p) == Err(r.error)
      decreases nd, 1, 1
    {
      var blank := blankDir.links;
      var cur := blank;
      var todo := nd.children.Keys;
      ghost var all := todo;
      while todo != {}
        invariant todo <= all
        invariant ReadableFrom(nd, all - todo, cwd, read)
        invariant cur == blank + LinksFrom(nd, all - todo, cwd, read, blank)
        decreases |todo|
      {
        var f :| f in todo;
        var next := LinkChild(nd, f, cwd, todo, cur);
        if next.Err? {
          return Err(next.error);
        }
        cur := next.value;
        todo := todo - {f};
      }
      AllLinked(nd, nd.children.Keys - todo, cwd, read, blank);
      return Ok(Dir(cur));
    }

    /** One turn of the loop of `addTree`: child `f` is added and linked
        onto the directory built so far. */
    method LinkChild(nd: Tree, f: string, cwd: string, todo: set<string>, cur: map<string, Node>)
      returns (r: Result<map<string, Node>>)
      requires blankDir.Dir? && f in todo && todo <= nd.children.Keys
      requires ReadableFrom(nd, nd.children.Keys - todo, cwd, read)
      requires cur == blankDir.links + LinksFrom(nd, nd.children.Keys - todo, cwd, read, blankDir.links)
      ensures r.Ok? ==> ReadableFrom(nd, nd.children.Keys - (todo - {f}), cwd, read)
      ensures r.Ok? ==> r.value == blankDir.links + LinksFrom(nd, nd.children.Keys - (todo - {f}), cwd, read, blankDir.links)
      ensures r.Err? ==> !Readable(nd, cwd, read)
      ensures r.Err? ==> exists p :: p in FilePaths(nd, cwd) && read(p) == Err(r.error)
      decreases nd, 1, 0
    {
      var h := AddChild(nd, f, cwd);
      if h.Err? {
        return Err(h.error);
      }
      LinksFromAdd(nd, nd.children.Keys - todo, f, cwd, read, blankDir.links, h.value);
      assert nd.children.Keys - (todo - {f}) == (nd.children.Keys - todo) + {f};
      return Ok(cur[f := h.value]);
    }

    /** One turn of the loop of `addTree`: the object for child `f`. */
    method AddChild(nd: Tree, f: string, cwd: string) returns (r: Result<Node>)
      requires blankDir.Dir? && f in nd.children
      ensures r.Ok? <==> ChildReadable(nd, f, cwd, read)
      ensures r.Ok? ==> r.value == ChildLink(nd, f, cwd, read, blankDir.links)
      ensures r.Err? ==> !Readable(nd, cwd, read)
      ensures r.Err? ==> exists p :: p in FilePaths(nd, cwd) && read(p) == Err(r.error)
      decreases nd, 0
    {
      var v := Child(nd, f);
      ChildPaths(nd, f, cwd);
      if IsFile(v) {
        var ch := read(PathJoin(cwd, f));
        if ch.Err? {
          return Err(ch.error);
        }
        return Ok(Leaf(ch.value));
      }
      r := AddTree(v, PathJoin(cwd, f));
    }
  }
}
