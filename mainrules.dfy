/** The rules inside the command actions of main.go: the edge rewrite of
    `gx update`, the version bump of `gx version`, the key lookup of
    `gx view` and the selection of `gx clean`. */
module MainRules {
  import opened Common
  import opened Strings
  import opened PkgFile
  import opened Json
  import ViewQuery

  const VendorDir: string := "vendor"

  // ---------------------------------------------------------------------
  // gx update: rewriting the edge

  /** The hash the post-update hook is given as the old one, and the
      package as saved: the first edge `existing` names now points at
      `target`; without such an edge nothing changes and the old hash is
      empty. */
  function UpdatedEdge(pkg: Package, existing: string, target: Hash): (r: (Hash, Package))
    ensures FindDep(pkg, existing).None? ==> r == ("", pkg)
    ensures FindDep(pkg, existing).Some? ==>
      var i := FindDep(pkg, existing).value;
      && r.0 == pkg.deps[i].hash
      && |r.1.deps| == |pkg.deps|
      && r.1.deps[i] == pkg.deps[i].(hash := target)
      && (forall j :: 0 <= j < |pkg.deps| && j != i ==> r.1.deps[j] == pkg.deps[j])
      && r.1.(deps := pkg.deps) == pkg
  {
    match FindDep(pkg, existing)
    case None => ("", pkg)
    case Some(i) => (pkg.deps[i].hash, SetDepHash(pkg, i, target))
  }

  /** Updating to the hash an edge already has changes nothing. */
  lemma UpdateSameHash(pkg: Package, existing: string)
    requires FindDep(pkg, existing).Some?
    ensures UpdatedEdge(pkg, existing, pkg.deps[FindDep(pkg, existing).value].hash).1 == pkg
  {
    var i := FindDep(pkg, existing).value;
    var r := UpdatedEdge(pkg, existing, pkg.deps[i].hash).1;
    assert r.deps == pkg.deps;
  }

  /** Updating the edge back to the old hash restores the package. */
  lemma UpdateUndo(pkg: Package, existing: string, target: Hash)
    requires FindDep(pkg, existing).Some?
    requires FindDep(UpdatedEdge(pkg, existing, target).1, existing) == FindDep(pkg, existing)
    ensures var (h0, p1) := UpdatedEdge(pkg, existing, target); UpdatedEdge(p1, existing, h0).1 == pkg
  {
    var i := FindDep(pkg, existing).value;
    var (h0, p1) := UpdatedEdge(pkg, existing, target);
    assert UpdatedEdge(p1, existing, h0).1.deps == pkg.deps;
  }

  // ---------------------------------------------------------------------
  // gx version

  /** A parsed semantic version; the pre-release and build parts are
      carried along untouched by a bump. */
  datatype SemVer = SemVer(major: nat, minor: nat, patch: nat, pre: seq<string>, build: seq<string>)

  /** The version core, compared in the order semver gives it. */
  predicate CoreLess(a: SemVer, b: SemVer) {
    a.major < b.major
    || (a.major == b.major && a.minor < b.minor)
    || (a.major == b.major && a.minor == b.minor && a.patch < b.patch)
  }

  /** The `switch nver` of main.go:378-391: `major`, `minor` or `patch`
      bumps that field and zeroes the ones below it; any other word is
      not a field. */
  function Bump(v: SemVer, field: string): (r: Option<SemVer>)
    ensures r.Some? <==> field in {"major", "minor", "patch"}
    ensures r.Some? ==> r.value.pre == v.pre && r.value.build == v.build
    ensures field == "major" ==> r.Some? && r.value.major == v.major + 1 && r.value.minor == 0 && r.value.patch == 0
    ensures field == "minor" ==> r.Some? && r.value.major == v.major && r.value.minor == v.minor + 1 && r.value.patch == 0
    ensures field == "patch" ==> r.Some? && r.value.major == v.major && r.value.minor == v.minor && r.value.patch == v.patch + 1
  {
    match field
    case "major" => Some(v.(major := v.major + 1, minor := 0, patch := 0))
    case "minor" => Some(v.(minor := v.minor + 1, patch := 0))
    case "patch" => Some(v.(patch := v.patch + 1))
    case _ => None
  }

  /** A bump always moves the version core up, and every bump of a field
      leaves it below any bump of a higher field. */
  lemma BumpOrder(v: SemVer)
    ensures forall f :: f in {"major", "minor", "patch"} ==> CoreLess(v, Bump(v, f).value)
    ensures CoreLess(Bump(v, "patch").value, Bump(v, "minor").value)
    ensures CoreLess(Bump(v, "minor").value, Bump(v, "major").value)
  {
  }

  /** What `gx version` does. */
  datatype VersionAction =
    | Show(version: string)             // no argument: print the version
    | Save(version: string)             // set the version, save the file
    | Complain(msg: string, version: string) // report, save the version unchanged
    | Fatal(error: Error)               // exit before the deferred save

  /** The version command (main.go:348-393). `parse` is `semver.Make`,
      `show` is `Version.String`. An argument that parses as a version is
      taken verbatim, before the field names are considered; a current
      version that does not parse is fatal; an unknown word is reported
      and the file is still saved, unchanged. */
  function VersionCommand(cur: string, arg: Option<string>, parse: string -> Result<SemVer>, show: SemVer -> string)
    : (r: VersionAction)
    ensures arg.None? <==> r == Show(cur)
    ensures arg.Some? && parse(arg.value).Ok? ==> r == Save(arg.value)
    ensures arg.Some? && parse(arg.value).Err? && parse(cur).Err? ==> r == Fatal(parse(cur).error)
    ensures arg.Some? && parse(arg.value).Err? && parse(cur).Ok? ==>
      match Bump(parse(cur).value, arg.value)
      case Some(w) => r == Save(show(w))
      case None => r == Complain("argument was not a semver field: '" + arg.value + "'", cur)
  {
    match arg
    case None => Show(cur)
    case Some(nver) =>
      if parse(nver).Ok? then Save(nver)
      else match parse(cur)
        case Err(e) => Fatal(e)
        case Ok(v) =>
          match Bump(v, nver)
          case Some(w) => Save(show(w))
          case None => Complain("argument was not a semver field: '" + nver + "'", cur)
  }

  /** The version the package file holds after the command, or none when
      it is not written. */
  function SavedVersion(a: VersionAction): Option<string> {
    match a
    case Save(v) => Some(v)
    case Complain(_, v) => Some(v)
    case _ => None
  }

  /** A version a parser accepts is taken as it is, even when it reads
      like a field name: the semver test comes first. */
  lemma VersionFirst(cur: string, nver: string, parse: string -> Result<SemVer>, show: SemVer -> string)
    requires parse(nver).Ok?
    ensures SavedVersion(VersionCommand(cur, Some(nver), parse, show)) == Some(nver)
  {
  }

  /** An unknown word leaves the saved version as it was. */
  lemma UnknownWordKeeps(cur: string, nver: string, parse: string -> Result<SemVer>, show: SemVer -> string)
    requires parse(nver).Err? && parse(cur).Ok? && nver !in {"major", "minor", "patch"}
    ensures SavedVersion(VersionCommand(cur, Some(nver), parse, show)) == Some(cur)
  {
  }

  /** The package file being edited by `gx update` and `gx version`. */
  class Manifest {
    var pkg: Package

    constructor (pkg: Package)
      ensures this.pkg == pkg
    {
      this.pkg := pkg;
    }

    /** main.go:326-331: find the edge, remember its hash, point it at
        the target. */
    method UpdateDep(existing: string, target: Hash) returns (oldhash: Hash)
      modifies this
      ensures (oldhash, pkg) == UpdatedEdge(old(pkg), existing, target)
    {
      oldhash := "";
      var olddep := FindDep(pkg, existing);
      if olddep.Some? {
        oldhash := pkg.deps[olddep.value].hash;
        pkg := SetDepHash(pkg, olddep.value, target);
      }
    }

    /** main.go:348-393 on the loaded package: the version field changes
        as the command says, and nothing else does. */
    method SetVersion(arg: Option<string>, parse: string -> Result<SemVer>, show: SemVer -> string)
      returns (a: VersionAction)
      modifies this
      ensures a == VersionCommand(old(pkg).version, arg, parse, show)
      ensures SavedVersion(a).Some? ==> pkg == old(pkg).(version := SavedVersion(a).value)
      ensures SavedVersion(a).None? ==> pkg == old(pkg)
    {
      if arg.None? {
        return Show(pkg.version);
      }
      var nver := arg.value;
      if parse(nver).Ok? {
        pkg := pkg.(version := nver);
        return Save(nver);
      }
      var v := parse(pkg.version);
      if v.Err? {
        return Fatal(v.error);
      }
      var w := Bump(v.value, nver);
      if w.None? {
        return Complain("argument was not a semver field: '" + nver + "'", pkg.version);
      }
      pkg := pkg.(version := show(w.value));
      a := Save(pkg.version);
    }
  }

  // ---------------------------------------------------------------------
  // gx view

  /** Which file `gx view` reads and which query it runs (main.go:399-413):
      with two arguments the first names a vendored package, whose
      directory holds the package under its own name. `nameInDir` is
      `PackageNameInDir`. */
  function ViewTarget(args: seq<string>, nameInDir: string -> Result<string>): (r: Result<(string, string)>)
    ensures args == [] ==> r == Err(Msg("must specify at least a query"))
    ensures |args| == 1 || |args| > 2 ==> r == Ok((PkgFileName, args[0]))
    ensures |args| == 2 && r.Ok? ==> r.value.1 == args[1]
    ensures |args| == 2 ==> (r.Err? <==> nameInDir(PathJoin(VendorDir, args[0])).Err?)
  {
    if args == [] then Err(Msg("must specify at least a query"))
    else if |args| == 2 then
      var pkgdir := PathJoin(VendorDir, args[0]);
      match nameInDir(pkgdir)
      case Err(e) => Err(e)
      case Ok(name) => Ok((PathJoin(PathJoin(pkgdir, name), PkgFileName), args[1]))
    else Ok((PkgFileName, args[0]))
  }

  /** The non-empty strings of `parts`, in order. */
  function NonEmpty(parts: seq<string>): (r: seq<string>)
    ensures forall s :: s in r <==> s in parts && s != ""
    ensures |r| <= |parts|
  {
    if parts == [] then []
    else if parts[0] == "" then NonEmpty(parts[1..])
    else [parts[0]] + NonEmpty(parts[1..])
  }

  /** The keys of a view query: the pieces between dots that are not
      empty (main.go:428-433). */
  method SplitQuery(queryStr: string) returns (query: seq<string>)
    ensures query == NonEmpty(Split(queryStr, '.'))
    ensures forall k :: k in query ==> k != "" && '.' !in k
  {
    var parts := Split(queryStr, '.');
    query := [];
    var i := 0;
    while i < |parts|
      invariant 0 <= i <= |parts|
      invariant query + NonEmpty(parts[i..]) == NonEmpty(parts)
    {
      assert parts[i..][1..] == parts[i + 1..];
      if parts[i] != "" {
        query := query + [parts[i]];
      }
      i := i + 1;
    }
    assert parts[i..] == [];
  }

  /** Keys joined by dots split back into the same keys. */
  lemma {:induction false} SplitQueryJoin(keys: seq<string>)
    requires keys != [] && forall i :: 0 <= i < |keys| ==> keys[i] != "" && '.' !in keys[i]
    ensures NonEmpty(Split(Join(keys, "."), '.')) == keys
  {
    SplitJoin(keys, '.');
    AllNonEmpty(keys);
  }

  lemma {:induction false} AllNonEmpty(keys: seq<string>)
    requires forall i :: 0 <= i < |keys| ==> keys[i] != ""
    ensures NonEmpty(keys) == keys
  {
    if keys != [] {
      AllNonEmpty(keys[1..]);
      assert keys == [keys[0]] + keys[1..];
    }
  }

  /** The lookup loop of `gx view` as written (main.go:435-453), from the
      `i`-th key on: a missing key is fatal and names the keys so far; a
      value that is not an object ends the walk when it is the last key
      and is otherwise fatal, naming `query[i-1]`, which for the first key
      is an index out of range. */
  function LookupAsWritten(cur: Obj, val: Value, query: seq<string>, i: nat): (r: ViewQuery.Outcome<Value>)
    requires i <= |query|
    ensures r.Panics? <==> i == 0 && |query| > 1 && query[0] in cur && !cur[query[0]].Object?
    ensures r.Panics? ==> r == ViewQuery.Panics(ViewQuery.IndexOutOfRange)
    decreases |query| - i
  {
    if i == |query| then ViewQuery.Yields(val)
    else if query[i] !in cur then ViewQuery.Fails("key not found: " + Join(query[..i + 1], "."))
    else
      var v := cur[query[i]];
      if v.Object? then LookupAsWritten(v.fields, v, query, i + 1)
      else if i == |query| - 1 then ViewQuery.Yields(v)
      else if i == 0 then ViewQuery.Panics(ViewQuery.IndexOutOfRange)
      else ViewQuery.Fails(query[i - 1] + " is not indexable")
  }

  /** The lookup as intended: a value that cannot be indexed further is
      reported by its own key. */
  function Lookup(cur: Obj, val: Value, query: seq<string>, i: nat): (r: ViewQuery.Outcome<Value>)
    requires i <= |query|
    ensures !r.Panics?
    decreases |query| - i
  {
    if i == |query| then ViewQuery.Yields(val)
    else if query[i] !in cur then ViewQuery.Fails("key not found: " + Join(query[..i + 1], "."))
    else
      var v := cur[query[i]];
      if v.Object? then Lookup(v.fields, v, query, i + 1)
      else if i == |query| - 1 then ViewQuery.Yields(v)
      else ViewQuery.Fails(query[i] + " is not indexable")
  }

  /** The intended lookup finds exactly the value the keys reach through
      nested objects, and fails otherwise. */
  lemma {:induction false} LookupFollows(cur: Obj, val: Value, query: seq<string>, i: nat)
    requires i <= |query|
    ensures Lookup(cur, val, query, i).Yields? <==> ViewQuery.Follow(Object(cur), query[i..]).Some?
    ensures Lookup(cur, val, query, i).Yields? && i < |query| ==>
      Lookup(cur, val, query, i).value == ViewQuery.Follow(Object(cur), query[i..]).value
    decreases |query| - i
  {
    if i < |query| {
      assert query[i..][1..] == query[i + 1..];
      if query[i] in cur && cur[query[i]].Object? {
        LookupFollows(cur[query[i]].fields, cur[query[i]], query, i + 1);
        if i + 1 == |query| {
          assert query[i + 1..] == [];
        }
      } else if query[i] in cur && i < |query| - 1 {
        assert query[i + 1..] != [];
      }
    }
  }

  /** The lookup from the document itself: the empty query shows the
      whole document. */
  lemma LookupEmpty(cfg: Obj)
    ensures Lookup(cfg, Object(cfg), [], 0) == ViewQuery.Yields(Object(cfg))
  {
  }

  /** A first key whose value is a string, followed by another key: the
      code as written indexes `query[-1]`, the intended lookup names the
      key. */
  lemma NotIndexableFirstKey()
    ensures LookupAsWritten(map["name" := Str("gx")], Object(map["name" := Str("gx")]), ["name", "x"], 0)
      == ViewQuery.Panics(ViewQuery.IndexOutOfRange)
    ensures Lookup(map["name" := Str("gx")], Object(map["name" := Str("gx")]), ["name", "x"], 0)
      == ViewQuery.Fails("name is not indexable")
  {
  }

  /** Deeper down, the code as written names the key before the one whose
      value is not an object. */
  lemma NotIndexableNamesParent()
    ensures var cfg := map["a" := Object(map["b" := Str("s")])];
      && LookupAsWritten(cfg, Object(cfg), ["a", "b", "c"], 0) == ViewQuery.Fails("a is not indexable")
      && Lookup(cfg, Object(cfg), ["a", "b", "c"], 0) == ViewQuery.Fails("b is not indexable")
  {
    var cfg := map["a" := Object(map["b" := Str("s")])];
    var inner := map["b" := Str("s")];
    assert cfg["a"] == Object(inner);
    assert LookupAsWritten(cfg, Object(cfg), ["a", "b", "c"], 0) == LookupAsWritten(inner, Object(inner), ["a", "b", "c"], 1);
    assert Lookup(cfg, Object(cfg), ["a", "b", "c"], 0) == Lookup(inner, Object(inner), ["a", "b", "c"], 1);
  }

  /** The lookup as written and the intended one succeed on the same
      queries and then yield the same value: they differ only in how a
      value that cannot be indexed is reported. */
  lemma {:induction false} LookupAgrees(cur: Obj, val: Value, query: seq<string>, i: nat)
    requires i <= |query|
    ensures LookupAsWritten(cur, val, query, i).Yields? <==> Lookup(cur, val, query, i).Yields?
    ensures Lookup(cur, val, query, i).Yields? ==> LookupAsWritten(cur, val, query, i) == Lookup(cur, val, query, i)
    decreases |query| - i
  {
    if i < |query| && query[i] in cur && cur[query[i]].Object? {
      LookupAgrees(cur[query[i]].fields, cur[query[i]], query, i + 1);
    }
  }

  /** The lookup loop of `gx view`, with the key of the value that cannot
      be indexed in the message. */
  method View(cfg: Obj, query: seq<string>) returns (r: ViewQuery.Outcome<Value>)
    ensures r == Lookup(cfg, Object(cfg), query, 0)
  {
    var cur := cfg;
    var val: Value := Object(cfg);
    var i := 0;
    while i < |query|
      invariant 0 <= i <= |query|
      invariant Lookup(cur, val, query, i) == Lookup(cfg, Object(cfg), query, 0)
    {
      var q := query[i];
      if q !in cur {
        return ViewQuery.Fails("key not found: " + Join(query[..i + 1], "."));
      }
      var v := cur[q];
      val := v;
      if !v.Object? {
        if i == |query| - 1 {
          break;
        }
        return ViewQuery.Fails(q + " is not indexable");
      }
      cur := v.fields;
      i := i + 1;
    }
    return ViewQuery.Yields(val);
  }

  // ---------------------------------------------------------------------
  // gx clean

  /** What `gx clean` has done: the names printed, the directories
      removed, and the error that stopped it. */
  datatype Cleaned = Cleaned(printed: seq<string>, removed: seq<string>, err: Option<Error>)

  /** The directory of a vendored entry. */
  function VendorPath(cwd: string, name: string): string {
    PathJoin(PathJoin(cwd, VendorDir), name)
  }

  /** The first `n` entries of the vendor directory handled
      (main.go:487-498): an entry that is not a key of `good` is printed
      and, unless it is a dry run, removed; a failing removal is fatal. */
  function CleanUpTo(entries: seq<string>, n: nat, good: map<Hash, string>, dry: bool, cwd: string,
                     remove: string -> Option<Error>): (r: Cleaned)
    requires n <= |entries|
  {
    if n == 0 then Cleaned([], [], None)
    else
      var c := CleanUpTo(entries, n - 1, good, dry, cwd, remove);
      var name := entries[n - 1];
      if c.err.Some? || name in good then c
      else if dry then c.(printed := c.printed + [name])
      else if remove(VendorPath(cwd, name)).Some? then
        Cleaned(c.printed + [name], c.removed, remove(VendorPath(cwd, name)))
      else Cleaned(c.printed + [name], c.removed + [name], None)
  }

  /** Only entries outside `good` are printed or removed; a dry run
      removes nothing, and otherwise every printed entry but a failing
      last one is removed. Without an error every unused entry is
      printed. */
  lemma {:induction false} CleanKeeps(entries: seq<string>, n: nat, good: map<Hash, string>, dry: bool, cwd: string,
                                      remove: string -> Option<Error>)
    requires n <= |entries|
    ensures var c := CleanUpTo(entries, n, good, dry, cwd, remove);
      && (forall x :: x in c.printed ==> x in entries[..n] && x !in good)
      && (dry ==> c.removed == [] && c.err.None?)
      && (!dry && c.err.None? ==> c.removed == c.printed)
      && (!dry && c.err.Some? ==> |c.printed| > 0 && c.printed == c.removed + [c.printed[|c.printed| - 1]])
      && (c.err.None? ==> forall x :: x in entries[..n] && x !in good ==> x in c.printed)
  {
    if n > 0 {
      CleanKeeps(entries, n - 1, good, dry, cwd, remove);
      assert entries[..n] == entries[..n - 1] + [entries[n - 1]];
    }
  }

  /** The loop of `gx clean` over the vendor directory. */
  method Clean(entries: seq<string>, good: map<Hash, string>, dry: bool, cwd: string,
               remove: string -> Option<Error>) returns (r: Cleaned)
    ensures r == CleanUpTo(entries, |entries|, good, dry, cwd, remove)
  {
    var printed := [];
    var removed := [];
    var i := 0;
    while i < |entries|
      invariant 0 <= i <= |entries|
      invariant CleanUpTo(entries, i, good, dry, cwd, remove) == Cleaned(printed, removed, None)
    {
      var name := entries[i];
      if name !in good {
        printed := printed + [name];
        if !dry {
          var err := remove(VendorPath(cwd, name));
          if err.Some? {
            CleanStops(entries, i + 1, good, dry, cwd, remove);
            return Cleaned(printed, removed, err);
          }
          removed := removed + [name];
        }
      }
      i := i + 1;
    }
    return Cleaned(printed, removed, None);
  }

  /** After a fatal removal nothing more happens. */
  lemma {:induction false} CleanStops(entries: seq<string>, k: nat, good: map<Hash, string>, dry: bool, cwd: string,
                                      remove: string -> Option<Error>)
    requires k <= |entries| && CleanUpTo(entries, k, good, dry, cwd, remove).err.Some?
    ensures CleanUpTo(entries, |entries|, good, dry, cwd, remove) == CleanUpTo(entries, k, good, dry, cwd, remove)
    decreases |entries| - k
  {
    if k < |entries| {
      CleanStops(entries, k + 1, good, dry, cwd, remove);
    }
  }
}
