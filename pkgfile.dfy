/** The manifest model of gxutil/pkgfile.go: a package is a name, a
    version, a language tag and an ordered list of dependency edges; an
    edge names its target by content hash and carries the name and
    version the importer saw for it. */
module PkgFile {
  import opened Common

  const PkgFileName: string := "package.json"

  /** One `gxDependencies` entry: an edge of the dependency graph. */
  datatype Dependency = Dependency(author: string, name: string, hash: Hash, version: string)

  /** The fields of `PackageBase` the core reads. `subtoolRequired` is the
      `SubtoolRequired` flag gxutil/pm.go passes to `TryRunHook`. */
  datatype Package = Package(
    name: string,
    version: string,
    language: string,
    subtoolRequired: bool,
    deps: seq<Dependency>)

  /** The installed packages, by hash. Looking a hash up stands for
      `LoadPackage` (the global then the local install path). */
  type Store = map<Hash, Package>

  /** The hashes the edges of a dependency list point at. */
  function DepHashes(deps: seq<Dependency>): set<Hash> {
    set i | 0 <= i < |deps| :: deps[i].hash
  }

  /** The hash of the `k`-th edge. (Named, so that a quantifier over the
      edges of a list is only used where a proof asks for it.) */
  ghost function HashOf(deps: seq<Dependency>, k: nat): Hash
    requires k < |deps|
  {
    deps[k].hash
  }

  /** The hashes of two lists put together. */
  lemma DepHashesAppend(a: seq<Dependency>, b: seq<Dependency>)
    ensures DepHashes(a + b) == DepHashes(a) + DepHashes(b)
  {
    var ab := a + b;
    forall h | h in DepHashes(a) + DepHashes(b) ensures h in DepHashes(ab) {
      if h in DepHashes(a) {
        var i :| 0 <= i < |a| && a[i].hash == h;
        assert ab[i] == a[i];
      } else {
        var i :| 0 <= i < |b| && b[i].hash == h;
        assert ab[|a| + i] == b[i];
      }
    }
  }

  /** One more edge of a prefix adds its hash. */
  lemma DepHashesPrefixStep(deps: seq<Dependency>, i: nat)
    requires i < |deps|
    ensures DepHashes(deps[..i + 1]) == DepHashes(deps[..i]) + {deps[i].hash}
  {
    assert deps[..i + 1] == deps[..i] + [deps[i]];
    DepHashesAppend(deps[..i], [deps[i]]);
    assert DepHashes([deps[i]]) == {deps[i].hash};
  }

  /** `FindDep`'s test: the edge is named by `ref`, as a hash or as a name. */
  predicate RefersTo(d: Dependency, ref: string) {
    d.hash == ref || d.name == ref
  }

  /** `FindDep`, reading the list from index `i` on. */
  function FindDepFrom(deps: seq<Dependency>, ref: string, i: nat): (r: Option<nat>)
    requires i <= |deps|
    ensures r.Some? ==> i <= r.value < |deps| && RefersTo(deps[r.value], ref)
    ensures r.Some? ==> forall j :: i <= j < r.value ==> !RefersTo(deps[j], ref)
    ensures r.None? <==> forall j :: i <= j < |deps| ==> !RefersTo(deps[j], ref)
    decreases |deps| - i
  {
    if i == |deps| then None
    else if RefersTo(deps[i], ref) then Some(i)
    else FindDepFrom(deps, ref, i + 1)
  }

  /** `FindDep`: the position of the first edge, in list order, whose hash or
      name is `ref`, or nothing. Go returns a pointer into the list; the
      position plays that part (see `SetDepHash`). */
  function FindDep(pkg: Package, ref: string): (r: Option<nat>)
    ensures r.Some? ==> r.value < |pkg.deps| && RefersTo(pkg.deps[r.value], ref)
    ensures r.Some? ==> forall j :: 0 <= j < r.value ==> !RefersTo(pkg.deps[j], ref)
    ensures r.None? <==> forall j :: 0 <= j < |pkg.deps| ==> !RefersTo(pkg.deps[j], ref)
  {
    FindDepFrom(pkg.deps, ref, 0)
  }

  /** A write through the pointer `FindDep` returned: the edge at `i` gets
      hash `h`, and nothing else in the package changes. */
  function SetDepHash(pkg: Package, i: nat, h: Hash): (r: Package)
    requires i < |pkg.deps|
    ensures |r.deps| == |pkg.deps| && r.deps[i] == pkg.deps[i].(hash := h)
    ensures forall j :: 0 <= j < |pkg.deps| && j != i ==> r.deps[j] == pkg.deps[j]
    ensures r.(deps := pkg.deps) == pkg
  {
    pkg.(deps := pkg.deps[i := pkg.deps[i].(hash := h)])
  }

  /** The error `ForEachDep` returns for an edge whose package cannot be loaded. */
  function NotFound(d: Dependency): Error {
    Msg("package " + d.name + " (" + d.hash + ") not found")
  }

  /** `ForEachDep`: load each edge's package in list order and hand edge and
      package to the callback, whose captured state is threaded through as
      `s`; the first load failure or callback error ends the walk. */
  function ForEachDep<S>(store: Store, deps: seq<Dependency>, cb: (S, Dependency, Package) -> Result<S>, s: S)
    : Result<S>
  {
    if deps == [] then Ok(s)
    else if deps[0].hash !in store then Err(NotFound(deps[0]))
    else
      match cb(s, deps[0], store[deps[0].hash])
      case Err(e) => Err(e)
      case Ok(s1) => ForEachDep(store, deps[1..], cb, s1)
  }

  /** The pairs (edge, loaded package) of the longest prefix of `deps`
      whose packages are all in the store. */
  function Loaded(store: Store, deps: seq<Dependency>): (v: seq<(Dependency, Package)>)
    ensures |v| <= |deps|
    ensures forall k :: 0 <= k < |v| ==> deps[k].hash in store && v[k] == (deps[k], store[deps[k].hash])
    ensures |v| < |deps| ==> deps[|v|].hash !in store
  {
    if deps == [] || deps[0].hash !in store then []
    else [(deps[0], store[deps[0].hash])] + Loaded(store, deps[1..])
  }

  /** Apply the callback to the pairs in order, stopping at its first error. */
  function Fold<S>(cb: (S, Dependency, Package) -> Result<S>, s: S, v: seq<(Dependency, Package)>): Result<S> {
    if v == [] then Ok(s)
    else
      match cb(s, v[0].0, v[0].1)
      case Err(e) => Err(e)
      case Ok(s1) => Fold(cb, s1, v[1..])
  }

  /** `ForEachDep` is: load the loadable prefix, run the callbacks over it in
      list order, and, if every callback succeeded but an edge could not be
      loaded, report that edge as not found. So no edge after a failed load
      or a failed callback is ever visited, and callback errors come back
      unchanged. */
  lemma {:induction false} ForEachDepIsLoadThenFold<S>(
    store: Store, deps: seq<Dependency>, cb: (S, Dependency, Package) -> Result<S>, s: S)
    ensures ForEachDep(store, deps, cb, s) ==
      (var v := Loaded(store, deps);
       var f := Fold(cb, s, v);
       if f.Err? || |v| == |deps| then f else Err(NotFound(deps[|v|])))
  {
    if deps != [] && deps[0].hash in store {
      var v := Loaded(store, deps);
      assert v[1..] == Loaded(store, deps[1..]);
      match cb(s, deps[0], store[deps[0].hash])
      case Err(e) =>
      case Ok(s1) =>
        ForEachDepIsLoadThenFold(store, deps[1..], cb, s1);
    }
  }

  /** What `SavePackageFile` does after reading the existing file. */
  datatype SaveAction =
    | WriteDirect              // no file yet: write the package as it is
    | MergeWithExisting(current: string) // merge into the existing JSON (mergeMaps, not modelled)
    | SaveFails(err: Error)    // any other read error is returned

  /** `SavePackageFile`'s first step: only a missing file is written
      directly; any other read error is returned unchanged. */
  function SavePackageFile(read: Result<string>): (a: SaveAction)
    ensures a.WriteDirect? <==> read.Err? && IsNotExist(read.error)
    ensures a.SaveFails? <==> read.Err? && !IsNotExist(read.error)
    ensures a.SaveFails? ==> a.err == read.error
    ensures a.MergeWithExisting? ==> read == Ok(a.current)
  {
    match read
    case Ok(data) => MergeWithExisting(data)
    case Err(e) => if IsNotExist(e) then WriteDirect else SaveFails(e)
  }
}
