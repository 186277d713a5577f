/** The recursive walks of gxutil/pm.go over the installed packages
    (`enumerateDepsRec`, `resolveDepName`) and two small helpers beside
    them (`IsHash`, `githubRawPath`). */
module Walks {
  import opened Common
  import opened PkgFile
  import opened Graph
  import opened Strings

  /** The error `enumerateDepsRec` returns when the package of edge `d`
      cannot be loaded: a missing package is reported by edge, any other
      load error is passed on. `missing` gives `LoadPackage`'s error. */
  function LoadError(missing: Hash -> Error, d: Dependency): (e: Error)
    ensures IsNotExist(missing(d.hash)) ==> e == NotFound(d)
    ensures !IsNotExist(missing(d.hash)) ==> e == missing(d.hash)
  {
    if IsNotExist(missing(d.hash)) then NotFound(d) else missing(d.hash)
  }

  /** `d` is an edge of the root list or of a stored package among `keys`. */
  ghost predicate EdgeIn(store: Store, rootDeps: seq<Dependency>, keys: set<Hash>, d: Dependency) {
    d in rootDeps || exists g :: EdgeOf(store, keys, g, d)
  }

  /** `d` is an edge of the stored package `g` among `keys`. */
  ghost predicate EdgeOf(store: Store, keys: set<Hash>, g: Hash, d: Dependency) {
    g in keys && g in store && d in store[g].deps
  }

  /** Some such edge points at `h` under the name `name`. */
  ghost predicate Named(store: Store, rootDeps: seq<Dependency>, keys: set<Hash>, h: Hash, name: string) {
    exists d {:trigger EdgeIn(store, rootDeps, keys, d)} :: EdgeIn(store, rootDeps, keys, d) && d.hash == h && d.name == name
  }

  lemma NamedGrow(store: Store, rootDeps: seq<Dependency>, keys: set<Hash>, keys': set<Hash>, h: Hash, name: string)
    requires Named(store, rootDeps, keys, h, name) && keys <= keys'
    ensures Named(store, rootDeps, keys', h, name)
  {
    var d :| EdgeIn(store, rootDeps, keys, d) && d.hash == h && d.name == name;
    if d !in rootDeps {
      var g :| EdgeOf(store, keys, g, d);
      assert EdgeOf(store, keys', g, d);
    }
    assert EdgeIn(store, rootDeps, keys', d);
  }

  /** An edge found below a stored child `c` among `keys` is an edge found
      below the parent's list. */
  lemma NamedLift(store: Store, rootDeps: seq<Dependency>, c: Hash, keys: set<Hash>, h: Hash, name: string)
    requires c in keys && c in store
    requires Named(store, store[c].deps, keys, h, name)
    ensures Named(store, rootDeps, keys, h, name)
  {
    var d :| EdgeIn(store, store[c].deps, keys, d) && d.hash == h && d.name == name;
    if d in store[c].deps {
      assert EdgeOf(store, keys, c, d);
    }
    assert EdgeIn(store, rootDeps, keys, d);
  }

  /** The facts `enumerateDepsRec` keeps about the shared map while it
      walks: entries present at the start are untouched, every new key was
      loaded once, is reachable from the walk's root and is named after an
      edge that reaches it. */
  ghost predicate EnumSoFar(store: Store, rootDeps: seq<Dependency>, s0: map<Hash, string>,
                            s: map<Hash, string>, loaded: seq<Hash>) {
    && s0.Keys <= s.Keys
    && (forall h :: h in s0 ==> s[h] == s0[h])
    && Distinct(loaded)
    && (set x | x in loaded) == s.Keys - s0.Keys
    && s.Keys - s0.Keys <= Reachable(store, DepHashes(rootDeps))
    && (forall h {:trigger s[h]} :: h in s.Keys - s0.Keys ==> Named(store, rootDeps, s.Keys, h, s[h]))
  }

  /** Every new key is a stored package whose edges all lead to keys. */
  ghost predicate EnumExpanded(store: Store, s0: map<Hash, string>, s: map<Hash, string>) {
    && (forall h {:trigger h in s.Keys - s0.Keys} :: h in s.Keys - s0.Keys ==> h in store)
    && (forall h, i :: h in s.Keys - s0.Keys && h in store && 0 <= i < |store[h].deps| ==>
          store[h].deps[i].hash in s.Keys)
  }

  /** `enumerateDepsRec`: walk `pkg`'s edges in order, skipping a hash the
      shared map `s0` already holds; otherwise record the edge's name for
      its hash, load its package and recurse into it. The first load or
      recursive error ends the walk. `U` bounds the hashes the walk can
      meet (it makes the walk's termination explicit); `loaded` lists the
      loads in order. */
  method EnumerateDepsRec(store: Store, missing: Hash -> Error, pkg: Package, s0: map<Hash, string>,
                          ghost U: set<Hash>)
    returns (s: map<Hash, string>, err: Option<Error>, ghost loaded: seq<Hash>, ghost bad: Dependency)
    requires DepHashes(pkg.deps) <= U && StoreEdges(store) <= U
    ensures EnumSoFar(store, pkg.deps, s0, s, loaded)
    ensures err.None? ==> DepHashes(pkg.deps) <= s.Keys && EnumExpanded(store, s0, s)
    ensures err.Some? ==>
      && bad.hash in s.Keys - s0.Keys && bad.hash !in store
      && err == Some(LoadError(missing, bad))
    decreases |U - s0.Keys|, 2
  {
    ReachableWithin(store, DepHashes(pkg.deps));
    s, loaded := s0, [];
    bad := Dependency("", "", "", "");
    var i := 0;
    while i < |pkg.deps|
      invariant 0 <= i <= |pkg.deps|
      invariant EnumSoFar(store, pkg.deps, s0, s, loaded)
      invariant DepHashes(pkg.deps[..i]) <= s.Keys
      invariant EnumExpanded(store, s0, s)
    {
      var d := pkg.deps[i];
      CardLe(U - s.Keys, U - s0.Keys);
      s, err, loaded, bad := EnumEdge(store, missing, pkg.deps, d, s0, s, loaded, U);
      if err.Some? {
        return;
      }
      DepHashesPrefixStep(pkg.deps, i);
      i := i + 1;
    }
    assert pkg.deps[..i] == pkg.deps;
    err := None;
  }

  /** One turn of `enumerateDepsRec`'s loop, for the edge `d` of the list
      `rootDeps`: a hash the map already holds is skipped. */
  method EnumEdge(store: Store, missing: Hash -> Error, rootDeps: seq<Dependency>, d: Dependency,
                  ghost s0: map<Hash, string>, s: map<Hash, string>, ghost loaded: seq<Hash>, ghost U: set<Hash>)
    returns (s': map<Hash, string>, err: Option<Error>, ghost loaded': seq<Hash>, ghost bad: Dependency)
    requires d in rootDeps && DepHashes(rootDeps) <= U && StoreEdges(store) <= U
    requires Reachable(store, DepHashes(rootDeps)) <= U
    requires EnumSoFar(store, rootDeps, s0, s, loaded) && EnumExpanded(store, s0, s)
    ensures EnumSoFar(store, rootDeps, s0, s', loaded')
    ensures err.None? ==> s.Keys + {d.hash} <= s'.Keys && EnumExpanded(store, s0, s')
    ensures err.Some? ==>
      && bad.hash in s'.Keys - s0.Keys && bad.hash !in store
      && err == Some(LoadError(missing, bad))
    decreases |U - s.Keys|, 1
  {
    if d.hash in s {
      return s, None, loaded, d;
    }
    s', err, loaded', bad := EnumLoad(store, missing, rootDeps, d, s0, s, loaded, U);
  }

  /** The body of `enumerateDepsRec`'s loop for an edge `d` of the list
      `rootDeps` whose hash the map `s` (of the walk started from `s0`)
      does not hold yet: record its name, load its package and recurse. */
  method EnumLoad(store: Store, missing: Hash -> Error, rootDeps: seq<Dependency>, d: Dependency,
                  ghost s0: map<Hash, string>, s: map<Hash, string>, ghost loaded: seq<Hash>, ghost U: set<Hash>)
    returns (s': map<Hash, string>, err: Option<Error>, ghost loaded': seq<Hash>, ghost bad: Dependency)
    requires d in rootDeps && d.hash !in s && DepHashes(rootDeps) <= U && StoreEdges(store) <= U
    requires Reachable(store, DepHashes(rootDeps)) <= U
    requires EnumSoFar(store, rootDeps, s0, s, loaded) && EnumExpanded(store, s0, s)
    ensures EnumSoFar(store, rootDeps, s0, s', loaded')
    ensures err.None? ==> s.Keys + {d.hash} <= s'.Keys && EnumExpanded(store, s0, s')
    ensures err.Some? ==>
      && bad.hash in s'.Keys - s0.Keys && bad.hash !in store
      && err == Some(LoadError(missing, bad))
    decreases |U - s.Keys|, 0
  {
    bad := d;
    s' := s[d.hash := d.name];
    loaded' := loaded + [d.hash];
    EnumAdd(store, rootDeps, s0, s, loaded, d);
    if d.hash !in store {
      return s', Some(LoadError(missing, d)), loaded', d;
    }
    assert d.hash in DepHashes(rootDeps) by {
      var i :| 0 <= i < |rootDeps| && rootDeps[i] == d;
    }
    StoreDepsInEdges(store, d.hash);
    CardShrinks(U, s.Keys, s'.Keys, d.hash);
    ghost var sc := s';
    var s1, e1, l1, b1 := EnumerateDepsRec(store, missing, store[d.hash], s', U);
    ReachableClosed(store, DepHashes(rootDeps));
    ReachableFromChild(store, DepHashes(rootDeps), d.hash);
    EnumJoin(store, rootDeps, s0, sc, loaded', d.hash, s1, l1);
    s', loaded' := s1, loaded' + l1;
    if e1.Some? {
      return s', e1, loaded', b1;
    }
    EnumExpandJoin(store, s0, s, d.hash, d.name, s');
    err := None;
  }

  /** Recording a new root edge keeps the walk's facts. */
  lemma EnumAdd(store: Store, rootDeps: seq<Dependency>, s0: map<Hash, string>, s: map<Hash, string>,
                loaded: seq<Hash>, d: Dependency)
    requires EnumSoFar(store, rootDeps, s0, s, loaded)
    requires d in rootDeps && d.hash !in s
    ensures EnumSoFar(store, rootDeps, s0, s[d.hash := d.name], loaded + [d.hash])
  {
    assert d.hash in Reachable(store, DepHashes(rootDeps)) by {
      ReachableClosed(store, DepHashes(rootDeps));
      var i :| 0 <= i < |rootDeps| && rootDeps[i] == d;
    }
    EnumAddNamed(store, rootDeps, s0, s, d);
    LoadedAppend(loaded, s.Keys - s0.Keys, d.hash);
    assert s[d.hash := d.name].Keys - s0.Keys == (s.Keys - s0.Keys) + {d.hash};
  }

  /** The new entry is named after its own edge; the old names keep theirs. */
  lemma EnumAddNamed(store: Store, rootDeps: seq<Dependency>, s0: map<Hash, string>, s: map<Hash, string>,
                     d: Dependency)
    requires forall h {:trigger s[h]} :: h in s.Keys - s0.Keys ==> Named(store, rootDeps, s.Keys, h, s[h])
    requires d in rootDeps && d.hash !in s
    ensures var s' := s[d.hash := d.name];
      forall h {:trigger s'[h]} :: h in s'.Keys - s0.Keys ==> Named(store, rootDeps, s'.Keys, h, s'[h])
  {
    var s' := s[d.hash := d.name];
    forall h | h in s'.Keys - s0.Keys ensures Named(store, rootDeps, s'.Keys, h, s'[h]) {
      if h == d.hash {
        assert EdgeIn(store, rootDeps, s'.Keys, d);
      } else {
        NamedGrow(store, rootDeps, s.Keys, s'.Keys, h, s'[h]);
      }
    }
  }

  /** A distinct load list of the keys `K`, extended by a hash not in `K`. */
  lemma LoadedAppend(loaded: seq<Hash>, K: set<Hash>, h: Hash)
    requires Distinct(loaded) && (set x | x in loaded) == K && h !in K
    ensures Distinct(loaded + [h]) && (set x | x in loaded + [h]) == K + {h}
  {
    var l' := loaded + [h];
    forall i: nat, j: nat | i < j < |l'| ensures Nth(l', i) != Nth(l', j) {
      if j == |loaded| {
        assert l'[i] == loaded[i] && l'[j] == h;
        assert loaded[i] in (set x | x in loaded);
      } else {
        assert l'[i] == loaded[i] && l'[j] == loaded[j];
        assert Nth(loaded, i) != Nth(loaded, j);
      }
    }
  }

  /** Joining the walk below the stored child `c` (whose facts speak of
      `c`'s own edges and start from `s`) into the walk of `rootDeps`. */
  lemma EnumJoin(store: Store, rootDeps: seq<Dependency>, s0: map<Hash, string>, s: map<Hash, string>,
                 loaded: seq<Hash>, c: Hash, s1: map<Hash, string>, l1: seq<Hash>)
    requires EnumSoFar(store, rootDeps, s0, s, loaded)
    requires c in s.Keys && c in store
    requires EnumSoFar(store, store[c].deps, s, s1, l1)
    requires Reachable(store, DepHashes(store[c].deps)) <= Reachable(store, DepHashes(rootDeps))
    ensures EnumSoFar(store, rootDeps, s0, s1, loaded + l1)
  {
    var l := loaded + l1;
    assert (set x | x in l) == (set x | x in loaded) + (set x | x in l1);
    forall i: nat, j: nat | i < j < |l| ensures Nth(l, i) != Nth(l, j) {
      if j < |loaded| {
        assert l[i] == loaded[i] && l[j] == loaded[j];
        assert Nth(loaded, i) != Nth(loaded, j);
      } else if i >= |loaded| {
        assert l[i] == l1[i - |loaded|] && l[j] == l1[j - |loaded|];
        assert Nth(l1, i - |loaded|) != Nth(l1, j - |loaded|);
      } else {
        assert l[i] == loaded[i] && l[j] == l1[j - |loaded|];
        assert loaded[i] in (set x | x in loaded) && l1[j - |loaded|] in (set x | x in l1);
        assert loaded[i] in s.Keys - s0.Keys && l1[j - |loaded|] in s1.Keys - s.Keys;
      }
    }
    forall h | h in s1.Keys - s0.Keys ensures Named(store, rootDeps, s1.Keys, h, s1[h]) {
      if h in s.Keys {
        NamedGrow(store, rootDeps, s.Keys, s1.Keys, h, s[h]);
      } else {
        NamedLift(store, rootDeps, c, s1.Keys, h, s1[h]);
      }
    }
  }

  /** After a successful walk below `c`, the new keys are all expanded. */
  lemma EnumExpandJoin(store: Store, s0: map<Hash, string>, prev: map<Hash, string>, c: Hash, name: string,
                       s1: map<Hash, string>)
    requires EnumExpanded(store, s0, prev) && EnumExpanded(store, prev[c := name], s1)
    requires s0.Keys <= prev.Keys && prev[c := name].Keys <= s1.Keys
    requires c in store && DepHashes(store[c].deps) <= s1.Keys
    ensures EnumExpanded(store, s0, s1)
  {
    forall h | h in s1.Keys - s0.Keys ensures h in store {
      if h != c && h !in prev {
        assert h in s1.Keys - prev[c := name].Keys;
      } else if h != c {
        assert h in prev.Keys - s0.Keys;
      }
    }
  }

  /** `EnumerateDependencies`: the hashes reachable from `pkg`'s edges,
      each with the name of an edge that reaches it, or the error of the
      first edge whose package cannot be loaded. No hash is loaded twice. */
  method EnumerateDependencies(store: Store, missing: Hash -> Error, pkg: Package)
    returns (r: Result<map<Hash, string>>, ghost loaded: seq<Hash>)
    ensures Distinct(loaded)
    ensures (set x | x in loaded) <= Reachable(store, DepHashes(pkg.deps))
    ensures r.Ok? ==>
      && r.value.Keys == Reachable(store, DepHashes(pkg.deps))
      && (set x | x in loaded) == r.value.Keys
      && forall h :: h in r.value ==> h in store && Named(store, pkg.deps, r.value.Keys, h, r.value[h])
    ensures r.Err? ==> exists d: Dependency {:trigger LoadError(missing, d)} ::
      d.hash in Reachable(store, DepHashes(pkg.deps)) && d.hash !in store && r.error == LoadError(missing, d)
  {
    var s, err, l, bad := EnumerateDepsRec(store, missing, pkg, map[], DepHashes(pkg.deps) + StoreEdges(store));
    loaded := l;
    if err.Some? {
      return Err(err.value), loaded;
    }
    EnumComplete(store, pkg.deps, s, loaded);
    return Ok(s), loaded;
  }

  /** A walk from the empty map that expanded every key it added, the
      root's edges among them, has added exactly the reachable hashes. */
  lemma EnumComplete(store: Store, rootDeps: seq<Dependency>, s: map<Hash, string>, loaded: seq<Hash>)
    requires EnumSoFar(store, rootDeps, map[], s, loaded)
    requires DepHashes(rootDeps) <= s.Keys && EnumExpanded(store, map[], s)
    ensures s.Keys == Reachable(store, DepHashes(rootDeps))
    ensures (set x | x in loaded) == s.Keys
    ensures forall h :: h in s ==> h in store && Named(store, rootDeps, s.Keys, h, s[h])
  {
    var e: map<Hash, string> := map[];
    assert s.Keys - e.Keys == s.Keys;
    assert Closed(store, s.Keys) by {
      forall h, i | h in s.Keys && h in store && 0 <= i < |store[h].deps| ensures store[h].deps[i].hash in s.Keys {
        assert h in s.Keys - e.Keys;
      }
    }
    ReachableLeast(store, DepHashes(rootDeps), s.Keys);
    forall h | h in s ensures h in store && Named(store, rootDeps, s.Keys, h, s[h]) {
      assert h in s.Keys - e.Keys;
    }
  }

  /** The manifest path `resolveDepName` reads for the edge `d` below the
      install dir `dir`: `dir/<hash>/<name>/package.json`. */
  function PkgJsonPath(dir: string, d: Dependency): string {
    PathJoin(PathJoin(PathJoin(dir, d.hash), d.name), "package.json")
  }

  /** `LoadPackageFile` of that path: the hash dir of a stored package
      holds it under the package's own name, so an edge that names it
      differently, like a hash that is not stored, reads a missing file. */
  function LoadEdge(store: Store, dir: string, d: Dependency): (r: Result<Package>)
    ensures r.Ok? <==> d.hash in store && store[d.hash].name == d.name
  {
    if d.hash in store && store[d.hash].name == d.name then Ok(store[d.hash])
    else Err(NotExist(PkgJsonPath(dir, d)))
  }

  /** `d` is an edge of a stored package reachable from `deps`. */
  ghost predicate EdgeUnder(store: Store, deps: seq<Dependency>, h: Hash, d: Dependency) {
    h in Reachable(store, DepHashes(deps)) && h in store && d in store[h].deps
  }

  /** `d` is an edge of `deps` or of a stored package reachable from them. */
  ghost predicate EdgeBelow(store: Store, deps: seq<Dependency>, d: Dependency) {
    d in deps || exists h {:trigger EdgeUnder(store, deps, h, d)} :: EdgeUnder(store, deps, h, d)
  }

  /** No edge of `deps`, nor of any stored package reachable from them, is
      called `name`. */
  ghost predicate NameFree(store: Store, deps: seq<Dependency>, name: string) {
    && (forall i :: 0 <= i < |deps| ==> deps[i].name != name)
    && forall h {:trigger h in Reachable(store, DepHashes(deps))} ::
         h in Reachable(store, DepHashes(deps)) && h in store ==>
           forall i :: 0 <= i < |store[h].deps| ==> store[h].deps[i].name != name
  }

  /** Every hash in `checked` is a stored package below which no edge is
      called `name`: what `resolveDepName` learns before it marks a hash. */
  ghost predicate CheckedFree(store: Store, checked: set<Hash>, name: string) {
    forall h {:trigger h in checked} :: h in checked ==> h in store && NameFree(store, store[h].deps, name)
  }

  /** `p` was loaded through an edge called `name` found below `deps`. */
  ghost predicate FoundBelow(store: Store, dir: string, deps: seq<Dependency>, name: string, p: Package) {
    exists d {:trigger EdgeBelow(store, deps, d)} :: EdgeBelow(store, deps, d) && d.name == name && LoadEdge(store, dir, d) == Ok(p)
  }

  /** `e` is the error of loading an edge found below `deps`. */
  ghost predicate FailedBelow(store: Store, dir: string, deps: seq<Dependency>, e: Error) {
    exists d {:trigger EdgeBelow(store, deps, d)} :: EdgeBelow(store, deps, d) && LoadEdge(store, dir, d) == Err(e)
  }

  /** Every edge of `deps`, and of every stored package reachable from
      them, loads. */
  ghost predicate LoadsBelow(store: Store, dir: string, deps: seq<Dependency>) {
    forall d {:trigger EdgeBelow(store, deps, d)} :: EdgeBelow(store, deps, d) ==> LoadEdge(store, dir, d).Ok?
  }

  /** The index of the first edge of `deps` called `name`, if any. */
  function FirstNamed(deps: seq<Dependency>, name: string): (k: Option<nat>)
    ensures k.Some? ==> k.value < |deps| && deps[k.value].name == name
    ensures k.Some? ==> forall j :: 0 <= j < k.value ==> deps[j].name != name
    ensures k.None? ==> forall j :: 0 <= j < |deps| ==> deps[j].name != name
  {
    if deps == [] then None
    else if deps[0].name == name then Some(0)
    else match FirstNamed(deps[1..], name)
      case None => None
      case Some(j) => Some(j + 1)
  }

  /** `resolveDepName`: the package called `name` below `pkg`. A direct edge
      of that name wins, and its load is the answer. Otherwise each edge
      whose hash is not in `checked` is loaded (a load error is returned)
      and searched in turn; the first success is the answer, a search that
      found nothing marks the hash in `checked`, and any other error is
      returned. When no search finds the name the result is
      `UnrecognizedName`. `rank` and `bound` make the recursion's end
      explicit (the Go code relies on the store holding no cycle). */
  method ResolveDepName(store: Store, dir: string, pkg: Package, name: string, checked: set<Hash>,
                        ghost rank: map<Hash, nat>, ghost bound: nat)
    returns (r: Result<Package>, checked': set<Hash>)
    requires Ranked(store, rank)
    requires forall i :: 0 <= i < |pkg.deps| && pkg.deps[i].hash in store ==> RankOf(rank, pkg.deps[i].hash) < bound
    ensures FirstNamed(pkg.deps, name).Some? ==>
      r == LoadEdge(store, dir, pkg.deps[FirstNamed(pkg.deps, name).value]) && checked' == checked
    ensures checked <= checked'
    ensures CheckedFree(store, checked, name) ==> CheckedFree(store, checked', name)
    ensures r.Ok? ==> FoundBelow(store, dir, pkg.deps, name, r.value)
    ensures r.Err? && r.error != UnrecognizedName ==> FailedBelow(store, dir, pkg.deps, r.error)
    ensures r == Err(UnrecognizedName) && CheckedFree(store, checked, name) ==> NameFree(store, pkg.deps, name)
    ensures FirstNamed(pkg.deps, name).None? && DepHashes(pkg.deps) <= checked ==>
      r == Err(UnrecognizedName) && checked' == checked
    decreases bound, 1
  {
    var i := 0;
    while i < |pkg.deps|
      invariant 0 <= i <= |pkg.deps|
      invariant forall j :: 0 <= j < i ==> pkg.deps[j].name != name
    {
      if pkg.deps[i].name == name {
        var d := pkg.deps[i];
        r := LoadEdge(store, dir, d);
        assert EdgeBelow(store, pkg.deps, d);
        return r, checked;
      }
      i := i + 1;
    }
    checked' := checked;
    i := 0;
    while i < |pkg.deps|
      invariant 0 <= i <= |pkg.deps|
      invariant checked <= checked'
      invariant CheckedFree(store, checked, name) ==> CheckedFree(store, checked', name)
      invariant DepHashes(pkg.deps[..i]) <= checked'
      invariant DepHashes(pkg.deps) <= checked ==> checked' == checked
    {
      var stop;
      DepHashesPrefixStep(pkg.deps, i);
      stop, r, checked' := ResolveEdge(store, dir, pkg.deps, pkg.deps[i], name, checked', rank, bound);
      if stop {
        return;
      }
      i := i + 1;
    }
    assert pkg.deps[..i] == pkg.deps;
    r := Err(UnrecognizedName);
    if CheckedFree(store, checked, name) {
      FreeFromChecked(store, pkg.deps, name, checked');
    }
  }

  /** One turn of `resolveDepName`'s second loop, for the edge `d` of the
      list `deps`: a checked hash is passed over; otherwise the edge is
      loaded and searched. `stop` says the search ends with `r`. */
  method ResolveEdge(store: Store, dir: string, deps: seq<Dependency>, d: Dependency, name: string,
                     checked: set<Hash>, ghost rank: map<Hash, nat>, ghost bound: nat)
    returns (stop: bool, r: Result<Package>, checked': set<Hash>)
    requires d in deps && Ranked(store, rank)
    requires d.hash in store ==> RankOf(rank, d.hash) < bound
    ensures checked <= checked'
    ensures CheckedFree(store, checked, name) ==> CheckedFree(store, checked', name)
    ensures d.hash in checked ==> !stop && checked' == checked
    ensures !stop ==> d.hash in checked'
    ensures stop && r.Ok? ==> FoundBelow(store, dir, deps, name, r.value)
    ensures stop && r.Err? ==> r.error != UnrecognizedName && FailedBelow(store, dir, deps, r.error)
    decreases bound, 0
  {
    if d.hash in checked {
      return false, Err(UnrecognizedName), checked;
    }
    var ld := LoadEdge(store, dir, d);
    if ld.Err? {
      assert EdgeBelow(store, deps, d);
      return true, ld, checked;
    }
    var dpkg := ld.value;
    var c := d.hash;
    assert c in DepHashes(deps) by {
      var i :| 0 <= i < |deps| && deps[i] == d;
    }
    r, checked' := ResolveDepName(store, dir, dpkg, name, checked, rank, rank[c]);
    if r.Ok? {
      FoundLift(store, dir, deps, c, name, r.value);
      return true, r, checked';
    }
    if r.error != UnrecognizedName {
      FailedLift(store, dir, deps, c, r.error);
      return true, r, checked';
    }
    checked' := checked' + {c};
    stop := false;
  }

  /** Unmarked-name facts of the edges of `deps`, all of whose hashes are
      checked, give the name's absence below `deps`. */
  lemma FreeFromChecked(store: Store, deps: seq<Dependency>, name: string, checked: set<Hash>)
    requires forall j :: 0 <= j < |deps| ==> deps[j].name != name
    requires DepHashes(deps) <= checked && CheckedFree(store, checked, name)
    ensures NameFree(store, deps, name)
  {
    var R := DepHashes(deps);
    forall h | h in Reachable(store, R) && h in store
      ensures forall i :: 0 <= i < |store[h].deps| ==> store[h].deps[i].name != name
    {
      if h in R {
        assert h in checked;
        assert NameFree(store, store[h].deps, name);
      } else {
        ReachableSplit(store, R, h);
        var c :| c in R && c in store && h in Reachable(store, DepHashes(store[c].deps));
        assert c in checked;
        assert NameFree(store, store[c].deps, name);
      }
    }
  }

  /** An edge below a reachable stored child is an edge below the parent's list. */
  lemma BelowLift(store: Store, deps: seq<Dependency>, c: Hash, d: Dependency)
    requires c in DepHashes(deps) && c in store
    requires EdgeBelow(store, store[c].deps, d)
    ensures EdgeBelow(store, deps, d)
  {
    var R := DepHashes(deps);
    ReachableClosed(store, R);
    ReachableFromChild(store, R, c);
    if d in store[c].deps {
      assert EdgeUnder(store, deps, c, d);
    } else {
      var h :| EdgeUnder(store, store[c].deps, h, d);
      assert EdgeUnder(store, deps, h, d);
    }
  }

  lemma FoundLift(store: Store, dir: string, deps: seq<Dependency>, c: Hash, name: string, p: Package)
    requires c in DepHashes(deps) && c in store
    requires FoundBelow(store, dir, store[c].deps, name, p)
    ensures FoundBelow(store, dir, deps, name, p)
  {
    var d :| EdgeBelow(store, store[c].deps, d) && d.name == name && LoadEdge(store, dir, d) == Ok(p);
    BelowLift(store, deps, c, d);
  }

  lemma FailedLift(store: Store, dir: string, deps: seq<Dependency>, c: Hash, e: Error)
    requires c in DepHashes(deps) && c in store
    requires FailedBelow(store, dir, store[c].deps, e)
    ensures FailedBelow(store, dir, deps, e)
  {
    var d :| EdgeBelow(store, store[c].deps, d) && LoadEdge(store, dir, d) == Err(e);
    BelowLift(store, deps, c, d);
  }

  /** A package loaded through an edge called `name` below `deps` shows
      that the name is not absent below them. */
  lemma FoundNotFree(store: Store, dir: string, deps: seq<Dependency>, name: string, p: Package)
    requires FoundBelow(store, dir, deps, name, p)
    ensures !NameFree(store, deps, name)
  {
    var d :| EdgeBelow(store, deps, d) && d.name == name && LoadEdge(store, dir, d) == Ok(p);
    if d in deps {
      var i :| 0 <= i < |deps| && deps[i] == d;
    } else {
      var h :| EdgeUnder(store, deps, h, d);
      var i :| 0 <= i < |store[h].deps| && store[h].deps[i] == d;
    }
  }

  /** `resolveDepName` as `LocalPackageByName` starts it, with nothing
      checked: the package found is loaded through an edge of that name
      below `pkg`, a direct edge of that name is preferred, and the result
      is `UnrecognizedName` exactly when no edge below `pkg` has the name
      and every load succeeded, while any other error is the failed load of
      an edge below `pkg`. */
  method ResolveFromRoot(store: Store, dir: string, pkg: Package, name: string, ghost rank: map<Hash, nat>)
    returns (r: Result<Package>)
    requires Ranked(store, rank)
    ensures FirstNamed(pkg.deps, name).Some? ==> r == LoadEdge(store, dir, pkg.deps[FirstNamed(pkg.deps, name).value])
    ensures r.Ok? ==> FoundBelow(store, dir, pkg.deps, name, r.value)
    ensures r == Err(UnrecognizedName) ==> NameFree(store, pkg.deps, name)
    ensures NameFree(store, pkg.deps, name) ==> r.Err?
    ensures NameFree(store, pkg.deps, name) && LoadsBelow(store, dir, pkg.deps) ==> r == Err(UnrecognizedName)
    ensures r.Err? && r.error != UnrecognizedName ==> FailedBelow(store, dir, pkg.deps, r.error)
  {
    var checked;
    r, checked := ResolveDepName(store, dir, pkg, name, {}, rank, RankBound(rank, pkg.deps));
    if r.Ok? {
      FoundNotFree(store, dir, pkg.deps, name, r.value);
    }
  }

  /** `IsHash`: a base58 multihash of the default kind, recognised by its
      `Qm` prefix and its length of 46. */
  function IsHash(s: string): (r: bool)
    ensures r <==> |s| == 46 && s[0] == 'Q' && s[1] == 'm'
  {
    HasPrefix(s, "Qm") && |s| == 46
  }

  /** `githubRawPath`: the first `github.com` of a repo path becomes
      `raw.githubusercontent.com`, and the `master` branch is appended. */
  function GithubRawPath(repo: string): string {
    ReplaceFirst(repo, "github.com", "raw.githubusercontent.com") + "/master"
  }

  /** A `github.com/...` repo path maps to the same path on the raw host. */
  lemma GithubRawPathOfGithub(repo: string)
    requires HasPrefix(repo, "github.com")
    ensures GithubRawPath(repo) == "raw.githubusercontent.com" + repo[10..] + "/master"
  {
    ReplaceFirstAt(repo, "github.com", "raw.githubusercontent.com", 0);
  }

  /** A repo path without `github.com` only gets the branch appended. */
  lemma GithubRawPathElsewhere(repo: string)
    requires forall j: nat :: !OccursAt(repo, "github.com", j)
    ensures GithubRawPath(repo) == repo + "/master"
  {
    ReplaceFirstAbsent(repo, "github.com", "raw.githubusercontent.com");
  }
}
