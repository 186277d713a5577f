/** The consistency checker of check.go: walk every package reachable from
    the root, index the hashes met by package name, report each name that
    is met under more than one hash, and compare the root's direct edges
    with the packages they point at. Versions are positions in an abstract
    total order: `parse` gives the position of a version string that
    parses as semver; one that does not stands for the zero version,
    position 0. */
module Check {
  import opened Common
  import opened PkgFile
  import opened Graph
  import opened Strings
  import opened Sorting

  /** The version position `check` records for a version string. */
  function VersionOf(parse: string -> Option<nat>, v: string): nat {
    match parse(v)
    case Some(x) => x
    case None => 0
  }

  /** What `check` knows about one hash of a name: who imported it, in
      the order they did, and its version. */
  datatype Import = Import(parents: seq<string>, version: nat)

  /** `packages`: name, then hash, then the import record. */
  type Index = map<string, map<Hash, Import>>

  /** Every hash the index holds. */
  ghost function Seen(idx: Index): set<Hash> {
    set n, h | n in idx && h in idx[n] :: h
  }

  /** One callback of the traversal: the importing package's name and the
      hash its edge points at. */
  datatype Visit = Visit(parent: string, hash: Hash)

  /** The importers of `h`, in visit order. */
  function Parents(visits: seq<Visit>, h: Hash): seq<string> {
    if visits == [] then []
    else
      var n := |visits| - 1;
      Parents(visits[..n], h) + (if visits[n].hash == h then [visits[n].parent] else [])
  }

  lemma ParentsSnoc(visits: seq<Visit>, v: Visit, h: Hash)
    ensures Parents(visits + [v], h) == Parents(visits, h) + (if v.hash == h then [v.parent] else [])
  {
    assert (visits + [v])[..|visits|] == visits;
  }

  /** Every name holds a hash; every hash is a stored package filed under
      its own name with its own version. */
  ghost predicate Keyed(store: Store, parse: string -> Option<nat>, idx: Index) {
    && (forall n {:trigger idx[n]} :: n in idx ==> |idx[n]| >= 1)
    && (forall n, h {:trigger idx[n][h]} :: n in idx && h in idx[n] ==>
          h in store && store[h].name == n && idx[n][h].version == VersionOf(parse, store[h].version))
  }

  /** The importers recorded for each hash are exactly the visits to it. */
  ghost predicate Logged(idx: Index, visits: seq<Visit>) {
    && (forall n, h {:trigger idx[n][h]} :: n in idx && h in idx[n] ==> idx[n][h].parents == Parents(visits, h))
    && (forall h {:trigger Parents(visits, h)} :: h !in Seen(idx) ==> Parents(visits, h) == [])
  }

  ghost predicate TravInv(store: Store, parse: string -> Option<nat>, idx: Index, visits: seq<Visit>) {
    Keyed(store, parse, idx) && Logged(idx, visits)
  }

  /** A stored hash is in the index exactly when it is under its name. */
  lemma SeenByName(store: Store, parse: string -> Option<nat>, idx: Index, h: Hash)
    requires Keyed(store, parse, idx) && h in store
    ensures h in Seen(idx) <==> store[h].name in idx && h in idx[store[h].name]
  {
    if h in Seen(idx) {
      var n :| n in idx && h in idx[n];
      assert idx[n][h].version == VersionOf(parse, store[h].version);
    }
  }

  /** The index entry a first sighting of `h` from `parent` creates. */
  function AddNew(store: Store, parse: string -> Option<nat>, idx: Index, parent: string, h: Hash): Index
    requires h in store
  {
    var n := store[h].name;
    var versions := if n in idx then idx[n] else map[];
    idx[n := versions[h := Import([parent], VersionOf(parse, store[h].version))]]
  }

  /** The index after a repeat sighting of `h` from `parent`. */
  function AddParent(idx: Index, n: string, parent: string, h: Hash): Index
    requires n in idx && h in idx[n]
  {
    idx[n := idx[n][h := idx[n][h].(parents := idx[n][h].parents + [parent])]]
  }

  lemma SeenAddNew(store: Store, parse: string -> Option<nat>, idx: Index, parent: string, h: Hash)
    requires h in store
    ensures Seen(AddNew(store, parse, idx, parent, h)) == Seen(idx) + {h}
  {
    var idx' := AddNew(store, parse, idx, parent, h);
    var n := store[h].name;
    forall x | x in Seen(idx') ensures x in Seen(idx) + {h} {
      var m :| m in idx' && x in idx'[m];
      if m != n || x != h {
        assert m in idx && x in idx[m];
      }
    }
    forall x | x in Seen(idx) ensures x in Seen(idx') {
      var m :| m in idx && x in idx[m];
      assert x in idx'[m];
    }
    assert h in idx'[n];
  }

  lemma SeenAddParent(idx: Index, n: string, parent: string, h: Hash)
    requires n in idx && h in idx[n]
    ensures Seen(AddParent(idx, n, parent, h)) == Seen(idx)
  {
    var idx' := AddParent(idx, n, parent, h);
    forall x | x in Seen(idx') ensures x in Seen(idx) {
      var m :| m in idx' && x in idx'[m];
      assert x in idx[m];
    }
    forall x | x in Seen(idx) ensures x in Seen(idx') {
      var m :| m in idx && x in idx[m];
      assert x in idx'[m];
    }
  }

  /** A first sighting files a stored package under its own name. */
  lemma KeyedAddNew(store: Store, parse: string -> Option<nat>, idx: Index, parent: string, h: Hash)
    requires Keyed(store, parse, idx) && h in store
    ensures Keyed(store, parse, AddNew(store, parse, idx, parent, h))
  {
    var n := store[h].name;
    var versions := if n in idx then idx[n] else map[];
    var vs' := versions[h := Import([parent], VersionOf(parse, store[h].version))];
    var idx': Index := idx[n := vs'];
    assert idx' == AddNew(store, parse, idx, parent, h);
    KeyedUpdate(store, parse, idx, n, vs');
  }

  /** Replacing the versions recorded under one name keeps the index
      keyed, when the new versions are keyed under that name. */
  lemma KeyedUpdate(store: Store, parse: string -> Option<nat>, idx: Index, n: string, vs': map<Hash, Import>)
    requires Keyed(store, parse, idx) && |vs'| >= 1
    requires forall x :: x in vs' ==> x in store && store[x].name == n && vs'[x].version == VersionOf(parse, store[x].version)
    ensures Keyed(store, parse, idx[n := vs'])
  {
    var idx': Index := idx[n := vs'];
    forall m | m in idx' ensures |idx'[m]| >= 1 {
      if m != n {
        assert idx'[m] == idx[m];
      }
    }
    forall m, x | m in idx' && x in idx'[m]
      ensures x in store && store[x].name == m && idx'[m][x].version == VersionOf(parse, store[x].version)
    {
      if m != n {
        assert idx'[m][x] == idx[m][x];
      }
    }
  }

  /** A first sighting keeps the invariant. */
  lemma RecordNew(store: Store, parse: string -> Option<nat>, idx: Index, visits: seq<Visit>, parent: string, h: Hash)
    requires TravInv(store, parse, idx, visits) && h in store && h !in Seen(idx)
    ensures TravInv(store, parse, AddNew(store, parse, idx, parent, h), visits + [Visit(parent, h)])
  {
    var idx': Index := AddNew(store, parse, idx, parent, h);
    var vs' := visits + [Visit(parent, h)];
    SeenAddNew(store, parse, idx, parent, h);
    KeyedAddNew(store, parse, idx, parent, h);
    forall n, x | n in idx' && x in idx'[n] ensures idx'[n][x].parents == Parents(vs', x) {
      ParentsSnoc(visits, Visit(parent, h), x);
      if x == h {
        assert Parents(visits, h) == [];
      } else {
        assert idx'[n][x] == idx[n][x];
      }
    }
    forall x | x !in Seen(idx') ensures Parents(vs', x) == [] {
      ParentsSnoc(visits, Visit(parent, h), x);
    }
  }

  /** A repeat sighting changes no name, hash or version. */
  lemma KeyedAddParent(store: Store, parse: string -> Option<nat>, idx: Index, n: string, parent: string, h: Hash)
    requires Keyed(store, parse, idx) && n in idx && h in idx[n]
    ensures Keyed(store, parse, AddParent(idx, n, parent, h))
  {
    var vs' := idx[n][h := idx[n][h].(parents := idx[n][h].parents + [parent])];
    assert h in vs';
    forall x | x in vs'
      ensures x in store && store[x].name == n && vs'[x].version == VersionOf(parse, store[x].version)
    {
      assert vs'[x].version == idx[n][x].version;
    }
    KeyedUpdate(store, parse, idx, n, vs');
  }

  /** A repeat sighting keeps the invariant. */
  lemma RecordRepeat(store: Store, parse: string -> Option<nat>, idx: Index, visits: seq<Visit>, parent: string, h: Hash)
    requires TravInv(store, parse, idx, visits) && h in store
    requires store[h].name in idx && h in idx[store[h].name]
    ensures TravInv(store, parse, AddParent(idx, store[h].name, parent, h), visits + [Visit(parent, h)])
  {
    var n := store[h].name;
    var idx': Index := AddParent(idx, n, parent, h);
    var vs' := visits + [Visit(parent, h)];
    SeenAddParent(idx, n, parent, h);
    KeyedAddParent(store, parse, idx, n, parent, h);
    forall m, x | m in idx' && x in idx'[m] ensures idx'[m][x].parents == Parents(vs', x) {
      ParentsSnoc(visits, Visit(parent, h), x);
      if m == n && x == h {
      } else {
        assert idx'[m][x] == idx[m][x];
      }
    }
    forall x | x !in Seen(idx') ensures Parents(vs', x) == [] {
      ParentsSnoc(visits, Visit(parent, h), x);
      assert idx[n][h].version == VersionOf(parse, store[h].version);
    }
  }

  /** Every hash added since `S0` is a stored package whose edges all lead
      into `S`. */
  ghost predicate Expanded(store: Store, S0: set<Hash>, S: set<Hash>) {
    && (forall h {:trigger h in S - S0} :: h in S - S0 ==> h in store)
    && (forall h, i :: h in S - S0 && h in store && 0 <= i < |store[h].deps| ==> store[h].deps[i].hash in S)
  }

  /** The visits of the callbacks over the edges `deps` of `parent`. */
  function EdgeVisits(parent: string, deps: seq<Dependency>): (v: seq<Visit>)
    ensures |v| == |deps| && forall k :: 0 <= k < |deps| ==> v[k] == Visit(parent, deps[k].hash)
  {
    if deps == [] then [] else [Visit(parent, deps[0].hash)] + EdgeVisits(parent, deps[1..])
  }

  /** The visits of walking each of the stored packages `loaded` once. */
  ghost function LoadedVisits(store: Store, loaded: seq<Hash>): seq<Visit> {
    if loaded == [] then []
    else (if loaded[0] in store then EdgeVisits(store[loaded[0]].name, store[loaded[0]].deps) else [])
         + LoadedVisits(store, loaded[1..])
  }

  lemma {:induction false} LoadedVisitsAppend(store: Store, a: seq<Hash>, b: seq<Hash>)
    ensures LoadedVisits(store, a + b) == LoadedVisits(store, a) + LoadedVisits(store, b)
    decreases |a|
  {
    if a != [] {
      var head := if a[0] in store then EdgeVisits(store[a[0]].name, store[a[0]].deps) else [];
      assert (a + b)[0] == a[0];
      assert (a + b)[1..] == a[1..] + b;
      LoadedVisitsAppend(store, a[1..], b);
      assert LoadedVisits(store, a + b) == head + LoadedVisits(store, a[1..] + b);
      assert LoadedVisits(store, a) == head + LoadedVisits(store, a[1..]);
    } else {
      assert a + b == b;
    }
  }


  /** Part of a walk that began with the hashes `S0` in the index: the
      index invariant holds, every hash added is reachable from `roots`,
      and the hashes added are the packages walked, `loaded`, each once. */
  ghost predicate Grown(store: Store, parse: string -> Option<nat>, roots: set<Hash>, S0: set<Hash>, idx: Index,
                        visits: seq<Visit>, loaded: seq<Hash>) {
    && TravInv(store, parse, idx, visits)
    && S0 <= Seen(idx) && Seen(idx) - S0 <= Reachable(store, roots)
    && Distinct(loaded) && Elems(loaded) == Seen(idx) - S0
  }

  /** Moreover the edges `deps` of the package called `name` have all been
      followed, every package added is expanded, and the callbacks since
      the log was `v0` are one per edge of `deps` and of each package
      walked. */
  ghost predicate Walked(store: Store, parse: string -> Option<nat>, name: string, roots: set<Hash>,
                         deps: seq<Dependency>, S0: set<Hash>, v0: seq<Visit>, idx: Index, visits: seq<Visit>,
                         loaded: seq<Hash>) {
    && Grown(store, parse, roots, S0, idx, visits, loaded)
    && DepHashes(deps) <= Seen(idx)
    && Expanded(store, S0, Seen(idx))
    && multiset(visits) == multiset(v0) + multiset(EdgeVisits(name, deps)) + multiset(LoadedVisits(store, loaded))
  }

  /** `traverse`: `ForEachDep` over `pkg`'s edges with the indexing
      callback. An edge whose package does not load ends the walk with
      "not found"; a hash first met is filed under its package's name with
      `pkg`'s name as its first importer and is walked in turn, and a hash
      met again only gains `pkg`'s name as an importer. `U` bounds the
      hashes the walk can meet (it makes termination explicit); `visits`
      logs the callbacks, `loaded` the packages walked, in order. On
      success every edge of `pkg` and of each package walked gives exactly
      one callback. */
  method Traverse(store: Store, parse: string -> Option<nat>, pkg: Package, idx: Index, ghost visits: seq<Visit>,
                  ghost U: set<Hash>)
    returns (idx': Index, ghost visits': seq<Visit>, err: Option<Error>, ghost loaded: seq<Hash>, ghost bad: Dependency)
    requires TravInv(store, parse, idx, visits)
    requires DepHashes(pkg.deps) <= U && StoreEdges(store) <= U
    ensures Grown(store, parse, DepHashes(pkg.deps), Seen(idx), idx', visits', loaded)
    ensures err.None? ==> Walked(store, parse, pkg.name, DepHashes(pkg.deps), pkg.deps, Seen(idx), visits, idx', visits', loaded)
    ensures err.Some? ==>
      bad.hash in Reachable(store, DepHashes(pkg.deps)) && bad.hash !in store && err == Some(NotFound(bad))
    decreases |U - Seen(idx)|, 3
  {
    idx', visits', err, loaded := idx, visits, None, [];
    bad := Dependency("", "", "", "");
    WalkStart(store, parse, pkg, idx, visits);
    var i := 0;
    while i < |pkg.deps|
      invariant 0 <= i <= |pkg.deps| && err.None?
      invariant Walked(store, parse, pkg.name, DepHashes(pkg.deps), pkg.deps[..i], Seen(idx), visits, idx', visits', loaded)
    {
      CardLe(U - Seen(idx'), U - Seen(idx));
      idx', visits', err, loaded, bad := TraverseTurn(store, parse, pkg, i, Seen(idx), visits, idx', visits', loaded, U);
      if err.Some? {
        return;
      }
      i := i + 1;
    }
    assert pkg.deps[..i] == pkg.deps;
  }

  /** Nothing is walked yet. */
  lemma WalkStart(store: Store, parse: string -> Option<nat>, pkg: Package, idx: Index, visits: seq<Visit>)
    requires TravInv(store, parse, idx, visits)
    ensures Walked(store, parse, pkg.name, DepHashes(pkg.deps), pkg.deps[..0], Seen(idx), visits, idx, visits, [])
  {
    assert pkg.deps[..0] == [];
    assert DepHashes(pkg.deps[..0]) == {};
    assert Elems([]) == {};
  }

  /** One turn of the loop of `traverse`: the callback for the edge `i`. */
  method TraverseTurn(store: Store, parse: string -> Option<nat>, pkg: Package, i: nat, ghost S0: set<Hash>,
                      ghost v0: seq<Visit>, idx: Index, ghost visits: seq<Visit>, ghost loaded: seq<Hash>,
                      ghost U: set<Hash>)
    returns (idx': Index, ghost visits': seq<Visit>, err: Option<Error>, ghost loaded': seq<Hash>, ghost bad: Dependency)
    requires i < |pkg.deps| && DepHashes(pkg.deps) <= U && StoreEdges(store) <= U
    requires Walked(store, parse, pkg.name, DepHashes(pkg.deps), pkg.deps[..i], S0, v0, idx, visits, loaded)
    ensures Grown(store, parse, DepHashes(pkg.deps), S0, idx', visits', loaded')
    ensures err.None? ==>
      Walked(store, parse, pkg.name, DepHashes(pkg.deps), pkg.deps[..i + 1], S0, v0, idx', visits', loaded')
    ensures err.Some? ==>
      bad.hash in Reachable(store, DepHashes(pkg.deps)) && bad.hash !in store && err == Some(NotFound(bad))
    decreases |U - Seen(idx)|, 2
  {
    var d := pkg.deps[i];
    DepHashesPrefixStep(pkg.deps, i);
    assert d.hash in DepHashes(pkg.deps);
    if d.hash !in store {
      ReachableClosed(store, DepHashes(pkg.deps));
      return idx, visits, Some(NotFound(d)), loaded, d;
    }
    ghost var l1;
    idx', visits', err, l1, bad := CheckEdge(store, parse, pkg.name, pkg.deps, d, idx, visits, U);
    loaded' := loaded + l1;
    JoinLoads(loaded, l1, S0, Seen(idx), Seen(idx'));
    if err.None? {
      ExpandedTrans(store, S0, Seen(idx), Seen(idx'));
      TraverseStep(store, pkg, i, v0, visits, visits', loaded, l1);
    }
  }

  /** The packages walked before and during one more callback. */
  lemma JoinLoads(l0: seq<Hash>, l1: seq<Hash>, S0: set<Hash>, S1: set<Hash>, S2: set<Hash>)
    requires Distinct(l0) && Elems(l0) == S1 - S0 && Distinct(l1) && Elems(l1) == S2 - S1
    requires S0 <= S1 <= S2
    ensures Distinct(l0 + l1) && Elems(l0 + l1) == S2 - S0
  {
    DistinctAppend(l0, l1);
    assert Elems(l0 + l1) == Elems(l0) + Elems(l1);
  }

  /** Expansion carries over two successive stretches. */
  lemma ExpandedTrans(store: Store, S0: set<Hash>, S1: set<Hash>, S2: set<Hash>)
    requires S0 <= S1 <= S2 && Expanded(store, S0, S1) && Expanded(store, S1, S2)
    ensures Expanded(store, S0, S2)
  {
    forall h | h in S2 - S0 ensures h in store {
      if h in S1 {
        assert h in S1 - S0;
      } else {
        assert h in S2 - S1;
      }
    }
    forall h, i | h in S2 - S0 && h in store && 0 <= i < |store[h].deps| ensures store[h].deps[i].hash in S2 {
      if h in S1 {
        assert h in S1 - S0;
      } else {
        assert h in S2 - S1;
      }
    }
  }

  /** The visit log of the loop of `traverse` after one more edge. */
  lemma TraverseStep(store: Store, pkg: Package, i: nat, visits: seq<Visit>, v0: seq<Visit>, v1: seq<Visit>,
                     l0: seq<Hash>, l1: seq<Hash>)
    requires i < |pkg.deps|
    requires multiset(v0) ==
      multiset(visits) + multiset(EdgeVisits(pkg.name, pkg.deps[..i])) + multiset(LoadedVisits(store, l0))
    requires multiset(v1) ==
      multiset(v0) + multiset{Visit(pkg.name, pkg.deps[i].hash)} + multiset(LoadedVisits(store, l1))
    ensures multiset(v1) ==
      multiset(visits) + multiset(EdgeVisits(pkg.name, pkg.deps[..i + 1])) + multiset(LoadedVisits(store, l0 + l1))
  {
    LoadedVisitsAppend(store, l0, l1);
    EdgeVisitsSnoc(pkg.name, pkg.deps, i);
  }

  lemma EdgeVisitsSnoc(parent: string, deps: seq<Dependency>, i: nat)
    requires i < |deps|
    ensures EdgeVisits(parent, deps[..i + 1]) == EdgeVisits(parent, deps[..i]) + [Visit(parent, deps[i].hash)]
  {
    var a := EdgeVisits(parent, deps[..i + 1]);
    var b := EdgeVisits(parent, deps[..i]) + [Visit(parent, deps[i].hash)];
    assert |a| == |b|;
    forall k | 0 <= k < |a| ensures a[k] == b[k] {
      if k < i {
        assert deps[..i + 1][k] == deps[..i][k];
      }
    }
  }

  /** The callback of `traverse` for the edge `d` of the list `rootDeps`
      (of the package called `parent`), whose package loads: a hash met
      again gains an importer, a new one is filed and walked. */
  method CheckEdge(store: Store, parse: string -> Option<nat>, parent: string, rootDeps: seq<Dependency>,
                   d: Dependency, idx: Index, ghost visits: seq<Visit>, ghost U: set<Hash>)
    returns (idx': Index, ghost visits': seq<Visit>, err: Option<Error>, ghost loaded: seq<Hash>, ghost bad: Dependency)
    requires d in rootDeps && d.hash in store && DepHashes(rootDeps) <= U && StoreEdges(store) <= U
    requires TravInv(store, parse, idx, visits)
    ensures TravInv(store, parse, idx', visits')
    ensures Seen(idx) <= Seen(idx') && Seen(idx') - Seen(idx) <= Reachable(store, DepHashes(rootDeps))
    ensures Distinct(loaded) && Elems(loaded) == Seen(idx') - Seen(idx)
    ensures err.None? ==> d.hash in Seen(idx') && Expanded(store, Seen(idx), Seen(idx'))
    ensures err.None? ==>
      multiset(visits') == multiset(visits) + multiset{Visit(parent, d.hash)} + multiset(LoadedVisits(store, loaded))
    ensures err.Some? ==>
      bad.hash in Reachable(store, DepHashes(rootDeps)) && bad.hash !in store && err == Some(NotFound(bad))
    decreases |U - Seen(idx)|, 1
  {
    var n := store[d.hash].name;
    var versions := if n in idx then idx[n] else map[];
    SeenByName(store, parse, idx, d.hash);
    if d.hash in versions {
      idx' := idx[n := versions[d.hash := versions[d.hash].(parents := versions[d.hash].parents + [parent])]];
      assert idx' == AddParent(idx, n, parent, d.hash);
      RecordRepeat(store, parse, idx, visits, parent, d.hash);
      SeenAddParent(idx, n, parent, d.hash);
      return idx', visits + [Visit(parent, d.hash)], None, [], d;
    }
    idx', visits', err, loaded, bad := CheckNew(store, parse, parent, rootDeps, d, idx, visits, U);
  }

  /** The callback of `traverse` for an edge `d` whose hash the index does
      not hold: file it, then walk its package. */
  method CheckNew(store: Store, parse: string -> Option<nat>, parent: string, rootDeps: seq<Dependency>,
                  d: Dependency, idx: Index, ghost visits: seq<Visit>, ghost U: set<Hash>)
    returns (idx': Index, ghost visits': seq<Visit>, err: Option<Error>, ghost loaded: seq<Hash>, ghost bad: Dependency)
    requires d in rootDeps && d.hash in store && d.hash !in Seen(idx) && DepHashes(rootDeps) <= U && StoreEdges(store) <= U
    requires TravInv(store, parse, idx, visits)
    ensures TravInv(store, parse, idx', visits')
    ensures Seen(idx) <= Seen(idx') && Seen(idx') - Seen(idx) <= Reachable(store, DepHashes(rootDeps))
    ensures Distinct(loaded) && Elems(loaded) == Seen(idx') - Seen(idx)
    ensures err.None? ==> d.hash in Seen(idx') && Expanded(store, Seen(idx), Seen(idx'))
    ensures err.None? ==>
      multiset(visits') == multiset(visits) + multiset{Visit(parent, d.hash)} + multiset(LoadedVisits(store, loaded))
    ensures err.Some? ==>
      bad.hash in Reachable(store, DepHashes(rootDeps)) && bad.hash !in store && err == Some(NotFound(bad))
    decreases |U - Seen(idx)|, 0
  {
    var dpkg := store[d.hash];
    idx' := AddNew(store, parse, idx, parent, d.hash);
    ghost var v1 := visits + [Visit(parent, d.hash)];
    NewEntry(store, parse, rootDeps, d, idx, visits, parent, U);
    ghost var S1 := Seen(idx');
    ghost var l1;
    idx', visits', err, l1, bad := Traverse(store, parse, dpkg, idx', v1, U);
    loaded := [d.hash] + l1;
    NewPost(store, rootDeps, d, Seen(idx), S1, Seen(idx'), l1);
    if err.None? {
      ExpandedNew(store, Seen(idx), d.hash, S1, Seen(idx'));
      VisitsNew(store, visits, Visit(parent, d.hash), visits', d.hash, l1);
    }
  }

  /** The visit log after a first sighting of `h` and the walk of its
      package. */
  lemma VisitsNew(store: Store, visits: seq<Visit>, v: Visit, visits': seq<Visit>, h: Hash, l1: seq<Hash>)
    requires h in store
    requires multiset(visits') ==
      multiset(visits + [v]) + multiset(EdgeVisits(store[h].name, store[h].deps)) + multiset(LoadedVisits(store, l1))
    ensures multiset(visits') == multiset(visits) + multiset{v} + multiset(LoadedVisits(store, [h] + l1))
  {
    assert ([h] + l1)[0] == h && ([h] + l1)[1..] == l1;
    assert LoadedVisits(store, [h] + l1) == EdgeVisits(store[h].name, store[h].deps) + LoadedVisits(store, l1);
  }

  /** The first sighting of `d` keeps the traversal invariant, adds its
      hash to the index, and leaves strictly less of `U` to discover. */
  lemma NewEntry(store: Store, parse: string -> Option<nat>, rootDeps: seq<Dependency>, d: Dependency,
                 idx: Index, visits: seq<Visit>, parent: string, U: set<Hash>)
    requires d in rootDeps && d.hash in store && d.hash !in Seen(idx) && DepHashes(rootDeps) <= U && StoreEdges(store) <= U
    requires TravInv(store, parse, idx, visits)
    ensures TravInv(store, parse, AddNew(store, parse, idx, parent, d.hash), visits + [Visit(parent, d.hash)])
    ensures Seen(AddNew(store, parse, idx, parent, d.hash)) == Seen(idx) + {d.hash}
    ensures DepHashes(store[d.hash].deps) <= U
    ensures |U - Seen(AddNew(store, parse, idx, parent, d.hash))| < |U - Seen(idx)|
  {
    RecordNew(store, parse, idx, visits, parent, d.hash);
    SeenAddNew(store, parse, idx, parent, d.hash);
    StoreDepsInEdges(store, d.hash);
    assert d.hash in DepHashes(rootDeps) by {
      var i :| 0 <= i < |rootDeps| && rootDeps[i] == d;
    }
    CardShrinks(U, Seen(idx), Seen(AddNew(store, parse, idx, parent, d.hash)), d.hash);
  }

  lemma NewPost(store: Store, rootDeps: seq<Dependency>, d: Dependency, S: set<Hash>, S1: set<Hash>, S2: set<Hash>,
                l1: seq<Hash>)
    requires d in rootDeps && d.hash in store && d.hash !in S && S1 == S + {d.hash} && S1 <= S2
    requires S2 - S1 <= Reachable(store, DepHashes(store[d.hash].deps))
    requires Distinct(l1) && Elems(l1) == S2 - S1
    ensures Reachable(store, DepHashes(store[d.hash].deps)) <= Reachable(store, DepHashes(rootDeps))
    ensures S2 - S <= Reachable(store, DepHashes(rootDeps))
    ensures Distinct([d.hash] + l1) && Elems([d.hash] + l1) == S2 - S
  {
    assert d.hash in DepHashes(rootDeps) by {
      var i :| 0 <= i < |rootDeps| && rootDeps[i] == d;
    }
    ReachableClosed(store, DepHashes(rootDeps));
    ReachableFromChild(store, DepHashes(rootDeps), d.hash);
    DistinctAppend([d.hash], l1);
    assert Elems([d.hash] + l1) == {d.hash} + Elems(l1);
  }

  /** After a successful walk below the new hash `c`, every hash added is
      expanded. */
  lemma ExpandedNew(store: Store, S: set<Hash>, c: Hash, S1: set<Hash>, S2: set<Hash>)
    requires Expanded(store, S1, S2) && S1 == S + {c} && S1 <= S2
    requires c in store && DepHashes(store[c].deps) <= S2
    ensures Expanded(store, S, S2)
  {
    forall h | h in S2 - S ensures h in store {
      if h != c {
        assert h in S2 - S1;
      }
    }
    forall h, i | h in S2 - S && h in store && 0 <= i < |store[h].deps| ensures store[h].deps[i].hash in S2 {
      if h == c {
        assert store[h].deps[i].hash in DepHashes(store[c].deps);
      } else {
        assert h in S2 - S1;
      }
    }
  }

  /** A name's importers count the visits to the hash: `p` is among the
      importers of `h` as many times as a package called `p` reached `h`. */
  lemma {:induction false} ParentsCount(visits: seq<Visit>, h: Hash, p: string)
    ensures multiset(Parents(visits, h))[p] == multiset(visits)[Visit(p, h)]
  {
    if visits != [] {
      var n := |visits| - 1;
      ParentsCount(visits[..n], h, p);
      assert visits == visits[..n] + [visits[n]];
    }
  }

  /** The stored hashes of `S` whose package is called `n`. */
  ghost function NameHashes(store: Store, S: set<Hash>, n: string): set<Hash> {
    set h | h in S && h in store && store[h].name == n
  }

  /** The hashes the index files under a name are the seen hashes of that
      name. */
  lemma IndexByName(store: Store, parse: string -> Option<nat>, idx: Index, n: string)
    requires Keyed(store, parse, idx)
    ensures n in idx ==> idx[n].Keys == NameHashes(store, Seen(idx), n)
    ensures n !in idx ==> NameHashes(store, Seen(idx), n) == {}
  {
    forall h | h in NameHashes(store, Seen(idx), n) ensures n in idx && h in idx[n] {
      SeenByName(store, parse, idx, h);
    }
  }

  /** The names of the index that are filed under two or more hashes. */
  ghost function DupSet(idx: Index): set<string> {
    set n | n in idx && |idx[n]| >= 2
  }

  /** The version the index records for `h` among one name's hashes. */
  function VersionIn(vs: map<Hash, Import>, h: Hash): nat {
    if h in vs then vs[h].version else 0
  }

  /** The order of the report's hashes: by version, then by hash. */
  predicate ImportLess(vs: map<Hash, Import>, a: Hash, b: Hash) {
    VersionIn(vs, a) < VersionIn(vs, b) || (VersionIn(vs, a) == VersionIn(vs, b) && StrLess(a, b))
  }

  /** The comparison of the `sort.Slice` call over one name's hashes. */
  function ByVersion(vs: map<Hash, Import>): (Hash, Hash) -> bool {
    (a: Hash, b: Hash) => ImportLess(vs, a, b)
  }

  lemma ByVersionStrictTotal(vs: map<Hash, Import>)
    ensures StrictTotal(ByVersion(vs))
  {
    var less := ByVersion(vs);
    forall x ensures !less(x, x) {
      StrLessIrreflexive(x);
    }
    forall x, y, z | less(x, y) && less(y, z) ensures less(x, z) {
      if VersionIn(vs, x) == VersionIn(vs, y) == VersionIn(vs, z) {
        StrLessTransitive(x, y, z);
      }
    }
    forall x, y | x != y ensures less(x, y) || less(y, x) {
      StrLessConnected(x, y);
    }
  }

  /** A list without repeats holds each element at most once. */
  lemma {:induction false} DistinctCount(s: seq<Hash>, x: Hash)
    requires Distinct(s)
    ensures multiset(s)[x] <= 1
  {
    if s != [] {
      var n := |s| - 1;
      assert Distinct(s[..n]) by {
        forall i: nat, j: nat | i < j < n ensures Nth(s[..n], i) != Nth(s[..n], j) {
          assert Nth(s, i) != Nth(s, j);
        }
      }
      DistinctCount(s[..n], x);
      assert s == s[..n] + [s[n]];
      if s[n] == x {
        forall i | 0 <= i < n ensures s[..n][i] != x {
          assert Nth(s, i) != Nth(s, n);
        }
      }
    }
  }

  /** An element at two positions is counted twice. */
  lemma TwiceCounted(s: seq<Hash>, i: nat, j: nat)
    requires i < j < |s| && s[i] == s[j]
    ensures multiset(s)[s[i]] >= 2
  {
    assert s == s[..j] + [s[j]] + s[j + 1..];
    assert s[..j][i] == s[i];
  }

  /** A permutation of a list without repeats has none either, and holds
      the same elements. */
  lemma PermDistinct(a: seq<Hash>, b: seq<Hash>)
    requires Distinct(a) && multiset(a) == multiset(b)
    ensures Distinct(b) && Elems(a) == Elems(b)
  {
    forall i: nat, j: nat | i < j < |b| ensures Nth(b, i) != Nth(b, j) {
      if b[i] == b[j] {
        TwiceCounted(b, i, j);
        DistinctCount(a, b[i]);
      }
    }
    forall x | x in Elems(a) ensures x in Elems(b) {
      assert x in multiset(a);
    }
    forall x | x in Elems(b) ensures x in Elems(a) {
      assert x in multiset(b);
    }
  }

  /** A list without repeats grows by an element it does not hold. */
  lemma AppendFresh(s: seq<Hash>, x: Hash)
    requires Distinct(s) && x !in Elems(s)
    ensures Distinct(s + [x]) && Elems(s + [x]) == Elems(s) + {x}
  {
    DistinctAppend(s, [x]);
  }

  /** The names of the index with more than one hash, in the order a Go
      `range` over the map picks them (any order). The empty case cannot
      occur: every name is filed with its first hash. */
  method DupNames(idx: Index) returns (dupes: seq<string>)
    ensures Distinct(dupes) && Elems(dupes) == DupSet(idx)
  {
    dupes := [];
    var rest := idx.Keys;
    while rest != {}
      invariant rest <= idx.Keys && Distinct(dupes)
      invariant Elems(dupes) == DupSet(idx) - rest
      decreases |rest|
    {
      var n :| n in rest;
      if |idx[n]| >= 2 {
        AppendFresh(dupes, n);
        dupes := dupes + [n];
      }
      assert n in DupSet(idx) <==> |idx[n]| >= 2;
      rest := rest - {n};
    }
  }

  /** The hashes of one name, in the order a Go `range` picks them. */
  method HashesOf(vs: map<Hash, Import>) returns (hashes: seq<Hash>)
    ensures Distinct(hashes) && Elems(hashes) == vs.Keys
  {
    hashes := [];
    var rest := vs.Keys;
    while rest != {}
      invariant rest <= vs.Keys && Distinct(hashes)
      invariant Elems(hashes) == vs.Keys - rest
      decreases |rest|
    {
      var h :| h in rest;
      AppendFresh(hashes, h);
      hashes := hashes + [h];
      rest := rest - {h};
    }
  }

  /** One reported hash: its version and its importers, sorted. */
  datatype HashReport = HashReport(hash: Hash, version: nat, parents: seq<string>)

  /** One duplicated name and its hashes. */
  datatype DupeReport = DupeReport(name: string, hashes: seq<HashReport>)

  function ReportedHashes(hs: seq<HashReport>): (r: seq<Hash>)
    ensures |r| == |hs| && forall m :: 0 <= m < |hs| ==> r[m] == hs[m].hash
  {
    if hs == [] then [] else [hs[0].hash] + ReportedHashes(hs[1..])
  }

  function ReportedNames(report: seq<DupeReport>): (r: seq<string>)
    ensures |r| == |report| && forall k :: 0 <= k < |report| ==> r[k] == report[k].name
  {
    if report == [] then [] else [report[0].name] + ReportedNames(report[1..])
  }

  /** `r` reports the hash `r.hash` of `vs` with its recorded version and
      its importers in sorted order. */
  ghost predicate HashReported(vs: map<Hash, Import>, r: HashReport) {
    && r.hash in vs && r.version == vs[r.hash].version
    && Sorted(r.parents, StrLess) && multiset(r.parents) == multiset(vs[r.hash].parents)
  }

  /** `hs` reports the hashes `vs` of one name: each once, ordered by
      version and then hash. */
  ghost predicate Reports(vs: map<Hash, Import>, hs: seq<HashReport>) {
    && Distinct(ReportedHashes(hs)) && Elems(ReportedHashes(hs)) == vs.Keys
    && Sorted(ReportedHashes(hs), ByVersion(vs))
    && forall m :: 0 <= m < |hs| ==> HashReported(vs, hs[m])
  }

  /** The report for one duplicated name. */
  method ReportName(vs: map<Hash, Import>) returns (hs: seq<HashReport>)
    ensures Reports(vs, hs)
  {
    var hashes := HashesOf(vs);
    var sorted := SortBy(hashes, ByVersion(vs));
    ByVersionStrictTotal(vs);
    SortBySorted(hashes, ByVersion(vs));
    PermDistinct(hashes, sorted);
    hs := ReportEach(vs, sorted);
  }

  /** The lines for the hashes `sorted` of one name, in that order. */
  method ReportEach(vs: map<Hash, Import>, sorted: seq<Hash>) returns (hs: seq<HashReport>)
    requires Elems(sorted) <= vs.Keys
    ensures ReportedHashes(hs) == sorted
    ensures forall m :: 0 <= m < |hs| ==> HashReported(vs, hs[m])
  {
    StrLessStrictTotal();
    hs := [];
    var i := 0;
    while i < |sorted|
      invariant 0 <= i <= |sorted| && |hs| == i
      invariant forall m :: 0 <= m < i ==> hs[m].hash == sorted[m] && HashReported(vs, hs[m])
    {
      var h := sorted[i];
      assert h in Elems(sorted);
      var imp := vs[h];
      hs := hs + [HashReport(h, imp.version, SortStrings(imp.parents))];
      i := i + 1;
    }
    assert ReportedHashes(hs) == sorted;
  }

  /** The report for each duplicated name, in order. */
  method ReportDupes(idx: Index, dupes: seq<string>) returns (report: seq<DupeReport>)
    requires forall k :: 0 <= k < |dupes| ==> dupes[k] in idx
    ensures ReportedNames(report) == dupes
    ensures forall k :: 0 <= k < |report| ==> report[k].name in idx && Reports(idx[report[k].name], report[k].hashes)
  {
    report := [];
    var k := 0;
    while k < |dupes|
      invariant 0 <= k <= |dupes| && |report| == k
      invariant forall j :: 0 <= j < k ==> report[j].name == dupes[j]
      invariant forall j :: 0 <= j < k ==> report[j].name in idx && Reports(idx[report[j].name], report[j].hashes)
    {
      var hs := ReportName(idx[dupes[k]]);
      report := report + [DupeReport(dupes[k], hs)];
      k := k + 1;
    }
    assert ReportedNames(report) == dupes;
  }

  /** A message of the final pass over the root's edges. */
  datatype Mismatch =
    | NameMismatch(dep: string, found: string)
    | VersionMismatch(dep: string, want: string, found: string)

  /** What the final pass reports for the edge `d` to the package `p`:
      a differing name, then a differing version. */
  function EdgeMismatches(d: Dependency, p: Package): (r: seq<Mismatch>)
    ensures r == [] <==> d.name == p.name && d.version == p.version
    ensures NameMismatch(d.name, p.name) in r <==> d.name != p.name
    ensures VersionMismatch(d.name, d.version, p.version) in r <==> d.version != p.version
    ensures forall m :: m in r ==> m == NameMismatch(d.name, p.name) || m == VersionMismatch(d.name, d.version, p.version)
  {
    (if d.name != p.name then [NameMismatch(d.name, p.name)] else [])
      + (if d.version != p.version then [VersionMismatch(d.name, d.version, p.version)] else [])
  }

  /** Every edge leads to a stored package. */
  ghost predicate AllStored(store: Store, deps: seq<Dependency>) {
    forall i :: 0 <= i < |deps| ==> deps[i].hash in store
  }

  /** The messages of the final pass over `deps`, edge by edge. */
  function Mismatches(store: Store, deps: seq<Dependency>): seq<Mismatch>
    requires AllStored(store, deps)
  {
    if deps == [] then []
    else
      var n := |deps| - 1;
      Mismatches(store, deps[..n]) + EdgeMismatches(deps[n], store[deps[n].hash])
  }

  lemma AllStoredPrefix(store: Store, deps: seq<Dependency>, n: nat)
    requires AllStored(store, deps) && n <= |deps|
    ensures AllStored(store, deps[..n])
  {
    forall i | 0 <= i < n ensures deps[..n][i].hash in store {
      assert deps[..n][i] == deps[i];
    }
  }

  /** The messages for one more edge. */
  lemma MismatchesSnoc(store: Store, deps: seq<Dependency>, i: nat)
    requires AllStored(store, deps) && i < |deps|
    ensures AllStored(store, deps[..i]) && AllStored(store, deps[..i + 1])
    ensures Mismatches(store, deps[..i + 1]) == Mismatches(store, deps[..i]) + EdgeMismatches(deps[i], store[deps[i].hash])
  {
    AllStoredPrefix(store, deps, i);
    AllStoredPrefix(store, deps, i + 1);
    assert deps[..i + 1][..i] == deps[..i];
  }

  /** The final pass reports nothing exactly when every edge agrees in name
      and version with its package. */
  lemma {:induction false} MismatchesNone(store: Store, deps: seq<Dependency>)
    requires AllStored(store, deps)
    ensures Mismatches(store, deps) == [] <==>
      forall i :: 0 <= i < |deps| ==> deps[i].name == store[deps[i].hash].name && deps[i].version == store[deps[i].hash].version
  {
    if deps != [] {
      var n := |deps| - 1;
      var p := deps[..n];
      AllStoredPrefix(store, deps, n);
      MismatchesNone(store, p);
      var e := EdgeMismatches(deps[n], store[deps[n].hash]);
      assert Mismatches(store, deps) == Mismatches(store, p) + e;
      assert Mismatches(store, deps) == [] <==> Mismatches(store, p) == [] && e == [];
      assert forall i :: 0 <= i < n ==> deps[i] == p[i];
    }
  }

  /** Every disagreement of every edge is reported: the pass does not stop
      at the first. */
  lemma {:induction false} MismatchesComplete(store: Store, deps: seq<Dependency>, i: nat, m: Mismatch)
    requires AllStored(store, deps) && i < |deps| && m in EdgeMismatches(deps[i], store[deps[i].hash])
    ensures m in Mismatches(store, deps)
  {
    var n := |deps| - 1;
    AllStoredPrefix(store, deps, n);
    if i < n {
      assert deps[..n][i] == deps[i];
      MismatchesComplete(store, deps[..n], i, m);
    }
  }

  /** Every message reported is a disagreement of some edge. */
  lemma {:induction false} MismatchesSound(store: Store, deps: seq<Dependency>, m: Mismatch) returns (i: nat)
    requires AllStored(store, deps) && m in Mismatches(store, deps)
    ensures i < |deps| && m in EdgeMismatches(deps[i], store[deps[i].hash])
  {
    var n := |deps| - 1;
    AllStoredPrefix(store, deps, n);
    if m in Mismatches(store, deps[..n]) {
      i := MismatchesSound(store, deps[..n], m);
      assert deps[..n][i] == deps[i];
    } else {
      i := n;
    }
  }

  /** The final `ForEachDep` over the root's edges: each edge's package is
      loaded and compared with the edge; a disagreement sets `failed` and
      is reported, and the walk goes on. Every package loads, as the
      traversal loaded the same ones just before. */
  method CheckNames(store: Store, deps: seq<Dependency>, failed: bool) returns (failed': bool, ms: seq<Mismatch>)
    requires AllStored(store, deps)
    ensures ms == Mismatches(store, deps)
    ensures failed' <==> failed || ms != []
  {
    failed', ms := failed, [];
    var i := 0;
    while i < |deps|
      invariant 0 <= i <= |deps| && AllStored(store, deps[..i])
      invariant ms == Mismatches(store, deps[..i])
      invariant failed' <==> failed || ms != []
    {
      var d := deps[i];
      var dpkg := store[d.hash];
      MismatchesSnoc(store, deps, i);
      if d.name != dpkg.name {
        failed' := true;
      }
      if d.version != dpkg.version {
        failed' := true;
      }
      ms := ms + EdgeMismatches(d, dpkg);
      i := i + 1;
    }
    assert deps[..i] == deps;
  }

  /** The index after a complete walk from the root `pkg`: it files
      exactly the packages reachable from the root's edges, all stored,
      under their names and with their versions; each hash's importers are
      its visits; and the visits are one per edge of the root and of each
      reachable package, each package walked once. */
  ghost predicate Indexed(store: Store, parse: string -> Option<nat>, pkg: Package, idx: Index, visits: seq<Visit>,
                          loaded: seq<Hash>) {
    && Keyed(store, parse, idx) && Logged(idx, visits)
    && Seen(idx) == Reachable(store, DepHashes(pkg.deps)) && Seen(idx) <= store.Keys
    && AllStored(store, pkg.deps)
    && Distinct(loaded) && Elems(loaded) == Seen(idx)
    && multiset(visits) == multiset(EdgeVisits(pkg.name, pkg.deps)) + multiset(LoadedVisits(store, loaded))
  }

  /** A successful walk from an empty index covers what is reachable. */
  lemma WalkCovers(store: Store, parse: string -> Option<nat>, pkg: Package, idx: Index, visits: seq<Visit>,
                   loaded: seq<Hash>)
    requires Walked(store, parse, pkg.name, DepHashes(pkg.deps), pkg.deps, {}, [], idx, visits, loaded)
    ensures Indexed(store, parse, pkg, idx, visits, loaded)
  {
    assert Closed(store, Seen(idx)) by {
      forall h, i | h in Seen(idx) && h in store && 0 <= i < |store[h].deps| ensures store[h].deps[i].hash in Seen(idx) {
        assert h in Seen(idx) - {};
      }
    }
    ReachableLeast(store, DepHashes(pkg.deps), Seen(idx));
    forall h | h in Seen(idx) ensures h in store {
      assert h in Seen(idx) - {};
    }
    forall i | 0 <= i < |pkg.deps| ensures pkg.deps[i].hash in store {
      assert pkg.deps[i].hash in DepHashes(pkg.deps);
    }
    VisitsFromNone(multiset(visits), multiset(EdgeVisits(pkg.name, pkg.deps)), multiset(LoadedVisits(store, loaded)));
  }

  lemma VisitsFromNone(m: multiset<Visit>, a: multiset<Visit>, b: multiset<Visit>)
    requires m == multiset([]) + a + b
    ensures m == a + b
  {
    assert multiset([]) + a == a;
  }

  /** `check`: index every package reachable from `pkg`, report each name
      met under more than one hash, then compare the root's edges with
      their packages. A failed traversal gives `(true, err)`: `failed` has
      not been set yet. Otherwise the answer is true exactly when no name
      is duplicated and no edge disagrees with its package. */
  method CheckPackage(store: Store, parse: string -> Option<nat>, pkg: Package)
    returns (ok: bool, err: Option<Error>, report: seq<DupeReport>, mismatches: seq<Mismatch>,
             ghost idx: Index, ghost visits: seq<Visit>, ghost loaded: seq<Hash>, ghost bad: Dependency)
    ensures err.Some? ==>
      && ok && report == [] && mismatches == [] && err == Some(NotFound(bad))
      && bad.hash in Reachable(store, DepHashes(pkg.deps)) && bad.hash !in store
    ensures err.None? ==> Indexed(store, parse, pkg, idx, visits, loaded)
    ensures err.None? ==>
      && Sorted(ReportedNames(report), StrLess) && Distinct(ReportedNames(report))
      && Elems(ReportedNames(report)) == DupSet(idx)
      && (forall k :: 0 <= k < |report| ==> report[k].name in idx && Reports(idx[report[k].name], report[k].hashes))
    ensures err.None? ==> mismatches == Mismatches(store, pkg.deps)
    ensures err.None? ==> (ok <==> report == [] && mismatches == [])
  {
    var failed := false;
    ghost var U := DepHashes(pkg.deps) + StoreEdges(store);
    var idx0: Index := map[];
    assert Seen(idx0) == {};
    var packages, e;
    packages, visits, e, loaded, bad := Traverse(store, parse, pkg, idx0, [], U);
    idx := packages;
    if e.Some? {
      return !failed, e, [], [], idx, visits, loaded, bad;
    }
    WalkCovers(store, parse, pkg, idx, visits, loaded);
    ok, report, mismatches := Summarize(store, pkg, packages);
    err := None;
  }

  /** The two passes of `check` after a successful traversal: report the
      duplicated names, then compare the root's edges with their packages. */
  method Summarize(store: Store, pkg: Package, packages: Index)
    returns (ok: bool, report: seq<DupeReport>, mismatches: seq<Mismatch>)
    requires AllStored(store, pkg.deps)
    ensures Sorted(ReportedNames(report), StrLess) && Distinct(ReportedNames(report))
    ensures Elems(ReportedNames(report)) == DupSet(packages)
    ensures forall k :: 0 <= k < |report| ==> report[k].name in packages && Reports(packages[report[k].name], report[k].hashes)
    ensures mismatches == Mismatches(store, pkg.deps)
    ensures ok <==> report == [] && mismatches == []
  {
    var failed := false;
    var dupes := DupNames(packages);
    if |dupes| > 0 {
      failed := true;
      var sorted := SortStrings(dupes);
      StrLessStrictTotal();
      SortBySorted(dupes, StrLess);
      PermDistinct(dupes, sorted);
      forall k | 0 <= k < |sorted| ensures sorted[k] in packages {
        assert sorted[k] in Elems(sorted);
      }
      report := ReportDupes(packages, sorted);
    } else {
      report := [];
      assert Elems(ReportedNames(report)) == {};
    }
    failed, mismatches := CheckNames(store, pkg.deps, failed);
    ok := !failed;
  }
}
