/** The post-install pass of gxutil/pm.go (`dependenciesPostInstall`,
    `maybeRunPostInstall`, `pkgRanHook`, `writePkgHook`): a breadth-first
    walk over the installed dependency graph that runs each package's
    `post-install` hook once and leaves a marker file so it is never run
    again. */
module PostInstall {
  import opened Common
  import opened PkgFile
  import opened Graph
  import opened Hooks
  import opened DepQueue
  import opened BfsWalk

  /** The arguments of the post-install hook: the hash dir, then
      `--global` for a global install. */
  function PostInstallArgs(pkgdir: string, global: bool): (args: seq<string>)
    ensures |args| >= 1 && args[0] == pkgdir
    ensures global <==> args == [pkgdir, "--global"]
    ensures !global <==> args == [pkgdir]
  {
    if global then [pkgdir, "--global"] else [pkgdir]
  }

  /** A call of `TryRunHook` that `maybeRunPostInstall` made. */
  datatype HookCall = HookCall(language: string, required: bool, args: seq<string>)

  /** The post-install marker of the package stored under `h`. */
  function MarkerOf(store: Store, location: string, h: Hash): string
    requires h in store
  {
    PostInstallMarker(PkgDir(location, h), store[h])
  }

  /** The markers of the stored hashes of `vs`. */
  function MarkersOf(store: Store, location: string, vs: seq<Hash>): set<string> {
    if vs == [] then {}
    else
      var h := vs[|vs| - 1];
      MarkersOf(store, location, vs[..|vs| - 1]) + (if h in store then {MarkerOf(store, location, h)} else {})
  }

  /** The hook call `maybeRunPostInstall` makes for the package stored under `h`. */
  function CallFor(store: Store, location: string, global: bool, h: Hash): HookCall
    requires h in store
  {
    HookCall(store[h].language, store[h].subtoolRequired, PostInstallArgs(PkgDir(location, h), global))
  }

  /** The post-install hooks a pass that succeeds on each of `vs` runs, in
      order, starting from the markers `ms`: one for each stored hash
      whose marker neither existed nor was written by an earlier one. */
  function HooksFor(store: Store, location: string, global: bool, vs: seq<Hash>, ms: set<string>): (calls: seq<HookCall>)
    ensures |calls| <= |vs|
  {
    if vs == [] then []
    else
      var h, pre := vs[|vs| - 1], vs[..|vs| - 1];
      HooksFor(store, location, global, pre, ms)
        + (if h in store && MarkerOf(store, location, h) !in ms + MarkersOf(store, location, pre)
           then [CallFor(store, location, global, h)] else [])
  }

  /** What `maybeRunPostInstall` returns once it runs the hook of `pkg`:
      the hook's error, else the error writing the marker, else nothing. */
  function PostInstallOutcome(sys: System, run: Invocation -> Option<Error>, writeFails: string -> Option<Error>,
                              global: bool, pkgdir: string, pkg: Package): (r: Option<Error>)
    ensures r.None? <==>
      TryRunHook(sys, run, "post-install", pkg.language, pkg.subtoolRequired, PostInstallArgs(pkgdir, global)).None?
      && writeFails(PostInstallMarker(pkgdir, pkg)).None?
  {
    var e := TryRunHook(sys, run, "post-install", pkg.language, pkg.subtoolRequired, PostInstallArgs(pkgdir, global));
    if e.Some? then e
    else match writeFails(PostInstallMarker(pkgdir, pkg))
         case Some(w) => Some(Msg("error writing hook log: " + Message(w)))
         case None => None
  }

  /** One more hash walked: its hook is added when it is stored and its
      marker is neither there from the start nor written by an earlier
      hash, and its marker joins the set. */
  lemma HooksForSnoc(store: Store, location: string, global: bool, vs: seq<Hash>, h: Hash, ms: set<string>)
    ensures HooksFor(store, location, global, vs + [h], ms) == HooksFor(store, location, global, vs, ms)
      + (if h in store && MarkerOf(store, location, h) !in ms + MarkersOf(store, location, vs)
         then [CallFor(store, location, global, h)] else [])
    ensures MarkersOf(store, location, vs + [h]) ==
      MarkersOf(store, location, vs) + (if h in store then {MarkerOf(store, location, h)} else {})
  {
    assert (vs + [h])[..|vs|] == vs;
  }

  /** Hooks are run in the order of the walk: the hooks of a longer walk
      begin with those of any prefix of it. */
  lemma {:induction false} HooksForPrefix(store: Store, location: string, global: bool, vs: seq<Hash>, ms: set<string>, k: nat)
    requires k <= |vs|
    ensures HooksFor(store, location, global, vs[..k], ms) <= HooksFor(store, location, global, vs, ms)
    decreases |vs|
  {
    if k < |vs| {
      assert vs[..|vs| - 1][..k] == vs[..k];
      HooksForPrefix(store, location, global, vs[..|vs| - 1], ms, k);
    } else {
      assert vs[..k] == vs;
    }
  }

  /** When every hash walked already had its marker, no hook runs. */
  lemma {:induction false} HooksForMarked(store: Store, location: string, global: bool, vs: seq<Hash>, ms: set<string>)
    requires forall i :: 0 <= i < |vs| && vs[i] in store ==> MarkerOf(store, location, vs[i]) in ms
    ensures HooksFor(store, location, global, vs, ms) == []
  {
    if vs != [] {
      HooksForMarked(store, location, global, vs[..|vs| - 1], ms);
      assert vs[|vs| - 1] == vs[|vs| - 1];
    }
  }

  /** A hash that is walked once and has no marker beforehand has its hook
      run: the call is in the trace. */
  lemma {:induction false} HookRunsOnce(store: Store, location: string, global: bool, vs: seq<Hash>, ms: set<string>, i: nat)
    requires i < |vs| && vs[i] in store && MarkerOf(store, location, vs[i]) !in ms
    requires forall j :: 0 <= j < i && vs[j] in store ==> MarkerOf(store, location, vs[j]) != MarkerOf(store, location, vs[i])
    ensures CallFor(store, location, global, vs[i]) in HooksFor(store, location, global, vs, ms)
    decreases |vs|
  {
    var pre := vs[..|vs| - 1];
    if i < |vs| - 1 {
      assert pre[i] == vs[i];
      forall j | 0 <= j < i && pre[j] in store
        ensures MarkerOf(store, location, pre[j]) != MarkerOf(store, location, pre[i])
      {
        assert pre[j] == vs[j];
      }
      HookRunsOnce(store, location, global, pre, ms, i);
    } else {
      forall j | 0 <= j < |pre| && pre[j] in store
        ensures MarkerOf(store, location, pre[j]) != MarkerOf(store, location, vs[i])
      {
        assert pre[j] == vs[j];
      }
      MarkersOfAbsent(store, location, pre, MarkerOf(store, location, vs[i]));
    }
  }

  /** A marker that no hash of `vs` has is not among `MarkersOf(vs)`. */
  lemma {:induction false} MarkersOfAbsent(store: Store, location: string, vs: seq<Hash>, m: string)
    requires forall j :: 0 <= j < |vs| && vs[j] in store ==> MarkerOf(store, location, vs[j]) != m
    ensures m !in MarkersOf(store, location, vs)
  {
    if vs != [] {
      var pre := vs[..|vs| - 1];
      forall j | 0 <= j < |pre| && pre[j] in store
        ensures MarkerOf(store, location, pre[j]) != m
      {
        assert pre[j] == vs[j];
      }
      MarkersOfAbsent(store, location, pre, m);
    }
  }

  /** The installed packages and the process environment a post-install
      pass runs against, and the file-system state it changes. */
  class Installer {
    /** `FindPackageInDir` of a hash dir: the packages that load. */
    const store: Store
    /** The error `FindPackageInDir` returns for a hash not in `store`. */
    const missing: Hash -> Error
    const sys: System
    /** How a hook process run ends. */
    const run: Invocation -> Option<Error>
    /** The error `writePkgHook` meets creating a marker, if any. */
    const writeFails: string -> Option<Error>
    /** `pm.global`. */
    const global: bool

    /** The hook marker files that exist. */
    var markers: set<string>
    /** Every `TryRunHook` call for a post-install hook, oldest first. */
    ghost var hookCalls: seq<HookCall>

    constructor (store: Store, missing: Hash -> Error, sys: System, run: Invocation -> Option<Error>,
                 writeFails: string -> Option<Error>, global: bool, markers: set<string>)
      ensures this.store == store && this.missing == missing && this.sys == sys && this.run == run
      ensures this.writeFails == writeFails && this.global == global
      ensures this.markers == markers && hookCalls == []
    {
      this.store := store;
      this.missing := missing;
      this.sys := sys;
      this.run := run;
      this.writeFails := writeFails;
      this.global := global;
      this.markers := markers;
      hookCalls := [];
    }

    /** `pkgRanHook`: the marker of `hook` exists under `dir`. */
    predicate PkgRanHook(dir: string, hook: string)
      reads this
    {
      HookMarker(dir, hook) in markers
    }

    /** `writePkgHook`: create the marker of `hook` under `dir`, or return
        the error met doing so. */
    method WritePkgHook(dir: string, hook: string) returns (err: Option<Error>)
      modifies this
      ensures err == writeFails(HookMarker(dir, hook))
      ensures err.None? ==> markers == old(markers) + {HookMarker(dir, hook)}
      ensures err.Some? ==> markers == old(markers)
      ensures hookCalls == old(hookCalls)
    {
      err := writeFails(HookMarker(dir, hook));
      if err.None? {
        markers := markers + {HookMarker(dir, hook)};
      }
    }

    /** `maybeRunPostInstall`: nothing happens when the marker exists;
        otherwise the hook runs with `[pkgdir]` (plus `--global`), a hook
        error is returned with no marker written, and on success the
        marker is written (a write error is reported as such). */
    method MaybeRunPostInstall(pkg: Package, pkgdir: string) returns (err: Option<Error>)
      modifies this
      ensures PostInstallMarker(pkgdir, pkg) in old(markers) ==>
        err == None && markers == old(markers) && hookCalls == old(hookCalls)
      ensures PostInstallMarker(pkgdir, pkg) !in old(markers) ==>
        && hookCalls == old(hookCalls) + [HookCall(pkg.language, pkg.subtoolRequired, PostInstallArgs(pkgdir, global))]
        && err == PostInstallOutcome(sys, run, writeFails, global, pkgdir, pkg)
        && markers == (if err.None? then old(markers) + {PostInstallMarker(pkgdir, pkg)} else old(markers))
      ensures err.None? ==> PostInstallMarker(pkgdir, pkg) in markers
      ensures markers >= old(markers)
    {
      var dir := PathJoin(pkgdir, pkg.name);
      if !PkgRanHook(dir, "post-install") {
        var args := PostInstallArgs(pkgdir, global);
        hookCalls := hookCalls + [HookCall(pkg.language, pkg.subtoolRequired, args)];
        err := TryRunHook(sys, run, "post-install", pkg.language, pkg.subtoolRequired, args);
        if err.Some? {
          return err;
        }
        var w := WritePkgHook(dir, "post-install");
        if w.Some? {
          return Some(Msg("error writing hook log: " + Message(w.value)));
        }
      }
      return None;
    }

    /** `maybeRunPostInstall` for the package stored under `hash`, walked
        after `vs`, as a step of the pass's trace: the hook calls and the
        markers grow as `HooksFor` and `MarkersOf` say, and an error is
        the one the hook or the marker write met, with no marker written. */
    method PostInstallStep(location: string, hash: Hash, ghost vs: seq<Hash>, ghost M0: set<string>, ghost H0: seq<HookCall>)
      returns (err: Option<Error>)
      requires hash in store
      requires hookCalls == H0 + HooksFor(store, location, global, vs, M0)
      requires markers == M0 + MarkersOf(store, location, vs)
      modifies this
      ensures markers >= old(markers)
      ensures MarkerOf(store, location, hash) in old(markers) ==> hookCalls == old(hookCalls)
      ensures hookCalls == H0 + HooksFor(store, location, global, vs + [hash], M0)
      ensures err.None? ==> markers == M0 + MarkersOf(store, location, vs + [hash])
      ensures err.None? ==> MarkerOf(store, location, hash) in markers
      ensures err.Some? ==> markers == old(markers) && MarkerOf(store, location, hash) !in markers
      ensures err.Some? ==> err == PostInstallOutcome(sys, run, writeFails, global, PkgDir(location, hash), store[hash])
    {
      HooksForSnoc(store, location, global, vs, hash, M0);
      err := MaybeRunPostInstall(store[hash], PkgDir(location, hash));
    }

    /** A pass that started from the markers `M0` and the trace `H0` has
        handled the hashes `vs`: the trace gained exactly the calls
        `HooksFor` predicts and the markers exactly those of `vs`. */
    ghost predicate Traced(location: string, vs: seq<Hash>, M0: set<string>, H0: seq<HookCall>)
      reads this
    {
      && hookCalls == H0 + HooksFor(store, location, global, vs, M0)
      && markers == M0 + MarkersOf(store, location, vs)
    }

    /** A pass that started from `M0` and `H0` stopped with `err` at the
        last hash of `vis`: the trace holds the calls for all of `vis`, the
        markers gained those of the hashes before it, and the error is the
        load error of a missing package or else the outcome of its hook
        run, whose marker is then still absent. */
    ghost predicate TracedFailure(location: string, vis: seq<Hash>, M0: set<string>, H0: seq<HookCall>,
                                  err: Option<Error>)
      reads this
    {
      && vis != []
      && hookCalls == H0 + HooksFor(store, location, global, vis, M0)
      && markers == M0 + MarkersOf(store, location, vis[..|vis| - 1])
      && (vis[|vis| - 1] !in store ==> err == Some(missing(vis[|vis| - 1])))
      && (vis[|vis| - 1] in store ==>
            && MarkerOf(store, location, vis[|vis| - 1]) !in markers
            && err == PostInstallOutcome(sys, run, writeFails, global, PkgDir(location, vis[|vis| - 1]),
                                         store[vis[|vis| - 1]]))
    }

    /** One turn of `dependenciesPostInstall`'s loop for the popped hash
        `hash`: load its package (a hash that is not installed ends the pass
        with the load error), run its post-install hook, then queue its new
        edges. `M0` is the marker set the pass started from. */
    method ProcessDep(q: DependencyQueue, location: string, rootDeps: seq<Dependency>, hash: Hash,
                      ghost vs: seq<Hash>, ghost M0: set<string>, ghost H0: seq<HookCall>) returns (err: Option<Error>)
      requires q.Valid() && |vs| + |q.queue| + 1 == |q.history|
      requires WalkInv(store, rootDeps, location, q.history, q.added, vs, markers)
      requires |vs| < |q.history| && hash == q.history[|vs|].hash
      requires M0 <= markers
      requires Traced(location, vs, M0, H0)
      modifies this, q
      ensures markers >= old(markers)
      ensures err.None? ==> Traced(location, vs + [hash], M0, H0)
      ensures err.Some? ==> TracedFailure(location, vs + [hash], M0, H0, err)
      ensures AllMarked(store, DepHashes(rootDeps), location, M0) ==> hookCalls == old(hookCalls)
      ensures err.Some? ==> Stopped(store, rootDeps, location, vs + [hash], markers)
      ensures err.Some? ==> Distinct(vs + [hash]) && Discovered(store, DepHashes(rootDeps), vs + [hash])
      ensures err.None? ==>
        && q.Valid() && |vs| + 1 + |q.queue| == |q.history|
        && WalkInv(store, rootDeps, location, q.history, q.added, vs + [hash], markers)
        && |vs + [hash]| <= |DepHashes(rootDeps) + StoreEdges(store)|
    {
      WalkPop(store, rootDeps, location, q.history, q.added, vs, markers, hash);
      assert (vs + [hash])[..|vs|] == vs;
      if hash !in store {
        HooksForSnoc(store, location, global, vs, hash, M0);
        return Some(missing(hash));
      }
      ghost var m0 := markers;
      if AllMarked(store, DepHashes(rootDeps), location, M0) {
        MarkedBefore(store, DepHashes(rootDeps), location, M0, m0, hash);
      }
      err := PostInstallStep(location, hash, vs, M0, H0);
      if err.Some? {
        StoppedMonotone(store, rootDeps, location, vs + [hash], m0, markers);
        return err;
      }
      QueueEdges(q, location, rootDeps, hash, vs, m0, markers);
    }

    /** The end of a turn whose hook has succeeded: queue the new edges of
        the package at `hash`, which `ms` now marks as run. */
    method QueueEdges(q: DependencyQueue, location: string, rootDeps: seq<Dependency>, hash: Hash,
                      ghost vs: seq<Hash>, ghost m0: set<string>, ghost ms: set<string>)
      requires q.Valid() && |vs| + |q.queue| + 1 == |q.history|
      requires WalkInv(store, rootDeps, location, q.history, q.added, vs, m0)
      requires |vs| < |q.history| && hash == q.history[|vs|].hash
      requires hash in store && m0 <= ms && MarkerOf(store, location, hash) in ms
      modifies q
      ensures q.Valid() && |vs| + 1 + |q.queue| == |q.history|
      ensures WalkInv(store, rootDeps, location, q.history, q.added, vs + [hash], ms)
    {
      ghost var h0, a0 := q.history, q.added;
      var added := q.AddPackageDependencies(store[hash]);
      WalkExpand(store, rootDeps, location, h0, a0, vs, m0, ms, hash);
    }

    /** The queue `dependenciesPostInstall` starts from: a new queue with
        the root's edges added. */
    method StartQueue(pkg: Package, location: string) returns (q: DependencyQueue)
      ensures fresh(q) && q.Valid() && |q.queue| == |q.history|
      ensures WalkInv(store, pkg.deps, location, q.history, q.added, [], markers)
    {
      q := new DependencyQueue();
      var added := q.AddPackageDependencies(pkg);
      WalkStart(store, pkg.deps, location, markers);
    }

    /** One turn of `dependenciesPostInstall`'s loop: pop the next edge.
        An empty queue ends the pass successfully; otherwise the popped hash
        is processed, and an error there ends the pass too. `vs` lists the
        hashes popped before, `M0` the markers the pass started from. When
        the pass ends, `vis` is every hash it popped. */
    method Turn(q: DependencyQueue, location: string, rootDeps: seq<Dependency>,
                ghost vs: seq<Hash>, ghost M0: set<string>, ghost H0: seq<HookCall>)
      returns (stop: bool, err: Option<Error>, hash: Hash, ghost vis: seq<Hash>)
      requires q.Valid() && |vs| + |q.queue| == |q.history|
      requires WalkInv(store, rootDeps, location, q.history, q.added, vs, markers)
      requires M0 <= markers
      requires Traced(location, vs, M0, H0)
      modifies this, q
      ensures markers >= old(markers)
      ensures !stop ==> Traced(location, vs + [hash], M0, H0)
      ensures stop && err.None? ==> Traced(location, vis, M0, H0)
      ensures stop && err.Some? ==> TracedFailure(location, vis, M0, H0, err)
      ensures AllMarked(store, DepHashes(rootDeps), location, M0) ==> hookCalls == old(hookCalls)
      ensures !stop ==>
        && err.None? && q.Valid() && |vs| + 1 + |q.queue| == |q.history|
        && WalkInv(store, rootDeps, location, q.history, q.added, vs + [hash], markers)
        && |vs + [hash]| <= |DepHashes(rootDeps) + StoreEdges(store)|
      ensures stop ==> Distinct(vis) && Discovered(store, DepHashes(rootDeps), vis)
      ensures stop && err.None? ==> Completed(store, rootDeps, location, vis, markers)
      ensures stop && err.Some? ==> Stopped(store, rootDeps, location, vis, markers)
    {
      hash := "";
      var d := q.Pop();
      if d.None? {
        WalkFinish(store, rootDeps, location, q.history, q.added, vs, markers);
        return true, None, hash, vs;
      }
      hash := d.value.hash;
      assert hash == q.history[|vs|].hash;
      err := ProcessDep(q, location, rootDeps, hash, vs, M0, H0);
      stop := err.Some?;
      vis := vs + [hash];
      assert vis[..|vis| - 1] == vs;
    }

    /** `dependenciesPostInstall`: pop the queue seeded with the root's
        edges; load each popped hash (any error ends the pass), run its
        hook, then queue its new edges.
        On success the pass has visited, in breadth-first discovery order
        and each once, exactly the hashes reachable from the root's edges,
        and every one of them has its marker. On an error the pass stopped
        at the last hash it popped. If every reachable package had its
        marker beforehand, no hook is run. */
    method DependenciesPostInstall(pkg: Package, location: string)
      returns (err: Option<Error>, ghost visited: seq<Hash>)
      modifies this
      ensures Distinct(visited)
      ensures Discovered(store, DepHashes(pkg.deps), visited)
      ensures markers >= old(markers)
      ensures err.None? ==> Completed(store, pkg.deps, location, visited, markers)
      ensures err.Some? ==> Stopped(store, pkg.deps, location, visited, markers)
      ensures AllMarked(store, DepHashes(pkg.deps), location, old(markers)) ==> hookCalls == old(hookCalls)
      ensures err.None? ==> Traced(location, visited, old(markers), old(hookCalls))
      ensures err.Some? ==> TracedFailure(location, visited, old(markers), old(hookCalls), err)
    {
      ghost var U := DepHashes(pkg.deps) + StoreEdges(store);
      ghost var vs: seq<Hash> := [];
      var q := StartQueue(pkg, location);
      while true
        invariant fresh(q) && q.Valid()
        invariant |vs| + |q.queue| == |q.history|
        invariant WalkInv(store, pkg.deps, location, q.history, q.added, vs, markers)
        invariant AllMarked(store, DepHashes(pkg.deps), location, old(markers)) ==> hookCalls == old(hookCalls)
        invariant Traced(location, vs, old(markers), old(hookCalls))
        invariant |vs| <= |U|
        decreases |U| - |vs|
      {
        var stop, hash;
        stop, err, hash, visited := Turn(q, location, pkg.deps, vs, old(markers), old(hookCalls));
        if stop {
          return;
        }
        vs := vs + [hash];
      }
    }
  }
}
