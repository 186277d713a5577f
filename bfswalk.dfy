/** The breadth-first order of gxutil/pm.go's post-install pass, stated
    on values: the queue history a walk builds from the root's edges, what
    it has visited, and the facts about both that the pass keeps. */
module BfsWalk {
  import opened Common
  import opened PkgFile
  import opened Graph
  import opened Hooks
  import opened DepQueue

  /** The edge list a breadth-first walk from `rootDeps` has queued after
      expanding the packages `processed`, in order: the new edges of the
      root, then the new edges of each processed package in turn. */
  ghost function Expansion(store: Store, rootDeps: seq<Dependency>, processed: seq<Hash>): seq<Dependency>
    decreases |processed|
  {
    if processed == [] then NewDeps({}, rootDeps)
    else
      var e := Expansion(store, rootDeps, processed[..|processed| - 1]);
      var h := processed[|processed| - 1];
      e + NewDeps(DepHashes(e), if h in store then store[h].deps else [])
  }

  /** The edge queued at position `j`. (Named, so that the quantifier of
      `QueuedFrom` is only used where a proof asks for it.) */
  ghost function EdgeAt(history: seq<Dependency>, j: nat): Dependency
    requires j < |history|
  {
    history[j]
  }

  /** Every queued edge comes from the root or from a package expanded
      before the edge was queued. */
  ghost predicate QueuedFrom(store: Store, rootDeps: seq<Dependency>, history: seq<Dependency>, visited: seq<Hash>) {
    forall j: nat :: j < |history| ==>
      EdgeAt(history, j).hash in DepHashes(rootDeps) ||
      exists k :: 0 <= k < j && k < |visited| && visited[k] in store &&
        EdgeAt(history, j).hash in DepHashes(store[visited[k]].deps)
  }

  lemma {:induction false} DistinctHashesCard(s: seq<Dependency>)
    requires DistinctHashes(s)
    ensures |DepHashes(s)| == |s|
  {
    if s != [] {
      var n := |s| - 1;
      DistinctHashesPrefix(s, n);
      DistinctHashesCard(s[..n]);
      assert s == s[..n] + [s[n]];
      DepHashesAppend(s[..n], [s[n]]);
      assert DepHashes([s[n]]) == {s[n].hash};
      forall x | x in DepHashes(s[..n]) ensures x != s[n].hash {
        var k :| 0 <= k < n && s[..n][k].hash == x;
        assert HashOf(s, k) != HashOf(s, n);
      }
    }
  }

  /** Every stored package reachable from the roots already has its marker. */
  ghost predicate AllMarked(store: Store, roots: set<Hash>, location: string, ms: set<string>) {
    forall h {:trigger h in Reachable(store, roots)} :: h in Reachable(store, roots) && h in store ==>
      PostInstallMarker(PkgDir(location, h), store[h]) in ms
  }

  lemma MarkedBefore(store: Store, roots: set<Hash>, location: string, ms: set<string>, ms': set<string>, h: Hash)
    requires AllMarked(store, roots, location, ms) && ms <= ms'
    requires h in Reachable(store, roots) && h in store
    ensures PostInstallMarker(PkgDir(location, h), store[h]) in ms'
  {
  }

  /** A finished walk: it visited exactly the reachable hashes, in the
      breadth-first order of their expansion, and each is stored and marked. */
  ghost predicate Completed(store: Store, rootDeps: seq<Dependency>, location: string, visited: seq<Hash>, ms: set<string>) {
    && (set i | 0 <= i < |visited| :: visited[i]) == Reachable(store, DepHashes(rootDeps))
    && visited == ExpansionHashes(Expansion(store, rootDeps, visited))
    && Done(store, location, visited, ms)
  }

  /** A walk that stopped at its last hash: the order so far is the
      breadth-first order, and every hash before the last is stored and marked. */
  ghost predicate Stopped(store: Store, rootDeps: seq<Dependency>, location: string, visited: seq<Hash>, ms: set<string>) {
    && visited != []
    && StoppedAt(store, rootDeps, visited)
    && Done(store, location, visited[..|visited| - 1], ms)
  }

  /** Every hash of `vs` is stored and has its post-install marker in `ms`. */
  ghost predicate Done(store: Store, location: string, vs: seq<Hash>, ms: set<string>) {
    forall i :: 0 <= i < |vs| ==>
      vs[i] in store && PostInstallMarker(PkgDir(location, vs[i]), store[vs[i]]) in ms
  }

  lemma StoppedMonotone(store: Store, rootDeps: seq<Dependency>, location: string,
                        vs: seq<Hash>, ms: set<string>, ms': set<string>)
    requires Stopped(store, rootDeps, location, vs, ms) && ms <= ms'
    ensures Stopped(store, rootDeps, location, vs, ms')
  {
  }

  /** `visited` is the walk's order up to its last hash: the breadth-first
      order of the expansion of all hashes before the last. */
  ghost predicate StoppedAt(store: Store, rootDeps: seq<Dependency>, visited: seq<Hash>)
    requires visited != []
  {
    var e := Expansion(store, rootDeps, visited[..|visited| - 1]);
    |visited| <= |e| && ExpansionHashes(e)[..|visited|] == visited
  }

  /** The state of the walk at the head of its loop: the queue history is
      the expansion of the hashes popped so far, which are its first edges'
      hashes, every queued edge is accounted for, the added set covers the
      root's and every popped package's edges, and every popped hash is
      stored and marked. */
  ghost predicate WalkInv(store: Store, rootDeps: seq<Dependency>, location: string,
                          history: seq<Dependency>, added: set<Hash>, visited: seq<Hash>, ms: set<string>) {
    && DistinctHashes(history)
    && added == DepHashes(history)
    && history == Expansion(store, rootDeps, visited)
    && |visited| <= |history|
    && (forall i :: 0 <= i < |visited| ==> visited[i] == history[i].hash)
    && QueuedFrom(store, rootDeps, history, visited)
    && DepHashes(history) <= DepHashes(rootDeps) + StoreEdges(store)
    && DepHashes(rootDeps) <= added
    && (forall i :: 0 <= i < |visited| ==> visited[i] in store && DepHashes(store[visited[i]].deps) <= added)
    && Done(store, location, visited, ms)
  }

  lemma WalkStart(store: Store, rootDeps: seq<Dependency>, location: string, ms: set<string>)
    ensures WalkInv(store, rootDeps, location, NewDeps({}, rootDeps), {} + DepHashes(rootDeps), [], ms)
  {
    var h := NewDeps({}, rootDeps);
    NewDepsFacts({}, rootDeps);
    forall j | 0 <= j < |h| ensures h[j].hash in DepHashes(rootDeps) {
      var i :| 0 <= i < |rootDeps| && rootDeps[i] == h[j];
    }
  }

  /** Popping the next edge: the popped hashes stay distinct, discovered
      and reachable, the walk has stopped at a well-defined place, and the
      measure of the loop still has room. */
  lemma WalkPop(store: Store, rootDeps: seq<Dependency>, location: string,
                history: seq<Dependency>, added: set<Hash>, pv: seq<Hash>, ms: set<string>, hash: Hash)
    requires WalkInv(store, rootDeps, location, history, added, pv, ms)
    requires |pv| < |history| && hash == history[|pv|].hash
    ensures var v := pv + [hash];
      && Distinct(v)
      && Discovered(store, DepHashes(rootDeps), v)
      && hash in Reachable(store, DepHashes(rootDeps))
      && |v| <= |DepHashes(rootDeps) + StoreEdges(store)|
      && Stopped(store, rootDeps, location, v, ms)
  {
    var v := pv + [hash];
    assert v[..|pv|] == pv;
    DistinctHashesCard(history);
    CardLe(DepHashes(history), DepHashes(rootDeps) + StoreEdges(store));
    HashesOfHistory(history, v);
    QueuedFromExtend(store, rootDeps, history, pv, hash);
    QueuedDiscovered(store, rootDeps, history, v);
    DiscoveredReachable(store, DepHashes(rootDeps), v);
    assert v[|pv|] == hash;
  }

  /** Queueing the new edges of the popped, stored and now marked package
      re-establishes the loop state with that hash popped. */
  lemma WalkExpand(store: Store, rootDeps: seq<Dependency>, location: string,
                   h0: seq<Dependency>, a0: set<Hash>, pv: seq<Hash>, m0: set<string>, ms: set<string>, hash: Hash)
    requires WalkInv(store, rootDeps, location, h0, a0, pv, m0)
    requires |pv| < |h0| && hash == h0[|pv|].hash
    requires hash in store && m0 <= ms
    requires PostInstallMarker(PkgDir(location, hash), store[hash]) in ms
    ensures WalkInv(store, rootDeps, location, h0 + NewDeps(a0, store[hash].deps),
                    a0 + DepHashes(store[hash].deps), pv + [hash], ms)
  {
    var v := pv + [hash];
    var deps := store[hash].deps;
    var n := NewDeps(a0, deps);
    var h := h0 + n;
    assert v[..|v| - 1] == pv;
    AppendNewKeepsValid(h0, a0, deps);
    NewDepsFacts(a0, deps);
    StoreDepsInEdges(store, hash);
    DepHashesAppend(h0, n);
    QueuedFromExtend(store, rootDeps, h0, pv, hash);
    QueuedFromStep(store, rootDeps, h0, v, n);
    forall i | 0 <= i < |v| ensures v[i] == h[i].hash { if i < |pv| { assert h[i] == h0[i]; } }
    forall i | 0 <= i < |v| ensures v[i] in store && DepHashes(store[v[i]].deps) <= a0 + DepHashes(deps) {
      if i < |pv| { assert v[i] == pv[i]; }
    }
    assert Done(store, location, v, ms) by {
      forall i | 0 <= i < |v| ensures v[i] in store && PostInstallMarker(PkgDir(location, v[i]), store[v[i]]) in ms {
        if i < |pv| { assert v[i] == pv[i]; }
      }
    }
  }

  /** An empty queue ends the walk: the popped hashes are, in expansion
      order, exactly the reachable ones. */
  lemma WalkFinish(store: Store, rootDeps: seq<Dependency>, location: string,
                   history: seq<Dependency>, added: set<Hash>, visited: seq<Hash>, ms: set<string>)
    requires WalkInv(store, rootDeps, location, history, added, visited, ms)
    requires |visited| == |history|
    ensures Distinct(visited)
    ensures Discovered(store, DepHashes(rootDeps), visited)
    ensures Completed(store, rootDeps, location, visited, ms)
  {
    HashesOfHistory(history, visited);
    QueuedDiscovered(store, rootDeps, history, visited);
    FinishClosed(store, DepHashes(rootDeps), history, visited, added);
    ExactlyReachable(store, DepHashes(rootDeps), visited);
  }

  /** Popping one more hash keeps every queued edge accounted for. */
  lemma QueuedFromExtend(store: Store, rootDeps: seq<Dependency>, history: seq<Dependency>, pv: seq<Hash>, hash: Hash)
    requires QueuedFrom(store, rootDeps, history, pv)
    ensures QueuedFrom(store, rootDeps, history, pv + [hash])
  {
    var v := pv + [hash];
    forall j: nat | j < |history| && EdgeAt(history, j).hash !in DepHashes(rootDeps)
      ensures exists k :: 0 <= k < j && k < |v| && v[k] in store && EdgeAt(history, j).hash in DepHashes(store[v[k]].deps)
    {
      assert EdgeAt(history, j) == history[j];
      var k :| 0 <= k < j && k < |pv| && pv[k] in store && history[j].hash in DepHashes(store[pv[k]].deps);
      assert v[k] == pv[k];
    }
  }

  /** The hashes of an edge list, in order. */
  function ExpansionHashes(s: seq<Dependency>): (r: seq<Hash>)
    ensures |r| == |s| && forall i :: 0 <= i < |s| ==> r[i] == s[i].hash
  {
    if s == [] then [] else [s[0].hash] + ExpansionHashes(s[1..])
  }

  /** A popped prefix whose hashes are those of the history's first
      edges: its hashes in order, and distinct when the history's are. */
  lemma HashesOfHistory(history: seq<Dependency>, visited: seq<Hash>)
    requires DistinctHashes(history)
    requires |visited| <= |history|
    requires forall i :: 0 <= i < |visited| ==> visited[i] == history[i].hash
    ensures Distinct(visited)
    ensures ExpansionHashes(history)[..|visited|] == visited
  {
    forall i: nat, j: nat | i < j < |visited| ensures Nth(visited, i) != Nth(visited, j) {
      assert HashOf(history, i) != HashOf(history, j);
    }
  }

  /** Popped hashes of a queued-from history are discovered in walk order. */
  lemma QueuedDiscovered(store: Store, rootDeps: seq<Dependency>, history: seq<Dependency>, visited: seq<Hash>)
    requires QueuedFrom(store, rootDeps, history, visited)
    requires |visited| <= |history|
    requires forall i :: 0 <= i < |visited| ==> visited[i] == history[i].hash
    ensures Discovered(store, DepHashes(rootDeps), visited)
  {
    forall j: nat | j < |visited|
      ensures Nth(visited, j) in DepHashes(rootDeps) ||
        exists k :: 0 <= k < j && visited[k] in store && Nth(visited, j) in DepHashes(store[visited[k]].deps)
    {
      assert EdgeAt(history, j).hash == visited[j] == Nth(visited, j);
    }
  }

  /** Queueing the new edges of the last popped package keeps every queued
      edge accounted for. */
  lemma QueuedFromStep(store: Store, rootDeps: seq<Dependency>, h0: seq<Dependency>,
                       visited: seq<Hash>, n: seq<Dependency>)
    requires visited != [] && |visited| - 1 < |h0|
    requires QueuedFrom(store, rootDeps, h0, visited[..|visited| - 1])
    requires visited[|visited| - 1] in store
    requires forall i :: 0 <= i < |n| ==> n[i] in store[visited[|visited| - 1]].deps
    ensures QueuedFrom(store, rootDeps, h0 + n, visited)
  {
    var k := |visited| - 1;
    var deps := store[visited[k]].deps;
    var h := h0 + n;
    forall j: nat | j < |h|
      ensures EdgeAt(h, j).hash in DepHashes(rootDeps) ||
        exists k' :: 0 <= k' < j && k' < |visited| && visited[k'] in store &&
          EdgeAt(h, j).hash in DepHashes(store[visited[k']].deps)
    {
      if j < |h0| {
        assert EdgeAt(h, j) == h[j] == h0[j] == EdgeAt(h0, j);
        if h0[j].hash !in DepHashes(rootDeps) {
          var k' :| 0 <= k' < j && k' < |visited[..k]| && visited[..k][k'] in store &&
            h0[j].hash in DepHashes(store[visited[..k][k']].deps);
          assert visited[k'] == visited[..k][k'];
        }
      } else {
        assert EdgeAt(h, j) == h[j] == n[j - |h0|];
        var i :| 0 <= i < |deps| && deps[i] == n[j - |h0|];
        assert h[j].hash in DepHashes(deps);
      }
    }
  }

  /** When the queue is empty, the popped hashes are closed under edges. */
  lemma FinishClosed(store: Store, roots: set<Hash>, history: seq<Dependency>, visited: seq<Hash>, added: set<Hash>)
    requires |visited| == |history|
    requires forall i :: 0 <= i < |visited| ==> visited[i] == history[i].hash
    requires added == DepHashes(history) && roots <= added
    requires forall i :: 0 <= i < |visited| ==> visited[i] in store && DepHashes(store[visited[i]].deps) <= added
    ensures (set i | 0 <= i < |visited| :: visited[i]) == added
    ensures roots <= set i | 0 <= i < |visited| :: visited[i]
    ensures Closed(store, set i | 0 <= i < |visited| :: visited[i])
  {
    var V := set i | 0 <= i < |visited| :: visited[i];
    forall x | x in added ensures x in V {
      var i :| 0 <= i < |history| && history[i].hash == x;
      assert visited[i] == x;
    }
    forall h, i | h in V && h in store && 0 <= i < |store[h].deps| ensures store[h].deps[i].hash in V {
      var j :| 0 <= j < |visited| && visited[j] == h;
      assert store[h].deps[i].hash in DepHashes(store[visited[j]].deps);
    }
  }
}
