/** The dependency graph over a store: which hashes a walk from a set of
    root hashes can reach. Every walk in the core (the post-install queue,
    `enumerateDepsRec`, the consistency checker) is proved to visit exactly
    this set when it succeeds. */
module Graph {
  import opened Common
  import opened PkgFile

  /** Every hash some stored package has an edge to. */
  ghost function StoreEdges(store: Store): set<Hash> {
    set h, i | h in store && 0 <= i < |store[h].deps| :: store[h].deps[i].hash
  }

  /** No stored package in `S` has an edge leaving `S`. */
  ghost predicate Closed(store: Store, S: set<Hash>) {
    forall h, i :: h in S && h in store && 0 <= i < |store[h].deps| ==> store[h].deps[i].hash in S
  }

  /** `p` starts at a root, ends at `h`, and each of its hashes after the
      first is the target of an edge of the stored package before it. */
  ghost predicate Path(store: Store, roots: set<Hash>, p: seq<Hash>, h: Hash) {
    && |p| >= 1
    && p[0] in roots
    && p[|p| - 1] == h
    && forall i: nat :: i < |p| - 1 ==> PathStep(store, p, i)
  }

  /** The `i`-th hash of `p` is stored and has an edge to the next one.
      (Named, so that the quantifier of `Path` is only used where a proof
      asks for it.) */
  ghost predicate PathStep(store: Store, p: seq<Hash>, i: nat)
    requires i + 1 < |p|
  {
    p[i] in store && p[i + 1] in DepHashes(store[p[i]].deps)
  }

  /** The hashes reachable from `roots` by following edges of stored
      packages (a hash that is not stored is reached but has no edges). */
  ghost function Reachable(store: Store, roots: set<Hash>): set<Hash> {
    set h | h in roots + StoreEdges(store) && exists p :: Path(store, roots, p, h)
  }

  /** Every hash on a path from the roots lies in a closed set that holds
      the roots. */
  lemma {:induction false} PathInClosed(store: Store, roots: set<Hash>, p: seq<Hash>, h: Hash, T: set<Hash>)
    requires Path(store, roots, p, h) && roots <= T && Closed(store, T)
    ensures h in T
    decreases |p|
  {
    if |p| > 1 {
      var q := p[..|p| - 1];
      var g := p[|p| - 2];
      assert Path(store, roots, q, g) by {
        forall i: nat | i < |q| - 1 ensures PathStep(store, q, i) {
          assert PathStep(store, p, i);
        }
      }
      PathInClosed(store, roots, q, g, T);
      assert PathStep(store, p, |p| - 2);
      var i :| 0 <= i < |store[g].deps| && store[g].deps[i].hash == h;
    }
  }

  /** The reachable set contains the roots and is closed under edges ... */
  lemma ReachableClosed(store: Store, roots: set<Hash>)
    ensures roots <= Reachable(store, roots)
    ensures Closed(store, Reachable(store, roots))
  {
    var R := Reachable(store, roots);
    forall h | h in roots ensures h in R {
      assert Path(store, roots, [h], h);
    }
    forall h, i | h in R && h in store && 0 <= i < |store[h].deps| ensures store[h].deps[i].hash in R {
      var p :| Path(store, roots, p, h);
      var c := store[h].deps[i].hash;
      assert c in DepHashes(store[h].deps);
      var p' := p + [c];
      assert Path(store, roots, p', c) by {
        forall j: nat | j < |p'| - 1 ensures PathStep(store, p', j) {
          if j < |p| - 1 {
            assert PathStep(store, p, j);
          }
        }
      }
      assert c in StoreEdges(store);
    }
  }

  /** ... and is the least such set. */
  lemma ReachableLeast(store: Store, roots: set<Hash>, T: set<Hash>)
    requires roots <= T && Closed(store, T)
    ensures Reachable(store, roots) <= T
  {
    forall h | h in Reachable(store, roots) ensures h in T {
      var p :| Path(store, roots, p, h);
      PathInClosed(store, roots, p, h, T);
    }
  }

  /** The `j`-th hash of a walk order. (Named, so that the quantifier of
      `Discovered` is only used where a proof asks for it.) */
  ghost function Nth(order: seq<Hash>, j: nat): Hash
    requires j < |order|
  {
    order[j]
  }

  /** `order` lists hashes each of which is a root or the target of an edge
      of a stored package listed before it: the order a walk discovers
      hashes in. */
  ghost predicate Discovered(store: Store, roots: set<Hash>, order: seq<Hash>) {
    forall j: nat :: j < |order| ==>
      Nth(order, j) in roots ||
      exists k :: 0 <= k < j && order[k] in store && Nth(order, j) in DepHashes(store[order[k]].deps)
  }

  /** Everything a walk discovers is reachable. */
  lemma {:induction false} DiscoveredReachable(store: Store, roots: set<Hash>, order: seq<Hash>)
    requires Discovered(store, roots, order)
    ensures forall j :: 0 <= j < |order| ==> order[j] in Reachable(store, roots)
  {
    ReachableClosed(store, roots);
    var R := Reachable(store, roots);
    forall j | 0 <= j < |order| ensures order[j] in R {
      DiscoveredPrefixReachable(store, roots, order, j);
    }
  }

  lemma {:induction false} DiscoveredPrefixReachable(store: Store, roots: set<Hash>, order: seq<Hash>, j: nat)
    requires Discovered(store, roots, order) && j < |order|
    requires roots <= Reachable(store, roots) && Closed(store, Reachable(store, roots))
    ensures order[j] in Reachable(store, roots)
    decreases j
  {
    assert Nth(order, j) == order[j];
    if order[j] !in roots {
      var k :| 0 <= k < j && order[k] in store && order[j] in DepHashes(store[order[k]].deps);
      DiscoveredPrefixReachable(store, roots, order, k);
      var i :| 0 <= i < |store[order[k]].deps| && store[order[k]].deps[i].hash == order[j];
    }
  }

  /** A closed discovery list that contains the roots lists exactly the
      reachable hashes. */
  lemma ExactlyReachable(store: Store, roots: set<Hash>, order: seq<Hash>)
    requires Discovered(store, roots, order)
    requires roots <= set j | 0 <= j < |order| :: order[j]
    requires Closed(store, set j | 0 <= j < |order| :: order[j])
    ensures (set j | 0 <= j < |order| :: order[j]) == Reachable(store, roots)
  {
    DiscoveredReachable(store, roots, order);
    ReachableLeast(store, roots, set j | 0 <= j < |order| :: order[j]);
  }

  /** No hash occurs twice. */
  ghost predicate Distinct(s: seq<Hash>) {
    forall i: nat, j: nat :: i < j < |s| ==> Nth(s, i) != Nth(s, j)
  }

  /** The hashes a list holds. */
  ghost function Elems(s: seq<Hash>): set<Hash> {
    set x | x in s
  }

  /** Two lists without repeats and with no hash in common, put together. */
  lemma DistinctAppend(a: seq<Hash>, b: seq<Hash>)
    requires Distinct(a) && Distinct(b) && Elems(a) !! Elems(b)
    ensures Distinct(a + b)
  {
    var l := a + b;
    forall i: nat, j: nat | i < j < |l| ensures Nth(l, i) != Nth(l, j) {
      if j < |a| {
        assert Nth(l, i) == Nth(a, i) && Nth(l, j) == Nth(a, j);
      } else if i >= |a| {
        assert Nth(l, i) == Nth(b, i - |a|) && Nth(l, j) == Nth(b, j - |a|);
      } else {
        assert Nth(l, i) == a[i] && Nth(l, j) == b[j - |a|];
        assert a[i] in Elems(a) && b[j - |a|] in Elems(b);
      }
    }
  }

  lemma StoreDepsInEdges(store: Store, h: Hash)
    requires h in store
    ensures DepHashes(store[h].deps) <= StoreEdges(store)
  {
    forall x | x in DepHashes(store[h].deps) ensures x in StoreEdges(store) {
      var i :| 0 <= i < |store[h].deps| && store[h].deps[i].hash == x;
    }
  }

  /** Nothing outside the roots and the store's edge targets is reachable. */
  lemma ReachableWithin(store: Store, roots: set<Hash>)
    ensures Reachable(store, roots) <= roots + StoreEdges(store)
  {
    var T := roots + StoreEdges(store);
    forall h, i | h in T && h in store && 0 <= i < |store[h].deps| ensures store[h].deps[i].hash in T {
      assert store[h].deps[i].hash in StoreEdges(store);
    }
    ReachableLeast(store, roots, T);
  }

  /** What a reachable, stored package reaches is reachable. */
  lemma ReachableFromChild(store: Store, roots: set<Hash>, h: Hash)
    requires h in Reachable(store, roots) && h in store
    ensures DepHashes(store[h].deps) <= Reachable(store, roots)
    ensures Reachable(store, DepHashes(store[h].deps)) <= Reachable(store, roots)
  {
    ReachableClosed(store, roots);
    var R := Reachable(store, roots);
    forall x | x in DepHashes(store[h].deps) ensures x in R {
      var i :| 0 <= i < |store[h].deps| && store[h].deps[i].hash == x;
    }
    ReachableLeast(store, DepHashes(store[h].deps), R);
  }

  /** A reachable hash that is not a root is reachable from the edges of
      some stored root. */
  lemma ReachableSplit(store: Store, roots: set<Hash>, h: Hash)
    requires h in Reachable(store, roots) && h !in roots
    ensures exists r :: r in roots && r in store && h in Reachable(store, DepHashes(store[r].deps))
  {
    var p :| Path(store, roots, p, h);
    assert |p| > 1;
    assert PathStep(store, p, 0);
    var r := p[0];
    var roots' := DepHashes(store[r].deps);
    var q := p[1..];
    assert Path(store, roots', q, h) by {
      forall i: nat | i < |q| - 1 ensures PathStep(store, q, i) {
        assert PathStep(store, p, i + 1);
      }
    }
    assert h in Reachable(store, roots');
  }

  /** A subset is no larger. */
  lemma CardLe(A: set<Hash>, B: set<Hash>)
    requires A <= B
    ensures |A| <= |B|
  {
    assert B == A + (B - A);
  }

  /** Adding a new hash of `U` to the keys shrinks what is left of `U`. */
  lemma CardShrinks(U: set<Hash>, K0: set<Hash>, K: set<Hash>, h: Hash)
    requires K0 <= K && h in K && h !in K0 && h in U
    ensures |U - K| < |U - K0|
  {
    assert U - K <= (U - K0) - {h};
    CardLe(U - K, (U - K0) - {h});
  }

  /** `rank` strictly decreases along every edge between stored packages:
      the store holds no cycle. Content hashing makes cycles impossible;
      the walks that recurse without a visited set rely on it to end. */
  ghost predicate Ranked(store: Store, rank: map<Hash, nat>) {
    forall h :: h in store ==>
      && h in rank
      && forall i :: 0 <= i < |store[h].deps| && store[h].deps[i].hash in store ==>
           store[h].deps[i].hash in rank && rank[store[h].deps[i].hash] < rank[h]
  }

  /** The rank of a hash, 0 for a hash without one. */
  function RankOf(rank: map<Hash, nat>, h: Hash): nat {
    if h in rank then rank[h] else 0
  }

  /** A bound above the rank of every stored target of `deps`. */
  ghost function RankBound(rank: map<Hash, nat>, deps: seq<Dependency>): (b: nat)
    ensures forall i :: 0 <= i < |deps| ==> RankOf(rank, deps[i].hash) < b
  {
    if deps == [] then 0
    else
      var b := RankBound(rank, deps[1..]);
      assert forall i :: 1 <= i < |deps| ==> deps[i] == deps[1..][i - 1];
      if RankOf(rank, deps[0].hash) < b then b else RankOf(rank, deps[0].hash) + 1
  }
}
