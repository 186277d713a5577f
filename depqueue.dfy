/** `DependencyQueue` of gxutil/pm.go: a FIFO of dependency edges and the
    set of hashes ever added, so that no hash is queued twice during the
    queue's lifetime. */
module DepQueue {
  import opened Common
  import opened PkgFile

  /** No two edges of `s` share a hash. */
  ghost predicate DistinctHashes(s: seq<Dependency>) {
    forall i: nat, j: nat :: i < j < |s| ==> HashOf(s, i) != HashOf(s, j)
  }

  /** Two hash-distinct lists with no hash in common put together. */
  lemma DistinctHashesAppend(a: seq<Dependency>, b: seq<Dependency>)
    requires DistinctHashes(a) && DistinctHashes(b) && DepHashes(a) !! DepHashes(b)
    ensures DistinctHashes(a + b)
  {
    var c := a + b;
    forall i: nat, j: nat | i < j < |c| ensures HashOf(c, i) != HashOf(c, j) {
      if j < |a| {
        assert HashOf(a, i) != HashOf(a, j);
      } else if i >= |a| {
        assert HashOf(b, i - |a|) != HashOf(b, j - |a|);
      } else {
        assert c[i].hash == a[i].hash && a[i].hash in DepHashes(a);
        assert c[j].hash == b[j - |a|].hash && b[j - |a|].hash in DepHashes(b);
      }
    }
  }

  /** A prefix of a hash-distinct list is hash-distinct. */
  lemma DistinctHashesPrefix(s: seq<Dependency>, n: nat)
    requires DistinctHashes(s) && n <= |s|
    ensures DistinctHashes(s[..n])
  {
    forall i: nat, j: nat | i < j < n ensures HashOf(s[..n], i) != HashOf(s[..n], j) {
      assert HashOf(s, i) != HashOf(s, j);
    }
  }

  /** The edges of `deps` that `AddPackageDependencies` appends when the
      queue has already seen the hashes `seen`: each edge whose hash is
      neither seen nor carried by an earlier edge of the list. */
  function NewDeps(seen: set<Hash>, deps: seq<Dependency>): seq<Dependency>
  {
    if deps == [] then []
    else
      var n := |deps| - 1;
      NewDeps(seen, deps[..n]) + (if deps[n].hash in seen + DepHashes(deps[..n]) then [] else [deps[n]])
  }

  /** The new edges are edges of the list, carry pairwise distinct hashes,
      and carry exactly the list's hashes that were not seen. */
  lemma {:induction false} NewDepsFacts(seen: set<Hash>, deps: seq<Dependency>)
    ensures DistinctHashes(NewDeps(seen, deps))
    ensures DepHashes(NewDeps(seen, deps)) == DepHashes(deps) - seen
    ensures forall k :: 0 <= k < |NewDeps(seen, deps)| ==> NewDeps(seen, deps)[k] in deps
  {
    if deps != [] {
      var n := |deps| - 1;
      var p := NewDeps(seen, deps[..n]);
      NewDepsFacts(seen, deps[..n]);
      assert deps == deps[..n] + [deps[n]];
      DepHashesAppend(deps[..n], [deps[n]]);
      assert DepHashes([deps[n]]) == {deps[n].hash};
      if deps[n].hash !in seen + DepHashes(deps[..n]) {
        assert NewDeps(seen, deps) == p + [deps[n]];
        DepHashesAppend(p, [deps[n]]);
        DistinctHashesAppend(p, [deps[n]]);
        assert forall k :: 0 <= k < |p| ==> p[k].hash in DepHashes(p);
      } else {
        assert NewDeps(seen, deps) == p;
        assert DepHashes(deps) - seen == DepHashes(deps[..n]) - seen;
      }
    }
  }

  /** One more edge of the list: `NewDeps` grows by that edge exactly when
      its hash is new, and the seen set by its hash. */
  lemma NewDepsStep(seen: set<Hash>, deps: seq<Dependency>, i: nat)
    requires i < |deps|
    ensures NewDeps(seen, deps[..i + 1]) ==
      NewDeps(seen, deps[..i]) + (if deps[i].hash in seen + DepHashes(deps[..i]) then [] else [deps[i]])
    ensures seen + DepHashes(deps[..i + 1]) == seen + DepHashes(deps[..i]) + {deps[i].hash}
  {
    assert deps[..i + 1][..i] == deps[..i];
    DepHashesPrefixStep(deps, i);
  }

  /** Appending the new edges to a hash-distinct history keeps it distinct,
      and its hashes become the old ones plus the list's. */
  lemma AppendNewKeepsValid(history: seq<Dependency>, seen: set<Hash>, deps: seq<Dependency>)
    requires DistinctHashes(history) && seen == DepHashes(history)
    ensures DistinctHashes(history + NewDeps(seen, deps))
    ensures DepHashes(history + NewDeps(seen, deps)) == seen + DepHashes(deps)
  {
    var n := NewDeps(seen, deps);
    NewDepsFacts(seen, deps);
    DepHashesAppend(history, n);
    DistinctHashesAppend(history, n);
    assert forall k :: 0 <= k < |history| ==> history[k].hash in seen;
    assert forall k :: 0 <= k < |n| ==> n[k].hash in DepHashes(n);
  }

  /** Appending one element after a concatenation. */
  lemma AppendAssoc<T>(a: seq<T>, b: seq<T>, x: T)
    ensures (a + b) + [x] == a + (b + [x])
  {
  }

  /** `q` is the last `|q|` elements of `h`. */
  ghost predicate SuffixOf<T>(q: seq<T>, h: seq<T>) {
    |q| <= |h| && forall i :: 0 <= i < |q| ==> q[i] == h[|h| - |q| + i]
  }

  /** A suffix of `h` with `n` appended is a suffix of `h + n`. */
  lemma SuffixAppend<T>(h: seq<T>, q: seq<T>, n: seq<T>)
    requires SuffixOf(q, h)
    ensures SuffixOf(q + n, h + n)
  {
    forall i | 0 <= i < |q + n| ensures (q + n)[i] == (h + n)[|h + n| - |q + n| + i] {
      if i < |q| {
        assert (q + n)[i] == q[i];
      }
    }
  }

  /** Dropping the first element of a suffix leaves a suffix. */
  lemma SuffixTail<T>(q: seq<T>, h: seq<T>)
    requires SuffixOf(q, h) && q != []
    ensures SuffixOf(q[1..], h)
  {
    forall i | 0 <= i < |q| - 1 ensures q[1..][i] == h[|h| - |q[1..]| + i] {
      assert q[1..][i] == q[i + 1];
    }
  }

  class DependencyQueue {
    /** The edges waiting, oldest first. */
    var queue: seq<Dependency>
    /** The hashes ever added (Go: `added[h] == true`; the map never holds false). */
    var added: set<Hash>
    /** Every edge ever appended, in order. */
    ghost var history: seq<Dependency>

    /** The queue is the unpopped tail of the history, the added set is the
        history's hashes, and the history never repeats a hash. */
    ghost predicate Valid()
      reads this
    {
      && SuffixOf(queue, history)
      && added == DepHashes(history)
      && DistinctHashes(history)
    }

    /** `NewDependencyQueue` (the capacity hint has no observable effect). */
    constructor ()
      ensures Valid()
      ensures queue == [] && added == {} && history == []
    {
      queue := [];
      added := {};
      history := [];
    }

    /** `AddPackageDependencies`: append every edge of `pkg` whose hash was
        never added, mark it added, and return how many were appended. */
    method AddPackageDependencies(pkg: Package) returns (count: int)
      requires Valid()
      modifies this
      ensures Valid()
      ensures queue == old(queue) + NewDeps(old(added), pkg.deps)
      ensures history == old(history) + NewDeps(old(added), pkg.deps)
      ensures added == old(added) + DepHashes(pkg.deps)
      ensures count == |NewDeps(old(added), pkg.deps)|
    {
      ghost var q0, h0, a0 := queue, history, added;
      ghost var appended: seq<Dependency> := [];
      count := 0;
      var i := 0;
      while i < |pkg.deps|
        invariant 0 <= i <= |pkg.deps|
        invariant appended == NewDeps(a0, pkg.deps[..i])
        invariant queue == q0 + appended && history == h0 + appended
        invariant added == a0 + DepHashes(pkg.deps[..i])
        invariant count == |appended|
      {
        var dep := pkg.deps[i];
        NewDepsStep(a0, pkg.deps, i);
        if dep.hash !in added {
          AppendAssoc(q0, appended, dep);
          AppendAssoc(h0, appended, dep);
          queue := queue + [dep];
          history := history + [dep];
          appended := appended + [dep];
          count := count + 1;
          added := added + {dep.hash};
        }
        i := i + 1;
      }
      assert pkg.deps[..i] == pkg.deps;
      AppendNewKeepsValid(h0, a0, pkg.deps);
      SuffixAppend(h0, q0, NewDeps(a0, pkg.deps));
    }

    /** `Len`: the number of edges waiting. */
    method Len() returns (n: int)
      requires Valid()
      ensures n == |queue|
    {
      n := |queue|;
    }

    /** `Pop`: nothing (Go: nil) on an empty queue, which is left as it is;
        otherwise the oldest edge, which leaves the queue. */
    method Pop() returns (d: Option<Dependency>)
      requires Valid()
      modifies this
      ensures Valid()
      ensures old(queue) == [] ==> d == None && queue == []
      ensures old(queue) != [] ==> d == Some(old(queue)[0]) && queue == old(queue)[1..]
      ensures history == old(history) && added == old(added)
    {
      var n := Len();
      if n == 0 {
        return None;
      }
      d := Some(queue[0]);
      SuffixTail(queue, history);
      queue := queue[1..];
    }
  }
}
