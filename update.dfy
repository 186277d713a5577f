/** The update cascade of update.go (`RecursiveDepUpdate`,
    `cascadingUpdate`, `fetchAndUpdate`): rewrite every edge that points
    at a hash scheduled for replacement, and republish each package whose
    subtree changed so that its importers can be rewritten in turn.
    Fetching a hash yields the manifest stored under it (content
    addressing); saving and publishing are oracles. */
module Update {
  import opened Common
  import opened PkgFile
  import opened Graph

  /** The replaced hash `from` is `h` itself or lies below the stored
      package `h`: the packages whose republication the cascade owes. */
  ghost predicate Taints(store: Store, from: Hash, h: Hash) {
    h == from || (h in store && from in Reachable(store, DepHashes(store[h].deps)))
  }

  /** What became of the edge `d`, now `d2`, once the cascade is over:
      either its hash was found clean and the edge is untouched, or its
      hash was replaced by the one `updates` maps it to, with the version
      either kept or taken from the package stored under the old hash. */
  ghost predicate EdgeOutcome(store: Store, updates: map<Hash, Hash>, checked: set<Hash>,
                              d: Dependency, d2: Dependency) {
    || (d.hash in checked && d2 == d)
    || (&& d.hash in updates && d.hash in store
        && d2 == d.(hash := updates[d.hash], version := d2.version)
        && (d2.version == d.version || d2.version == store[d.hash].version))
  }

  /** The edge `d` has its outcome, and was rewritten exactly when it is
      tainted. */
  ghost predicate Settled(store: Store, from: Hash, updates: map<Hash, Hash>, checked: set<Hash>,
                          d: Dependency, d2: Dependency) {
    EdgeOutcome(store, updates, checked, d, d2) && (Taints(store, from, d.hash) <==> d.hash in updates)
  }

  /** `from` is reachable from a list of edges exactly when one of them is
      tainted. */
  lemma ReachableIffTainted(store: Store, from: Hash, deps: seq<Dependency>)
    ensures from in Reachable(store, DepHashes(deps)) <==>
      exists i :: 0 <= i < |deps| && Taints(store, from, deps[i].hash)
  {
    if from in Reachable(store, DepHashes(deps)) {
      ReachedThroughTainted(store, from, deps);
    }
    if exists i :: 0 <= i < |deps| && Taints(store, from, deps[i].hash) {
      var i :| 0 <= i < |deps| && Taints(store, from, deps[i].hash);
      TaintedReaches(store, from, deps, i);
    }
  }

  lemma ReachedThroughTainted(store: Store, from: Hash, deps: seq<Dependency>)
    requires from in Reachable(store, DepHashes(deps))
    ensures exists i :: 0 <= i < |deps| && Taints(store, from, deps[i].hash)
  {
    var R := DepHashes(deps);
    if from in R {
      var i :| 0 <= i < |deps| && deps[i].hash == from;
      assert Taints(store, from, deps[i].hash);
    } else {
      ReachableSplit(store, R, from);
      var r :| r in R && r in store && from in Reachable(store, DepHashes(store[r].deps));
      var i :| 0 <= i < |deps| && deps[i].hash == r;
      assert Taints(store, from, deps[i].hash);
    }
  }

  lemma TaintedReaches(store: Store, from: Hash, deps: seq<Dependency>, i: nat)
    requires i < |deps| && Taints(store, from, deps[i].hash)
    ensures from in Reachable(store, DepHashes(deps))
  {
    var R := DepHashes(deps);
    var c := deps[i].hash;
    assert c in R;
    ReachableClosed(store, R);
    if c != from {
      ReachableFromChild(store, R, c);
    }
  }

  /** The state shared by one cascade run: the substitutions found so far
      and the hashes known to need none. */
  class Cascade {
    /** The installed packages `ForEachDep` loads children from; a fetch
        of a hash gives the same manifest. */
    const store: Store
    /** The error `GetPackageTo` meets fetching a hash, if any. */
    const fetchErr: Hash -> Option<Error>
    /** The error `SavePackageFile` meets, if any. */
    const save: Package -> Option<Error>
    /** `PublishPackage`: the new hash of a package, or its error. */
    const publish: Package -> Result<Hash>
    /** The hash the run was started to replace. */
    ghost const from: Hash
    /** A ranking of the store along its edges (it holds no cycle). */
    ghost const rank: map<Hash, nat>

    /** `updates`: old hash to new hash. */
    var updates: map<Hash, Hash>
    /** `checked`: hashes whose subtree needs no change. */
    var checked: set<Hash>
    /** Every package saved (and then, unless that failed, published), oldest first. */
    ghost var saved: seq<Package>
    /** For each scheduled hash but `from`, the package whose publication gave its substitute. */
    ghost var republished: map<Hash, Package>

    /** `from` is scheduled; every scheduled hash is tainted and every
        checked one is a stored package that is not; publishing never
        yields the empty hash, which the Go code reads as "unchanged". */
    ghost predicate Valid()
      reads this
    {
      && from in updates
      && (forall k :: k in updates ==> Taints(store, from, k))
      && (forall h :: h in checked ==> h in store && !Taints(store, from, h))
      && Ranked(store, rank)
      && (forall p :: publish(p).Ok? ==> publish(p).value != "")
      && Provenant(store, from, publish, updates, checked, republished)
    }

    /** `RecursiveDepUpdate`'s start: `updates = {from: to}`, nothing checked. */
    constructor (store: Store, fetchErr: Hash -> Option<Error>, save: Package -> Option<Error>,
                 publish: Package -> Result<Hash>, from: Hash, to: Hash, ghost rank: map<Hash, nat>)
      requires Ranked(store, rank)
      requires forall p :: publish(p).Ok? ==> publish(p).value != ""
      ensures Valid()
      ensures updates == map[from := to] && checked == {} && saved == []
      ensures this.store == store && this.fetchErr == fetchErr && this.save == save
      ensures this.publish == publish && this.from == from && this.rank == rank
    {
      this.store := store;
      this.fetchErr := fetchErr;
      this.save := save;
      this.publish := publish;
      this.from := from;
      this.rank := rank;
      updates := map[from := to];
      checked := {};
      saved := [];
      republished := map[];
    }

    /** Scheduled substitutions are never dropped or changed, checked
        hashes stay checked, and saves are only ever added. */
    ghost predicate Grows(updates0: map<Hash, Hash>, checked0: set<Hash>, saved0: seq<Package>)
      reads this
    {
      && (forall k :: k in updates0 ==> k in updates && updates[k] == updates0[k])
      && checked0 <= checked
      && saved0 <= saved
    }

    /** Every hash scheduled since `updates0` ranks below `bound`: a cascade
        into a package never schedules that package itself. */
    ghost predicate NewKeysBelow(updates0: map<Hash, Hash>, bound: nat)
      reads this
    {
      forall k :: k in updates && k !in updates0 ==> RankOf(rank, k) < bound
    }

    /** `cascadingUpdate`: the callback of `ForEachDep` over `cur`'s edges,
        in order. A hash that is not installed ends the walk with
        `ForEachDep`'s error, and so does any error of the callback; the
        edges before the failing one (`failed`) keep their rewrites, as
        the callback writes through `*Dependency`. On success every edge
        is settled, and `cur` changed exactly when the replaced hash lies
        below it. */
    method CascadingUpdate(cur: Package, ghost bound: nat)
      returns (cur2: Package, changed: bool, err: Option<Error>, ghost failed: nat)
      requires Valid()
      requires forall i :: 0 <= i < |cur.deps| && cur.deps[i].hash in store ==> RankOf(rank, cur.deps[i].hash) < bound
      modifies this
      ensures Valid() && Grows(old(updates), old(checked), old(saved)) && NewKeysBelow(old(updates), bound)
      ensures err.Some? ==> !changed
      ensures err.Some? ==> failed < |cur.deps| && Prefix(cur, cur2, failed)
      ensures err.Some? && cur.deps[failed].hash !in store ==> err == Some(NotFound(cur.deps[failed]))
      ensures err.None? ==> cur2.(deps := cur.deps) == cur && |cur2.deps| == |cur.deps|
      ensures err.None? ==> forall i :: 0 <= i < |cur.deps| ==>
        Settled(store, from, updates, checked, cur.deps[i], cur2.deps[i])
      ensures err.None? ==> (changed <==> from in Reachable(store, DepHashes(cur.deps)))
      ensures err.None? && !changed ==> saved == old(saved)
      decreases bound, 4
    {
      changed, err, failed := false, None, 0;
      cur2 := cur;
      var i := 0;
      while i < |cur.deps|
        invariant i <= |cur.deps| && err.None?
        invariant Valid() && Grows(old(updates), old(checked), old(saved)) && NewKeysBelow(old(updates), bound)
        invariant Progress(cur, cur2, i, changed, old(saved))
      {
        cur2, changed, err := CascadeTurn(cur, cur2, i, changed, bound, old(saved));
        if err.Some? {
          return cur2, false, err, i;
        }
        i := i + 1;
      }
      ReachableIffTainted(store, from, cur.deps);
    }

    /** The first `i` edges of `cur` have been through the callback (now
        `cur2`) and the others are untouched: what the `*Dependency`
        rewrites of `ForEachDep` leave behind, also when a later edge fails. */
    ghost predicate Prefix(cur: Package, cur2: Package, i: nat)
      reads this
    {
      && i <= |cur.deps|
      && cur2.(deps := cur.deps) == cur && |cur2.deps| == |cur.deps|
      && (forall j :: i <= j < |cur.deps| ==> cur2.deps[j] == cur.deps[j])
      && (forall j :: 0 <= j < i ==> Settled(store, from, updates, checked, cur.deps[j], cur2.deps[j]))
    }

    /** `Prefix`, and `changed` says one of the first `i` edges was
        tainted; until one was, nothing was saved since `saved0`. */
    ghost predicate Progress(cur: Package, cur2: Package, i: nat, changed: bool, saved0: seq<Package>)
      reads this
    {
      && (!changed ==> saved == saved0)
      && Prefix(cur, cur2, i)
      && (changed <==> exists j :: 0 <= j < i && Taints(store, from, cur.deps[j].hash))
    }

    /** One turn of `ForEachDep` inside `cascadingUpdate`: load the `i`-th
        edge's package (a hash that is not installed is `ForEachDep`'s
        error) and run the callback on it. */
    method CascadeTurn(cur: Package, cur2: Package, i: nat, changed: bool, ghost bound: nat, ghost saved0: seq<Package>)
      returns (cur3: Package, changed2: bool, err: Option<Error>)
      requires Valid() && i < |cur.deps| && Progress(cur, cur2, i, changed, saved0)
      requires forall i :: 0 <= i < |cur.deps| && cur.deps[i].hash in store ==> RankOf(rank, cur.deps[i].hash) < bound
      modifies this
      ensures Valid() && Grows(old(updates), old(checked), old(saved)) && NewKeysBelow(old(updates), bound)
      ensures err.None? ==> Progress(cur, cur3, i + 1, changed2, saved0)
      ensures err.Some? ==> cur3 == cur2 && Prefix(cur, cur3, i)
      ensures cur.deps[i].hash !in store ==> err == Some(NotFound(cur.deps[i]))
      decreases bound, 3
    {
      var d := cur.deps[i];
      if d.hash !in store {
        return cur2, changed, Some(NotFound(d));
      }
      ghost var u0, c0 := updates, checked;
      var d2, hit;
      d2, hit, err := UpdateEdge(d, store[d.hash], bound);
      KeepOutcomes(store, from, u0, c0, updates, checked, cur.deps, cur2.deps, i);
      if err.Some? {
        return cur2, changed, err;
      }
      cur3 := cur2.(deps := cur2.deps[i := d2]);
      changed2 := changed || hit;
    }

    /** The callback for one edge `d`, whose package `child` was loaded
        from the store: a checked hash is passed over; a scheduled one is
        rewritten to its replacement, taking `child`'s version; any other
        is fetched and cascaded into, and either scheduled (the edge is
        rewritten, its version kept) or checked. `hit` says the edge was
        rewritten. */
    method UpdateEdge(d: Dependency, child: Package, ghost bound: nat)
      returns (d2: Dependency, hit: bool, err: Option<Error>)
      requires Valid() && d.hash in store && child == store[d.hash] && RankOf(rank, d.hash) < bound
      modifies this
      ensures Valid() && Grows(old(updates), old(checked), old(saved)) && NewKeysBelow(old(updates), bound)
      ensures err.None? && d.hash in old(checked) ==> d2 == d && !hit && updates == old(updates) && checked == old(checked)
      ensures err.None? && d.hash !in old(checked) && d.hash in old(updates) ==>
        d2 == d.(hash := old(updates)[d.hash], version := child.version) && hit
      ensures err.None? ==> EdgeOutcome(store, updates, checked, d, d2)
      ensures err.None? ==> (hit <==> Taints(store, from, d.hash)) && (hit <==> d.hash in updates)
      ensures err.None? && d.hash !in old(checked) && d.hash !in old(updates) && hit ==>
        && d2 == d.(hash := updates[d.hash])
        && |saved| > |old(saved)| && d.hash in republished && publish(republished[d.hash]) == Ok(d2.hash)
        && Rewritten(store, from, updates, checked, d.hash, republished[d.hash])
      ensures err.None? && !hit ==> saved == old(saved)
      decreases bound, 2
    {
      if d.hash in checked {
        return d, false, None;
      }
      if d.hash in updates {
        return d.(hash := updates[d.hash], version := child.version), true, None;
      }
      d2, hit, err := FetchEdge(d, bound);
    }

    /** The callback's last branch, for a hash neither checked nor
        scheduled: cascade into its package; a changed subtree schedules
        the new hash and the edge is rewritten to it, its version kept; an
        unchanged one marks the hash checked. */
    method FetchEdge(d: Dependency, ghost bound: nat) returns (d2: Dependency, hit: bool, err: Option<Error>)
      requires Valid() && d.hash in store && d.hash !in updates && d.hash !in checked && RankOf(rank, d.hash) < bound
      modifies this
      ensures Valid() && Grows(old(updates), old(checked), old(saved)) && NewKeysBelow(old(updates), bound)
      ensures err.None? ==> (hit <==> Taints(store, from, d.hash)) && (hit <==> d.hash in updates)
      ensures err.None? && hit ==>
        && d2 == d.(hash := updates[d.hash])
        && |saved| > |old(saved)| && d.hash in republished && publish(republished[d.hash]) == Ok(d2.hash)
        && Rewritten(store, from, updates, checked, d.hash, republished[d.hash])
      ensures err.None? && !hit ==> d2 == d && d.hash in checked && saved == old(saved)
      decreases bound, 1
    {
      var nchild;
      nchild, err := FetchAndUpdate(d.hash);
      if err.Some? {
        return d, false, err;
      }
      if nchild != "" {
        Schedule(d.hash, nchild, saved[|saved| - 1]);
        return d.(hash := nchild), true, None;
      }
      MarkChecked(d.hash);
      return d, false, None;
    }

    /** `updates[h] = nh`, for a tainted hash `h` whose rewritten package
        `p` was published as `nh`. */
    method Schedule(h: Hash, nh: Hash, ghost p: Package)
      requires Valid() && h !in updates && Taints(store, from, h)
      requires publish(p) == Ok(nh) && Rewritten(store, from, updates, checked, h, p)
      modifies this
      ensures Valid()
      ensures updates == old(updates)[h := nh] && republished == old(republished)[h := p]
      ensures checked == old(checked) && saved == old(saved)
    {
      ghost var u1, r1 := updates, republished;
      updates := updates[h := nh];
      republished := republished[h := p];
      KeepRewritten(store, from, u1, checked, updates, checked, h, p);
      KeepProvenant(store, from, publish, u1, checked, r1, updates, checked, republished);
    }

    /** `checked[h] = true`, for a stored hash `h` that is not tainted. */
    method MarkChecked(h: Hash)
      requires Valid() && h in store && !Taints(store, from, h)
      modifies this
      ensures Valid()
      ensures checked == old(checked) + {h}
      ensures updates == old(updates) && republished == old(republished) && saved == old(saved)
    {
      ghost var c1 := checked;
      checked := checked + {h};
      KeepProvenant(store, from, publish, updates, c1, republished, updates, checked, republished);
    }

    /** `fetchAndUpdate`: fetch `h` (a fetch error is returned), cascade
        into its package, and, only when that changed it, save and
        republish it; the new hash is the answer. "" means the subtree of
        `h` needed no change. */
    method FetchAndUpdate(h: Hash) returns (nchild: Hash, err: Option<Error>)
      requires Valid() && h in store && h !in updates
      modifies this
      ensures Valid() && Grows(old(updates), old(checked), old(saved)) && NewKeysBelow(old(updates), RankOf(rank, h))
      ensures fetchErr(h).Some? ==> err == fetchErr(h) && updates == old(updates) && checked == old(checked)
      ensures err.None? ==> (nchild != "" <==> Taints(store, from, h))
      ensures err.Some? ==> nchild == ""
      ensures err.None? && nchild == "" ==> saved == old(saved)
      ensures nchild != "" ==> |saved| > |old(saved)| && publish(saved[|saved| - 1]) == Ok(nchild)
      ensures nchild != "" ==> Rewritten(store, from, updates, checked, h, saved[|saved| - 1])
      decreases RankOf(rank, h) + 1, 0
    {
      var ferr := fetchErr(h);
      if ferr.Some? {
        return "", ferr;
      }
      var pkg := store[h];
      var pkg2, changed;
      ghost var failed;
      pkg2, changed, err, failed := CascadingUpdate(pkg, RankOf(rank, h));
      if err.Some? {
        return "", err;
      }
      assert changed <==> Taints(store, from, h) by {
        assert h != from;
      }
      if !changed {
        return "", None;
      }
      saved := saved + [pkg2];
      var serr := save(pkg2);
      if serr.Some? {
        return "", serr;
      }
      var pub := publish(pkg2);
      if pub.Err? {
        return "", Some(pub.error);
      }
      return pub.value, None;
    }
  }

  /** `p` is the package stored under `h` with each of its edges settled. */
  ghost predicate Rewritten(store: Store, from: Hash, updates: map<Hash, Hash>, checked: set<Hash>, h: Hash, p: Package) {
    && h in store
    && p.(deps := store[h].deps) == store[h] && |p.deps| == |store[h].deps|
    && (forall i :: 0 <= i < |p.deps| ==> EdgeOutcome(store, updates, checked, store[h].deps[i], p.deps[i]))
  }

  /** A rewritten package stays rewritten as the state grows. */
  lemma KeepRewritten(store: Store, from: Hash, u0: map<Hash, Hash>, c0: set<Hash>, u1: map<Hash, Hash>, c1: set<Hash>,
                      h: Hash, p: Package)
    requires forall k :: k in u0 ==> k in u1 && u1[k] == u0[k]
    requires c0 <= c1
    requires Rewritten(store, from, u0, c0, h, p)
    ensures Rewritten(store, from, u1, c1, h, p)
  {
    forall i | 0 <= i < |p.deps|
      ensures EdgeOutcome(store, u1, c1, store[h].deps[i], p.deps[i])
    {
      assert EdgeOutcome(store, u0, c0, store[h].deps[i], p.deps[i]);
    }
  }

  /** Each scheduled hash but `from` is the published hash of the package
      stored under it with its edges settled. */
  ghost predicate Provenant(store: Store, from: Hash, publish: Package -> Result<Hash>,
                            updates: map<Hash, Hash>, checked: set<Hash>, republished: map<Hash, Package>) {
    forall k :: k in updates && k != from ==>
      && k in republished && publish(republished[k]) == Ok(updates[k])
      && Rewritten(store, from, updates, checked, k, republished[k])
  }

  /** Provenance survives the growth of the state, given that every newly
      scheduled hash comes with its own. */
  lemma KeepProvenant(store: Store, from: Hash, publish: Package -> Result<Hash>,
                      u0: map<Hash, Hash>, c0: set<Hash>, r0: map<Hash, Package>,
                      u1: map<Hash, Hash>, c1: set<Hash>, r1: map<Hash, Package>)
    requires Provenant(store, from, publish, u0, c0, r0)
    requires forall k :: k in u0 ==> k in u1 && u1[k] == u0[k]
    requires c0 <= c1
    requires forall k :: k in u0 && k != from ==> k in r1 && r1[k] == r0[k]
    requires forall k :: k in u1 && k !in u0 ==>
      k in r1 && publish(r1[k]) == Ok(u1[k]) && Rewritten(store, from, u1, c1, k, r1[k])
    ensures Provenant(store, from, publish, u1, c1, r1)
  {
    forall k | k in u1 && k != from
      ensures k in r1 && publish(r1[k]) == Ok(u1[k]) && Rewritten(store, from, u1, c1, k, r1[k])
    {
      if k in u0 {
        KeepRewritten(store, from, u0, c0, u1, c1, k, r0[k]);
      }
    }
  }

  /** The outcomes of the edges already processed survive the growth of
      the state by a later edge. */
  lemma KeepOutcomes(store: Store, from: Hash, u0: map<Hash, Hash>, c0: set<Hash>, u1: map<Hash, Hash>, c1: set<Hash>,
                     deps: seq<Dependency>, deps2: seq<Dependency>, i: nat)
    requires i <= |deps| && |deps2| == |deps|
    requires forall k :: k in u0 ==> k in u1 && u1[k] == u0[k]
    requires c0 <= c1
    requires forall k :: k in u1 ==> Taints(store, from, k)
    requires forall j :: 0 <= j < i ==> Settled(store, from, u0, c0, deps[j], deps2[j])
    ensures forall j :: 0 <= j < i ==> Settled(store, from, u1, c1, deps[j], deps2[j])
  {
  }

  /** `RecursiveDepUpdate`: replace `from` by `to` throughout `pkg`'s
      tree. `cwd` is what `os.Getwd` returned; its error is passed on.
      `subst` is the final `updates` map: it still sends `from` to `to`,
      each of its hashes reaches `from`, and each but `from` is sent to
      the published hash of its package with the edges settled
      (`republished`); `clean` is the final `checked` set. On success every edge of `pkg`
      that reaches `from` is rewritten to its substitute and every other
      edge is left as it was, so a package that does not reach `from`
      comes back unchanged. The Go callback rewrites the edges of `*pkg`
      in place, so a failure at edge `failed` leaves the edges before it
      rewritten in the same way and the rest as they were. */
  method RecursiveDepUpdate(store: Store, fetchErr: Hash -> Option<Error>, save: Package -> Option<Error>,
                            publish: Package -> Result<Hash>, pkg: Package, from: Hash, to: Hash,
                            cwd: Result<string>, ghost rank: map<Hash, nat>)
    returns (pkg2: Package, err: Option<Error>, ghost subst: map<Hash, Hash>, ghost failed: nat,
             ghost clean: set<Hash>, ghost republished: map<Hash, Package>)
    requires Ranked(store, rank)
    requires forall p :: publish(p).Ok? ==> publish(p).value != ""
    ensures cwd.Err? ==> pkg2 == pkg && err == Some(cwd.error)
    ensures cwd.Ok? ==> from in subst && subst[from] == to && forall k :: k in subst ==> Taints(store, from, k)
    ensures forall h :: h in clean ==> h in store && !Taints(store, from, h)
    ensures Provenant(store, from, publish, subst, clean, republished)
    ensures pkg2.(deps := pkg.deps) == pkg && |pkg2.deps| == |pkg.deps|
    ensures err.None? ==> failed == |pkg.deps|
    ensures err.Some? && cwd.Ok? ==> failed < |pkg.deps|
    ensures err.Some? && cwd.Ok? && pkg.deps[failed].hash !in store ==> err == Some(NotFound(pkg.deps[failed]))
    ensures forall i :: 0 <= i < |pkg.deps| ==>
      if i < failed && Taints(store, from, pkg.deps[i].hash) then
        pkg.deps[i].hash in subst && pkg2.deps[i].hash == subst[pkg.deps[i].hash] && pkg2.deps[i].name == pkg.deps[i].name
      else pkg2.deps[i] == pkg.deps[i]
    ensures forall i :: 0 <= i < |pkg.deps| && i < failed ==> EdgeOutcome(store, subst, clean, pkg.deps[i], pkg2.deps[i])
    ensures err.None? && from !in Reachable(store, DepHashes(pkg.deps)) ==> pkg2 == pkg
  {
    subst, failed, clean, republished := map[], 0, {}, map[];
    if cwd.Err? {
      return pkg, Some(cwd.error), subst, failed, clean, republished;
    }
    var c := new Cascade(store, fetchErr, save, publish, from, to, rank);
    var changed;
    pkg2, changed, err, failed := c.CascadingUpdate(pkg, RankBound(rank, pkg.deps));
    subst, clean, republished := c.updates, c.checked, c.republished;
    if err.None? {
      failed := |pkg.deps|;
    }
    forall i | 0 <= i < |pkg.deps|
      ensures if i < failed && Taints(store, from, pkg.deps[i].hash) then
        pkg.deps[i].hash in subst && pkg2.deps[i].hash == subst[pkg.deps[i].hash] && pkg2.deps[i].name == pkg.deps[i].name
      else pkg2.deps[i] == pkg.deps[i]
      ensures i < failed ==> EdgeOutcome(store, subst, clean, pkg.deps[i], pkg2.deps[i])
    {
      if i < failed {
        assert Settled(store, from, c.updates, c.checked, pkg.deps[i], pkg2.deps[i]);
      }
    }
    if err.None? && from !in Reachable(store, DepHashes(pkg.deps)) {
      ReachableIffTainted(store, from, pkg.deps);
      assert pkg2.deps == pkg.deps;
    }
  }
}
