/** The terminal helpers of ui.go: the yes/no prompt, the dependency tree
    `gx deps --tree` prints, its filter, and the lines it renders. */
module Ui {
  import opened Common
  import opened Strings
  import opened PkgFile
  import opened Graph

  // ---------------------------------------------------------------------
  // The yes/no prompt

  /** The choices shown after the question: the default in capitals. */
  function Opts(def: bool): (r: string)
    ensures def ==> r == "[Y/n]"
    ensures !def ==> r == "[y/N]"
  {
    if def then "[Y/n]" else "[y/N]"
  }

  /** A line of input the prompt accepts as an answer. */
  predicate IsAnswer(line: string) {
    var v := ToLower(line);
    v == "" || v == "y" || v == "n"
  }

  /** The answer a line gives: empty is the default. */
  function Answer(line: string, def: bool): bool
    requires IsAnswer(line)
  {
    var v := ToLower(line);
    if v == "" then def else v == "y"
  }

  /** The index of the first line that is an answer. */
  function FirstAnswer(lines: seq<string>): (k: Option<nat>)
    ensures k.Some? ==> k.value < |lines| && IsAnswer(lines[k.value])
    ensures k.Some? ==> forall j :: 0 <= j < k.value ==> !IsAnswer(lines[j])
    ensures k.None? ==> forall j :: 0 <= j < |lines| ==> !IsAnswer(lines[j])
  {
    if lines == [] then None
    else if IsAnswer(lines[0]) then Some(0)
    else match FirstAnswer(lines[1..])
      case None => None
      case Some(k) => Some(k + 1)
  }

  /** `yesNoPrompt` (ui.go:23-45) over the lines of standard input: the
      question is printed with its choices, every line that is not an
      answer prints a complaint, and the first answer is returned. `None`
      is the panic when input ends without an answer. */
  method YesNoPrompt(prompt: string, def: bool, input: seq<string>)
    returns (shown: string, complaints: nat, r: Option<bool>)
    ensures shown == prompt + " " + Opts(def) + " "
    ensures r.None? <==> FirstAnswer(input).None?
    ensures r.None? ==> complaints == |input|
    ensures r.Some? ==>
      complaints == FirstAnswer(input).value && r.value == Answer(input[FirstAnswer(input).value], def)
    ensures r == Some(def) <== |input| > 0 && ToLower(input[0]) == ""
  {
    var opts := "[y/N]";
    if def {
      opts := "[Y/n]";
    }
    shown := prompt + " " + opts + " ";
    complaints := 0;
    var i := 0;
    while i < |input|
      invariant 0 <= i <= |input| && complaints == i
      invariant forall j :: 0 <= j < i ==> !IsAnswer(input[j])
    {
      var val := ToLower(input[i]);
      if val == "" {
        return shown, complaints, Some(def);
      } else if val == "y" {
        return shown, complaints, Some(true);
      } else if val == "n" {
        return shown, complaints, Some(false);
      }
      complaints := complaints + 1;
      i := i + 1;
    }
    r := None;
  }

  /** Whatever the case of the letters, "Y" and "N" answer yes and no. */
  lemma UpperCaseAnswers(def: bool)
    ensures IsAnswer("Y") && Answer("Y", def)
    ensures IsAnswer("N") && !Answer("N", def)
  {
    assert ToLower("Y") == "y";
    assert ToLower("N") == "n";
  }

  // ---------------------------------------------------------------------
  // The dependency tree

  /** A `depTreeNode` below the root: the edge that leads to it and the
      nodes of its package's dependencies. (The root's edge is nil; its
      children are the tree's top level.) */
  datatype DepNode = DepNode(edge: Dependency, children: seq<DepNode>)

  /** The nodes `cs` are the tree of the edges `deps`: one per edge, in
      order, each carrying its edge, with the tree of the stored package's
      own edges below. */
  predicate Unfolds(store: Store, cs: seq<DepNode>, deps: seq<Dependency>) {
    && |cs| == |deps|
    && forall i :: 0 <= i < |cs| ==>
         && cs[i].edge == deps[i]
         && deps[i].hash in store
         && Unfolds(store, cs[i].children, store[deps[i].hash].deps)
  }

  /** `genDepsTree` (ui.go:62-78) for the edges of a package: a node per
      edge, built by `ForEachDep` in order; the first package that cannot
      be loaded ends the walk with its error. `rank` and `bound` only
      show that the recursion ends: the store holds no cycle. */
  function GenDeps(store: Store, ghost rank: map<Hash, nat>, deps: seq<Dependency>, ghost bound: nat)
    : (r: Result<seq<DepNode>>)
    requires Ranked(store, rank)
    requires forall i :: 0 <= i < |deps| && deps[i].hash in store ==> RankOf(rank, deps[i].hash) < bound
    ensures r.Ok? ==> Unfolds(store, r.value, deps)
    ensures r.Err? ==> exists d: Dependency :: d.hash !in store && r.error == NotFound(d)
    decreases bound, |deps|
  {
    if deps == [] then Ok([])
    else if deps[0].hash !in store then Err(NotFound(deps[0]))
    else
      var h := deps[0].hash;
      assert RankOf(rank, h) < bound;
      match GenDeps(store, rank, store[h].deps, rank[h])
      case Err(e) => Err(e)
      case Ok(sub) =>
        match GenDeps(store, rank, deps[1..], bound)
        case Err(e) => Err(e)
        case Ok(rest) =>
          assert forall i :: 1 <= i < |deps| ==> deps[i] == deps[1..][i - 1];
          Ok([DepNode(deps[0], sub)] + rest)
  }

  /** The tree of a set of edges is unique, and `GenDeps` builds it
      whenever it exists: it fails only when some package reachable
      through the edges is not stored. */
  lemma {:induction false} GenDepsComplete(store: Store, rank: map<Hash, nat>, deps: seq<Dependency>, bound: nat,
                                           cs: seq<DepNode>)
    requires Ranked(store, rank)
    requires forall i :: 0 <= i < |deps| && deps[i].hash in store ==> RankOf(rank, deps[i].hash) < bound
    requires Unfolds(store, cs, deps)
    ensures GenDeps(store, rank, deps, bound) == Ok(cs)
    decreases bound, |deps|
  {
    if deps != [] {
      var h := deps[0].hash;
      GenDepsComplete(store, rank, store[h].deps, rank[h], cs[0].children);
      assert Unfolds(store, cs[1..], deps[1..]) by {
        forall i | 0 <= i < |cs| - 1
          ensures cs[1..][i].edge == deps[1..][i] && deps[1..][i].hash in store
          ensures Unfolds(store, cs[1..][i].children, store[deps[1..][i].hash].deps)
        {
          assert cs[1..][i] == cs[i + 1] && deps[1..][i] == deps[i + 1];
        }
      }
      GenDepsComplete(store, rank, deps[1..], bound, cs[1..]);
      assert cs == [cs[0]] + cs[1..];
    }
  }

  /** Every edge of a tree: the nodes' own and their descendants'. */
  function Edges(cs: seq<DepNode>): (r: seq<Dependency>)
    ensures forall i :: 0 <= i < |cs| ==> cs[i].edge in r
  {
    if cs == [] then []
    else [cs[0].edge] + Edges(cs[0].children) + Edges(cs[1..])
  }

  /** An edge shows up under the filter: its hash or its name is it. */
  predicate Hit(d: Dependency, filter: string) {
    d.hash == filter || d.name == filter
  }

  /** `matches` (ui.go:80-95): the empty filter matches everything;
      otherwise a node matches when its edge is hit or a child matches. */
  predicate Matches(n: DepNode, filter: string) {
    filter == "" || Hit(n.edge, filter) || AnyMatches(n.children, filter)
  }

  /** Some node of `cs` matches. */
  predicate AnyMatches(cs: seq<DepNode>, filter: string) {
    cs != [] && (Matches(cs[0], filter) || AnyMatches(cs[1..], filter))
  }

  /** A node matches exactly when the filter is empty or the filter hits
      the node's edge or an edge below it. */
  lemma {:induction false} MatchesBelow(cs: seq<DepNode>, filter: string)
    requires filter != ""
    ensures AnyMatches(cs, filter) <==> exists d :: d in Edges(cs) && Hit(d, filter)
  {
    if cs != [] {
      MatchesBelow(cs[0].children, filter);
      MatchesBelow(cs[1..], filter);
      assert Edges(cs) == [cs[0].edge] + Edges(cs[0].children) + Edges(cs[1..]);
      if d :| d in Edges(cs) && Hit(d, filter) {
        if d != cs[0].edge && d !in Edges(cs[0].children) {
          assert d in Edges(cs[1..]);
        }
      }
    }
  }

  /** The children that match, in their order: `toprint`. */
  function Filtered(cs: seq<DepNode>, filter: string): (r: seq<DepNode>)
    ensures |r| <= |cs|
    ensures r == [] <==> !AnyMatches(cs, filter)
  {
    if cs == [] then []
    else if Matches(cs[0], filter) then [cs[0]] + Filtered(cs[1..], filter)
    else Filtered(cs[1..], filter)
  }

  /** The children printed are exactly the children that match. */
  lemma {:induction false} FilteredMembers(cs: seq<DepNode>, filter: string)
    ensures forall n :: n in Filtered(cs, filter) <==> n in cs && Matches(n, filter)
  {
    if cs != [] {
      FilteredMembers(cs[1..], filter);
    }
  }

  /** With the empty filter every child is printed. */
  lemma {:induction false} FilteredAll(cs: seq<DepNode>)
    ensures Filtered(cs, "") == cs
  {
    if cs != [] {
      FilteredAll(cs[1..]);
      assert cs == [cs[0]] + cs[1..];
    }
  }

  // ---------------------------------------------------------------------
  // Rendering

  const TBar: string := "│"
  const TEnd: string := "└"
  const TDash: string := "─"
  const TTree: string := "├"

  /** The text printed for a node: its hash when quiet, otherwise the
      branch, the name in bold, the hash and the version, tab separated. */
  function Label(d: Dependency, last: bool, quiet: bool): (r: string)
    ensures quiet ==> r == d.hash
    ensures !quiet ==> |r| >= 2 && r[..2] == (if last then TEnd else TTree) + TDash
  {
    if quiet then d.hash
    else (if last then TEnd else TTree) + TDash + " \U{1b}[1m" + d.name + "\U{1b}[0m\t" + d.hash + "\t" + d.version
  }

  /** The prefix of a node's children: a bar continues the branch unless
      the node was the last one printed. */
  function NextPrefix(prefix: string, last: bool): (r: string)
    ensures |r| == |prefix| + 3 && r[..|prefix|] == prefix
    ensures last ==> r[|prefix|..] == "   "
    ensures !last ==> r[|prefix|..] == TBar + "  "
  {
    if last then prefix + "   " else prefix + TBar + "  "
  }

  /** The lines `rec` (ui.go:107-136) prints for the children `cs` under
      `prefix`: for each matching child, its label, then its own children
      one level deeper; the last matching child closes the branch. */
  function Render(cs: seq<DepNode>, filter: string, quiet: bool, prefix: string): seq<string>
  {
    if cs == [] then []
    else if !Matches(cs[0], filter) then Render(cs[1..], filter, quiet, prefix)
    else
      var last := !AnyMatches(cs[1..], filter);
      [prefix + Label(cs[0].edge, last, quiet)]
        + Render(cs[0].children, filter, quiet, NextPrefix(prefix, last))
        + Render(cs[1..], filter, quiet, prefix)
  }

  /** The lines for one printed child. */
  function Block(n: DepNode, last: bool, filter: string, quiet: bool, prefix: string): seq<string> {
    [prefix + Label(n.edge, last, quiet)] + Render(n.children, filter, quiet, NextPrefix(prefix, last))
  }

  /** The lines for the children to print, in order; the last one gets
      the closing branch. */
  function Emit(toprint: seq<DepNode>, filter: string, quiet: bool, prefix: string): seq<string> {
    if toprint == [] then []
    else Block(toprint[0], |toprint| == 1, filter, quiet, prefix) + Emit(toprint[1..], filter, quiet, prefix)
  }

  /** Rendering the children is emitting the matching ones. */
  lemma {:induction false} RenderIsEmit(cs: seq<DepNode>, filter: string, quiet: bool, prefix: string)
    ensures Render(cs, filter, quiet, prefix) == Emit(Filtered(cs, filter), filter, quiet, prefix)
  {
    if cs != [] {
      RenderIsEmit(cs[1..], filter, quiet, prefix);
      if Matches(cs[0], filter) {
        var t := Filtered(cs, filter);
        assert t[1..] == Filtered(cs[1..], filter);
      }
    }
  }

  /** Every line starts with `prefix`. */
  predicate Under(lines: seq<string>, prefix: string) {
    forall line :: line in lines ==> |prefix| <= |line| && line[..|prefix|] == prefix
  }

  /** Every line printed below a prefix starts with it. */
  lemma {:induction false} RenderPrefix(cs: seq<DepNode>, filter: string, quiet: bool, prefix: string)
    ensures Under(Render(cs, filter, quiet, prefix), prefix)
  {
    if cs != [] {
      RenderPrefix(cs[1..], filter, quiet, prefix);
      if Matches(cs[0], filter) {
        var next := NextPrefix(prefix, !AnyMatches(cs[1..], filter));
        RenderPrefix(cs[0].children, filter, quiet, next);
        UnderLonger(Render(cs[0].children, filter, quiet, next), prefix, next);
      }
    }
  }

  /** Lines under a longer prefix are under its own prefixes. */
  lemma UnderLonger(lines: seq<string>, prefix: string, next: string)
    requires |prefix| <= |next| && next[..|prefix|] == prefix && Under(lines, next)
    ensures Under(lines, prefix)
  {
    forall line | line in lines
      ensures |prefix| <= |line| && line[..|prefix|] == prefix
    {
      assert line[..|next|][..|prefix|] == line[..|prefix|];
    }
  }

  /** The number of nodes of a tree. */
  function Size(cs: seq<DepNode>): nat {
    if cs == [] then 0 else 1 + Size(cs[0].children) + Size(cs[1..])
  }

  /** Unfiltered, a line is printed per node of the tree. */
  lemma {:induction false} RenderCount(cs: seq<DepNode>, quiet: bool, prefix: string)
    ensures |Render(cs, "", quiet, prefix)| == Size(cs)
  {
    if cs != [] {
      RenderCount(cs[0].children, quiet, NextPrefix(prefix, !AnyMatches(cs[1..], "")));
      RenderCount(cs[1..], quiet, prefix);
    }
  }

  /** `printFiltered` (ui.go:104-141) without the column alignment of the
      tab writer: the lines written to it, in order. */
  method PrintFiltered(top: seq<DepNode>, filter: string, quiet: bool) returns (lines: seq<string>)
    ensures lines == Render(top, filter, quiet, "")
  {
    lines := Rec(top, filter, quiet, "");
  }

  /** `rec`: collect the matching children, then print each and recurse. */
  method Rec(cs: seq<DepNode>, filter: string, quiet: bool, prefix: string) returns (lines: seq<string>)
    ensures lines == Render(cs, filter, quiet, prefix)
    decreases cs, 1
  {
    var toprint := MatchingChildren(cs, filter);
    lines := [];
    var i := 0;
    while i < |toprint|
      invariant 0 <= i <= |toprint|
      invariant lines == EmitUpTo(toprint, i, filter, quiet, prefix)
    {
      FilteredFrom(cs, filter, toprint, i);
      var block := PrintChild(cs, toprint[i], i == |toprint| - 1, filter, quiet, prefix);
      lines := lines + block;
      i := i + 1;
    }
    EmitAll(cs, toprint, filter, quiet, prefix);
  }

  /** Every child to print is one of the children. */
  lemma FilteredFrom(cs: seq<DepNode>, filter: string, toprint: seq<DepNode>, i: nat)
    requires toprint == Filtered(cs, filter) && i < |toprint|
    ensures toprint[i] in cs
  {
    FilteredMembers(cs, filter);
    assert toprint[i] in toprint;
  }

  /** Once every child to print is emitted, the lines are the rendering. */
  lemma EmitAll(cs: seq<DepNode>, toprint: seq<DepNode>, filter: string, quiet: bool, prefix: string)
    requires toprint == Filtered(cs, filter)
    ensures EmitUpTo(toprint, |toprint|, filter, quiet, prefix) == Render(cs, filter, quiet, prefix)
  {
    EmitSplit(toprint, |toprint|, filter, quiet, prefix);
    assert toprint[|toprint|..] == [];
    RenderIsEmit(cs, filter, quiet, prefix);
  }

  /** The lines for the first `i` children to print, as the loop of
      `rec` has written them. */
  function EmitUpTo(toprint: seq<DepNode>, i: nat, filter: string, quiet: bool, prefix: string): seq<string>
    requires i <= |toprint|
  {
    if i == 0 then []
    else EmitUpTo(toprint, i - 1, filter, quiet, prefix) + Block(toprint[i - 1], i == |toprint|, filter, quiet, prefix)
  }

  /** The lines for the first `i` children followed by those for the
      rest are the lines for all of them. */
  lemma {:induction false} EmitSplit(toprint: seq<DepNode>, i: nat, filter: string, quiet: bool, prefix: string)
    requires i <= |toprint|
    ensures EmitUpTo(toprint, i, filter, quiet, prefix) + Emit(toprint[i..], filter, quiet, prefix) ==
      Emit(toprint, filter, quiet, prefix)
  {
    if i > 0 {
      EmitSplit(toprint, i - 1, filter, quiet, prefix);
      assert toprint[i - 1..][1..] == toprint[i..];
    } else {
      assert toprint[i..] == toprint;
    }
  }

  /** One turn of the second loop of `rec`: the child's line, then its
      own children under the extended prefix. */
  method PrintChild(ghost cs: seq<DepNode>, n: DepNode, last: bool, filter: string, quiet: bool, prefix: string)
    returns (lines: seq<string>)
    requires n in cs
    ensures lines == Block(n, last, filter, quiet, prefix)
    decreases cs, 0
  {
    var text := n.edge.hash;
    if !quiet {
      var pref := TTree;
      if last {
        pref := TEnd;
      }
      text := pref + TDash + " \U{1b}[1m" + n.edge.name + "\U{1b}[0m\t" + n.edge.hash + "\t" + n.edge.version;
    }
    var nextPref := prefix + TBar + "  ";
    if last {
      nextPref := prefix + "   ";
    }
    var sub := Rec(n.children, filter, quiet, nextPref);
    lines := [prefix + text] + sub;
  }

  /** The first loop of `rec`: the children that match, in order. */
  method MatchingChildren(cs: seq<DepNode>, filter: string) returns (toprint: seq<DepNode>)
    ensures toprint == Filtered(cs, filter)
  {
    toprint := [];
    var i := |cs|;
    while i > 0
      invariant 0 <= i <= |cs|
      invariant toprint == Filtered(cs[i..], filter)
    {
      i := i - 1;
      assert cs[i..][1..] == cs[i + 1..];
      if Matches(cs[i], filter) {
        toprint := [cs[i]] + toprint;
      }
    }
  }

  /** `printDepsTree` (ui.go:143-152): build the tree of a package's edges
      and render all of it. */
  function PrintDepsTree(store: Store, ghost rank: map<Hash, nat>, pkg: Package, quiet: bool)
    : (r: Result<seq<string>>)
    requires Ranked(store, rank)
    ensures r.Ok? ==> GenDeps(store, rank, pkg.deps, RankBound(rank, pkg.deps)).Ok?
    ensures r.Ok? ==> |r.value| == Size(GenDeps(store, rank, pkg.deps, RankBound(rank, pkg.deps)).value)
    ensures r.Err? ==> GenDeps(store, rank, pkg.deps, RankBound(rank, pkg.deps)).Err? && r.error == GenDeps(store, rank, pkg.deps, RankBound(rank, pkg.deps)).error
  {
    match GenDeps(store, rank, pkg.deps, RankBound(rank, pkg.deps))
    case Err(e) => Err(e)
    case Ok(top) =>
      RenderCount(top, quiet, "");
      Ok(Render(top, "", quiet, ""))
  }
}
