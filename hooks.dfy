/** Language subtools of gxutil/pm.go: finding the `gx-<lang>` helper
    binary, running one of its hooks, and asking it for the install path
    (with the process-wide cache of answers). Process execution and the
    executable search are oracles held in a `System` value. */
module Hooks {
  import opened Common
  import opened Strings
  import opened PkgFile

  /** What `exec.LookPath` reports for a binary name. */
  datatype LookPathOutcome =
    | OnPath                  // found
    | NotOnPath               // an `*exec.Error` whose cause is `exec.ErrNotFound`
    | LookFailed(err: Error)  // any other error

  /** A process run: the binary and its arguments. */
  datatype Invocation = Invocation(bin: string, args: seq<string>)

  /** The process environment the subtool lookup depends on. */
  datatype System = System(
    binarySuffix: string,                 // ".exe" on Windows, "" elsewhere
    lookPath: string -> LookPathOutcome,  // `exec.LookPath`
    argv0: string,                        // `os.Args[0]`
    statOk: string -> bool)                // `os.Stat` succeeds

  /** The position of the last `/` of `p`, or -1. */
  function LastSlash(p: string): (k: int)
    ensures -1 <= k < |p|
    ensures k >= 0 ==> p[k] == '/'
    ensures forall j :: k < j < |p| ==> p[j] != '/'
  {
    if p == [] then -1
    else if p[|p| - 1] == '/' then |p| - 1
    else LastSlash(p[..|p| - 1])
  }

  /** `filepath.Split`: the directory part (up to and including the last
      separator) and the file part (with no separator). */
  function SplitPath(p: string): (r: (string, string))
    ensures r.0 + r.1 == p
    ensures '/' !in r.1
    ensures r.0 == [] || r.0[|r.0| - 1] == '/'
  {
    var k := LastSlash(p);
    (p[..k + 1], p[k + 1..])
  }

  /** The helper binary's name for a language. */
  function BinName(sys: System, env: string): string {
    "gx-" + env + sys.binarySuffix
  }

  /** The helper binary next to the running executable: `<dir>/<exe>-<lang>`.
      The parts are concatenated; the path is not cleaned as Go's
      `filepath.Join` cleans it. */
  function NearBin(sys: System, env: string): string {
    var (dir, file) := SplitPath(sys.argv0);
    dir + TrimSuffix(file, sys.binarySuffix) + "-" + env + sys.binarySuffix
  }

  /** `getSubtoolPath`: no binary ("") for an empty language; the binary on
      the search path if there is one; a lookup failure other than "not
      found" is an error; otherwise the binary next to the executable if
      it exists (and the executable was named with a directory), else
      none. */
  function SubtoolPath(sys: System, env: string): (r: Result<string>)
    ensures env == "" ==> r == Ok("")
    ensures env != "" && sys.lookPath(BinName(sys, env)) == OnPath ==> r == Ok(BinName(sys, env))
    ensures env != "" && sys.lookPath(BinName(sys, env)).LookFailed? ==>
      r == Err(sys.lookPath(BinName(sys, env)).err)
    ensures r.Err? ==> env != "" && sys.lookPath(BinName(sys, env)).LookFailed?
    ensures r.Ok? && r.value != "" ==>
      r.value == BinName(sys, env) ||
      (SplitPath(sys.argv0).0 != "" && r.value == NearBin(sys, env) && sys.statOk(NearBin(sys, env)))
  {
    if env == "" then Ok("")
    else
      var bin := BinName(sys, env);
      match sys.lookPath(bin)
      case OnPath => Ok(bin)
      case LookFailed(e) => Err(e)
      case NotOnPath =>
        if SplitPath(sys.argv0).0 == "" then Ok("")
        else if sys.statOk(NearBin(sys, env)) then Ok(NearBin(sys, env))
        else Ok("")
  }

  /** A language without a name has no helper, so nothing is ever run for it. */
  lemma EmptyEnvHasNoSubtool(sys: System)
    ensures SubtoolPath(sys, "") == Ok("")
  {
  }

  /** The message `TryRunHook` returns when a required helper is missing. */
  function MissingSubtool(env: string): Error {
    Msg("no binary named gx-" + env + " was found.")
  }

  /** What `TryRunHook` decides before running anything: an error, nothing
      to run, or the helper invoked as `<bin> hook <hook> <args...>`. */
  function HookPlan(sys: System, hook: string, env: string, req: bool, args: seq<string>)
    : (r: Result<Option<Invocation>>)
    ensures SubtoolPath(sys, env) == Ok("") && req ==> r == Err(MissingSubtool(env))
    ensures SubtoolPath(sys, env) == Ok("") && !req ==> r == Ok(None)
    ensures SubtoolPath(sys, env).Err? ==> r == Err(SubtoolPath(sys, env).error)
    ensures r.Ok? && r.value.Some? ==>
      && SubtoolPath(sys, env) == Ok(r.value.value.bin)
      && r.value.value.bin != ""
      && r.value.value.args == ["hook", hook] + args
  {
    match SubtoolPath(sys, env)
    case Err(e) => Err(e)
    case Ok(bin) =>
      if bin == "" then (if req then Err(MissingSubtool(env)) else Ok(None))
      else Ok(Some(Invocation(bin, ["hook", hook] + args)))
  }

  /** `TryRunHook`, with `run` reporting how a process run ends: the error
      returned, if any. A failed run is reported as `<hook> hook failed: …`. */
  function TryRunHook(sys: System, run: Invocation -> Option<Error>,
                      hook: string, env: string, req: bool, args: seq<string>): (r: Option<Error>)
    ensures env == "" && !req ==> r == None
    ensures env == "" && req ==> r == Some(MissingSubtool(env))
    ensures HookPlan(sys, hook, env, req, args).Err? ==> r == Some(HookPlan(sys, hook, env, req, args).error)
    ensures HookPlan(sys, hook, env, req, args) == Ok(None) ==> r == None
    ensures HookPlan(sys, hook, env, req, args).Ok? && HookPlan(sys, hook, env, req, args).value.Some? ==>
      var inv := HookPlan(sys, hook, env, req, args).value.value;
      && (r.None? <==> run(inv).None?)
      && (r.Some? ==> r.value == Msg(hook + " hook failed: " + Message(run(inv).value)))
  {
    match HookPlan(sys, hook, env, req, args)
    case Err(e) => Some(e)
    case Ok(None) => None
    case Ok(Some(inv)) =>
      match run(inv)
      case None => None
      case Some(e) => Some(Msg(hook + " hook failed: " + Message(e)))
  }

  const DefaultLocalPath: string := "vendor"

  /** The cache key of `checkInstallPathCache`/`setInstallPathCache`. */
  function CacheKey(env: string, global: bool): string {
    if global then env + " --global" else env
  }

  /** The global and the local answer for one language have different keys. */
  lemma CacheKeyGlobalLocalDistinct(env: string)
    ensures CacheKey(env, true) != CacheKey(env, false)
  {
    assert |CacheKey(env, true)| != |CacheKey(env, false)|;
  }

  /** For language names that do not themselves end in " --global", two
      keys are equal exactly when language and flag are. (A local language
      named "x --global" would share the global key of "x".) */
  lemma CacheKeyInjective(e1: string, g1: bool, e2: string, g2: bool)
    requires !(|e1| >= 9 && e1[|e1| - 9..] == " --global")
    requires !(|e2| >= 9 && e2[|e2| - 9..] == " --global")
    ensures CacheKey(e1, g1) == CacheKey(e2, g2) <==> e1 == e2 && g1 == g2
  {
    var k1, k2 := CacheKey(e1, g1), CacheKey(e2, g2);
    if g1 {
      assert |k1| >= 9 && k1[|k1| - 9..] == " --global";
      if g2 && k1 == k2 {
        assert e1 == k1[..|k1| - 9] && e2 == k2[..|k2| - 9];
      }
    }
    if g2 {
      assert |k2| >= 9 && k2[|k2| - 9..] == " --global";
    }
  }

  /** The characters `InstallPath` trims from the helper's answer. */
  const Blanks: set<char> := {' ', '\t', '\n'}

  /** The one-shot lookup behind `InstallPath` when the cache has no
      entry: the helper's answer to `hook install-path [--global]`, run in
      `relpath`, trimmed of spaces, tabs and newlines, paired with whether
      the helper was run. `output` is `cmd.Output` for an invocation run in
      a directory. */
  function AskInstallPath(sys: System, output: (Invocation, string) -> Result<string>,
                          env: string, relpath: string, global: bool): (r: Result<(string, bool)>)
    ensures SubtoolPath(sys, env).Err? ==> r == Err(SubtoolPath(sys, env).error)
    ensures SubtoolPath(sys, env) == Ok("") ==> r == Ok((DefaultLocalPath, false))
    ensures r.Ok? && r.value.1 ==>
      && SubtoolPath(sys, env).Ok? && SubtoolPath(sys, env).value != ""
      && output(InstallPathRun(SubtoolPath(sys, env).value, global), relpath).Ok?
      && r.value.0 == Trim(output(InstallPathRun(SubtoolPath(sys, env).value, global), relpath).value, Blanks)
    ensures SubtoolPath(sys, env).Ok? && SubtoolPath(sys, env).value != "" &&
            output(InstallPathRun(SubtoolPath(sys, env).value, global), relpath).Err? ==>
      r == Err(Msg("install-path hook failed: " +
                   Message(output(InstallPathRun(SubtoolPath(sys, env).value, global), relpath).error)))
  {
    match SubtoolPath(sys, env)
    case Err(e) => Err(e)
    case Ok(bin) =>
      if bin == "" then Ok((DefaultLocalPath, false))
      else
        match output(InstallPathRun(bin, global), relpath)
        case Err(e) => Err(Msg("install-path hook failed: " + Message(e)))
        case Ok(out) => Ok((Trim(out, Blanks), true))
  }

  /** The helper invocation that asks for the install path. */
  function InstallPathRun(bin: string, global: bool): (inv: Invocation)
    ensures |inv.args| >= 2 && inv.args[..2] == ["hook", "install-path"]
    ensures |inv.args| == 3 <==> global
  {
    Invocation(bin, if global then ["hook", "install-path", "--global"] else ["hook", "install-path"])
  }

  /** The helper run `InstallPath` makes on a cache miss: one, when there is a helper. */
  function InstallPathRuns(sys: System, env: string, global: bool): (r: seq<Invocation>)
    ensures |r| <= 1
    ensures r != [] <==> SubtoolPath(sys, env).Ok? && SubtoolPath(sys, env).value != ""
  {
    match SubtoolPath(sys, env)
    case Ok(bin) => if bin == "" then [] else [InstallPathRun(bin, global)]
    case Err(_) => []
  }

  /** `installPathsCache`, the process-wide map from cache key to install path. */
  class InstallPathCache {
    var cache: map<string, string>
    /** The install-path helper runs so far, oldest first. */
    ghost var runs: seq<Invocation>

    constructor ()
      ensures cache == map[] && runs == []
    {
      cache := map[];
      runs := [];
    }

    /** `checkInstallPathCache`. */
    method Check(env: string, global: bool) returns (v: string, ok: bool)
      ensures ok <==> CacheKey(env, global) in cache
      ensures ok ==> v == cache[CacheKey(env, global)]
      ensures !ok ==> v == ""
    {
      var key := CacheKey(env, global);
      if key in cache {
        return cache[key], true;
      }
      return "", false;
    }

    /** `setInstallPathCache`. */
    method Set(env: string, global: bool, val: string)
      modifies this
      ensures cache == old(cache)[CacheKey(env, global) := val]
      ensures runs == old(runs)
    {
      cache := cache[CacheKey(env, global) := val];
    }

    /** `InstallPath`: "vendor" for a language without a name; a cached
        answer without running anything; otherwise the helper's answer,
        which is cached, or "vendor" (not cached) when there is no helper. */
    method InstallPath(sys: System, output: (Invocation, string) -> Result<string>,
                       env: string, relpath: string, global: bool) returns (r: Result<string>)
      modifies this
      ensures env == "" ==> r == Ok(DefaultLocalPath) && cache == old(cache) && runs == old(runs)
      ensures env != "" && CacheKey(env, global) in old(cache) ==>
        r == Ok(old(cache)[CacheKey(env, global)]) && cache == old(cache) && runs == old(runs)
      ensures env != "" && CacheKey(env, global) !in old(cache) ==>
        && (match AskInstallPath(sys, output, env, relpath, global)
            case Err(e) => r == Err(e) && cache == old(cache)
            case Ok((val, true)) => r == Ok(val) && cache == old(cache)[CacheKey(env, global) := val]
            case Ok((val, false)) => r == Ok(val) && cache == old(cache))
        && runs == old(runs) + InstallPathRuns(sys, env, global)
    {
      if env == "" {
        return Ok(DefaultLocalPath);
      }
      var cached, ok := Check(env, global);
      if ok {
        return Ok(cached);
      }
      runs := runs + InstallPathRuns(sys, env, global);
      match AskInstallPath(sys, output, env, relpath, global)
      case Err(e) => r := Err(e);
      case Ok((val, fromHook)) =>
        if fromHook {
          Set(env, global, val);
        }
        r := Ok(val);
    }
  }

  /** A value once stored under a language and flag is what the next
      lookup for them finds. */
  method SetThenCheck(c: InstallPathCache, env: string, global: bool, val: string)
    returns (v: string, ok: bool)
    modifies c
    ensures ok && v == val
  {
    c.Set(env, global, val);
    v, ok := c.Check(env, global);
  }

  /** `filepath.Join(location, "gx", "ipfs", hash)`: a package's hash dir. */
  function PkgDir(location: string, h: Hash): string {
    PathJoin(PathJoin(PathJoin(location, "gx"), "ipfs"), h)
  }

  /** `filepath.Join(dir, ".gx", hook)`: the file whose existence
      `pkgRanHook` tests and `writePkgHook` creates. */
  function HookMarker(dir: string, hook: string): string {
    PathJoin(PathJoin(dir, ".gx"), hook)
  }

  /** The post-install marker of the package installed under `pkgdir`. */
  function PostInstallMarker(pkgdir: string, pkg: Package): string {
    HookMarker(PathJoin(pkgdir, pkg.name), "post-install")
  }
}
