/** `packagesGoImport` (gxutil/go_utils.go): the Go import path of a
    package directory under `$GOPATH/src`. The environment variable is a
    parameter. */
module GoUtils {
  import opened Common
  import opened Strings

  /** `path.Join(gopath, "src") + "/"` for a `GOPATH` without `.` or `..`
      components or doubled slashes: trailing slashes of `GOPATH` are
      dropped by the join. */
  function SrcDir(gopath: string): (r: string)
    ensures |r| >= 5 && r[|r| - 5..] == "/src/"
  {
    TrimRight(gopath, {'/'}) + "/src/"
  }

  /** gxutil/go_utils.go:10-24: without `GOPATH` there is no import path;
      a directory outside `$GOPATH/src` has none either; otherwise the
      import path is what follows `$GOPATH/src/`. */
  function PackagesGoImport(gopath: string, p: string): (r: Result<string>)
    ensures gopath == "" ==> r == Err(Msg("GOPATH not set, cannot derive import path"))
    ensures gopath != "" && !HasPrefix(p, SrcDir(gopath)) ==> r == Err(Msg("package not within GOPATH/src"))
    ensures r.Ok? <==> gopath != "" && HasPrefix(p, SrcDir(gopath))
    ensures r.Ok? ==> SrcDir(gopath) + r.value == p
  {
    if gopath == "" then Err(Msg("GOPATH not set, cannot derive import path"))
    else
      var srcdir := SrcDir(gopath);
      if !HasPrefix(p, srcdir) then Err(Msg("package not within GOPATH/src"))
      else
        assert srcdir + p[|srcdir|..] == p[..|srcdir|] + p[|srcdir|..];
        Ok(p[|srcdir|..])
  }

  /** A directory built from `$GOPATH/src/` and an import path gives that
      import path back. */
  lemma ImportRoundTrip(gopath: string, imp: string)
    requires gopath != ""
    ensures PackagesGoImport(gopath, SrcDir(gopath) + imp) == Ok(imp)
  {
    var p := SrcDir(gopath) + imp;
    assert p[..|SrcDir(gopath)|] == SrcDir(gopath);
    assert p[|SrcDir(gopath)|..] == imp;
  }

  /** A trailing slash on `GOPATH` makes no difference. */
  lemma TrailingSlash(gopath: string, p: string)
    requires gopath != ""
    ensures PackagesGoImport(gopath + "/", p) == PackagesGoImport(gopath, p)
  {
    TrimSlash(gopath);
  }

  lemma TrimSlash(s: string)
    ensures TrimRight(s + "/", {'/'}) == TrimRight(s, {'/'})
  {
    assert (s + "/")[..|s + "/"| - 1] == s;
  }
}
