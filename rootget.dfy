/** The older fetch path of the command's get.go: packages go to
    `<cwd>/vendor/src/<hash>`, and a hash dir that exists already is an
    error rather than a hit. */
module RootGet {
  import opened Common
  import opened PkgFile
  import opened Get

  /** `GetPackage`'s target directory below the working directory. */
  function VendorTarget(cwd: string): (t: string)
    ensures t == cwd + "/vendor/src"
  {
    PathJoin(PathJoin(cwd, "vendor"), "src")
  }

  /** `getPackageLocalDaemon`: a `target/hash` that exists is reported as
      already installed with no fetch; otherwise, whatever the stat error,
      the hash is fetched once into it, a fetch error is returned, and the
      package must then be found there (get.go's `findPackageInDir` makes
      the same decision as `FindPackageInDir`). */
  method GetPackageLocalDaemon(disk: Disk, hash: Hash, target: string) returns (r: Result<Package>)
    modifies disk
    ensures PathJoin(target, hash) in old(disk.dirs) ==>
      && r == Err(Msg("package " + hash + " already installed"))
      && disk.dirs == old(disk.dirs) && disk.fetches == old(disk.fetches)
    ensures PathJoin(target, hash) !in old(disk.dirs) ==>
      && disk.fetches == old(disk.fetches) + [(hash, PathJoin(target, hash))]
      && (disk.fetch(hash).Err? ==> r == Err(disk.fetch(hash).error) && disk.dirs == old(disk.dirs))
      && (disk.fetch(hash).Ok? ==>
            && disk.dirs == old(disk.dirs)[PathJoin(target, hash) := disk.fetch(hash).value]
            && r == disk.FindPackageInDir(PathJoin(target, hash)))
  {
    var pkgdir := PathJoin(target, hash);
    var err := disk.Stat(pkgdir);
    if err.None? {
      return Err(Msg("package " + hash + " already installed"));
    }
    var ferr := disk.ShellGet(hash, pkgdir);
    if ferr.Some? {
      return Err(ferr.value);
    }
    r := disk.FindPackageInDir(pkgdir);
  }

  /** `GetPackage`: fetch into `<cwd>/vendor/src`; `cwd` is what
      `os.Getwd` returned, and its error is passed on. */
  method GetPackage(disk: Disk, cwd: Result<string>, hash: Hash) returns (r: Result<Package>)
    modifies disk
    ensures cwd.Err? ==> r == Err(cwd.error) && disk.dirs == old(disk.dirs) && disk.fetches == old(disk.fetches)
    ensures cwd.Ok? ==> |disk.fetches| <= |old(disk.fetches)| + 1
    ensures cwd.Ok? && r.Ok? ==> r == disk.FindPackageInDir(PathJoin(VendorTarget(cwd.value), hash))
    ensures cwd.Ok? && PathJoin(VendorTarget(cwd.value), hash) in old(disk.dirs) ==>
      r == Err(Msg("package " + hash + " already installed")) && disk.fetches == old(disk.fetches)
    ensures cwd.Ok? && PathJoin(VendorTarget(cwd.value), hash) in old(disk.dirs) ==> disk.dirs == old(disk.dirs)
    ensures cwd.Ok? && PathJoin(VendorTarget(cwd.value), hash) !in old(disk.dirs) ==>
      && disk.fetches == old(disk.fetches) + [(hash, PathJoin(VendorTarget(cwd.value), hash))]
      && (disk.fetch(hash).Err? ==> r == Err(disk.fetch(hash).error) && disk.dirs == old(disk.dirs))
      && (disk.fetch(hash).Ok? ==>
            && disk.dirs == old(disk.dirs)[PathJoin(VendorTarget(cwd.value), hash) := disk.fetch(hash).value]
            && r == disk.FindPackageInDir(PathJoin(VendorTarget(cwd.value), hash)))
  {
    if cwd.Err? {
      return Err(cwd.error);
    }
    r := GetPackageLocalDaemon(disk, hash, VendorTarget(cwd.value));
  }
}
