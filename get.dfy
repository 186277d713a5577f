/** The store lookup rules of gxutil/get.go: a hash dir holds exactly one
    package directory, and `GetPackageTo` fetches a package only when its
    hash dir does not already hold one. The file system is the set of
    directories that exist, each with its entries. */
module Get {
  import opened Common
  import opened PkgFile

  /** An entry of a hash dir: its name and the manifest its
      `package.json` holds, if that file loads. */
  datatype Entry = Entry(name: string, manifest: Option<Package>)

  /** The names `ioutil.ReadDir` lists. */
  function Names(es: seq<Entry>): (ns: seq<string>)
    ensures |ns| == |es| && forall i :: 0 <= i < |es| ==> ns[i] == es[i].name
  {
    if es == [] then [] else [es[0].name] + Names(es[1..])
  }

  /** `PackageNameInDir` on the result of reading `dir`: a read error is
      returned, an empty and a crowded hash dir are errors of their own,
      and otherwise the single entry's name is the answer. */
  function PackageNameInDir(dir: string, listing: Result<seq<string>>): (r: Result<string>)
    ensures listing.Err? ==> r == Err(listing.error)
    ensures r.Ok? <==> listing.Ok? && |listing.value| == 1
    ensures r.Ok? ==> r.value == listing.value[0]
    ensures listing.Ok? && r.Err? ==> !IsNotExist(r.error)
  {
    match listing
    case Err(e) => Err(e)
    case Ok(fs) =>
      if |fs| == 0 then Err(Msg("no package found in hashdir: " + dir))
      else if |fs| > 1 then Err(Msg("found multiple packages in hashdir: " + dir))
      else Ok(fs[0])
  }

  /** The manifest path of the entry `name` of `dir`. */
  function ManifestPath(dir: string, name: string): string {
    PathJoin(PathJoin(dir, name), "package.json")
  }

  /** `LoadPackageFile` of `name`'s manifest among the entries `es` of
      `dir`: the first entry of that name, if its manifest loads. */
  function LoadManifest(dir: string, es: seq<Entry>, name: string): (r: Result<Package>)
    ensures r.Ok? ==> exists i :: 0 <= i < |es| && es[i].name == name && es[i].manifest == Some(r.value)
    ensures r.Err? ==> r.error == NotExist(ManifestPath(dir, name))
    ensures es != [] && es[0].name == name ==>
      (es[0].manifest.Some? ==> r == Ok(es[0].manifest.value)) && (es[0].manifest.None? ==> r.Err?)
  {
    if es == [] then Err(NotExist(ManifestPath(dir, name)))
    else if es[0].name == name then
      match es[0].manifest
      case Some(p) => Ok(p)
      case None => Err(NotExist(ManifestPath(dir, name)))
    else LoadManifest(dir, es[1..], name)
  }

  /** `IsErrAlreadyInstalled`: the error is of the `ErrAlreadyInstalled`
      type, whatever package it names. */
  function IsErrAlreadyInstalled(e: Error): (r: bool)
    ensures r <==> exists p :: e == AlreadyInstalled(p)
  {
    e.AlreadyInstalled?
  }

  /** The directories on disk and the IPFS daemon that fills them. */
  class Disk {
    /** The directories that exist, each with its entries. */
    var dirs: map<string, seq<Entry>>
    /** The error `os.Stat` gives for a path that is no directory: a
        `NotExist` error unless this says otherwise (a permission error,
        say). */
    const statErr: string -> Option<Error>
    /** What `Shell().Get(hash, out)` yields: the entries it writes into
        `out`, or its error. */
    const fetch: Hash -> Result<seq<Entry>>
    /** Every fetch made, oldest first, with its target directory. */
    ghost var fetches: seq<(Hash, string)>

    constructor (dirs: map<string, seq<Entry>>, statErr: string -> Option<Error>, fetch: Hash -> Result<seq<Entry>>)
      ensures this.dirs == dirs && this.statErr == statErr && this.fetch == fetch && fetches == []
    {
      this.dirs := dirs;
      this.statErr := statErr;
      this.fetch := fetch;
      fetches := [];
    }

    /** The error of statting a path that is no directory. */
    function StatError(p: string): Error
      reads this
    {
      match statErr(p)
      case Some(e) => e
      case None => NotExist(p)
    }

    /** `os.Stat`: no error for a directory that exists. */
    function Stat(p: string): (err: Option<Error>)
      reads this
      ensures err.None? <==> p in dirs
    {
      if p in dirs then None else Some(StatError(p))
    }

    /** `ioutil.ReadDir`: the entry names, or the stat error. */
    function ReadDir(p: string): (r: Result<seq<string>>)
      reads this
      ensures r.Ok? <==> p in dirs
      ensures r.Ok? ==> r.value == Names(dirs[p])
    {
      if p in dirs then Ok(Names(dirs[p])) else Err(StatError(p))
    }

    /** `FindPackageInDir`: the manifest of the single entry of `dir`.
        It loads exactly when `dir` holds one entry whose manifest loads;
        the error is a `NotExist` one exactly when `dir` is missing (and
        statting it says so) or its single entry has no manifest. */
    function FindPackageInDir(dir: string): (r: Result<Package>)
      reads this
      ensures r.Ok? <==> dir in dirs && |dirs[dir]| == 1 && dirs[dir][0].manifest.Some?
      ensures r.Ok? ==> r.value == dirs[dir][0].manifest.value
      ensures r.Err? && IsNotExist(r.error) <==>
        || (dir !in dirs && IsNotExist(StatError(dir)))
        || (dir in dirs && |dirs[dir]| == 1 && dirs[dir][0].manifest.None?)
    {
      match PackageNameInDir(dir, ReadDir(dir))
      case Err(e) => Err(e)
      case Ok(name) => LoadManifest(dir, dirs[dir], name)
    }

    /** `Shell().Get(hash, out)`: one fetch, whose entries become `out`'s. */
    method ShellGet(hash: Hash, out: string) returns (err: Option<Error>)
      modifies this
      ensures fetches == old(fetches) + [(hash, out)]
      ensures fetch(hash).Err? ==> err == Some(fetch(hash).error) && dirs == old(dirs)
      ensures fetch(hash).Ok? ==> err == None && dirs == old(dirs)[out := fetch(hash).value]
    {
      fetches := fetches + [(hash, out)];
      match fetch(hash)
      case Err(e) =>
        return Some(e);
      case Ok(es) =>
        dirs := dirs[out := es];
        return None;
    }

    /** `out` is a hash dir whose package is missing, or no directory at
        all: the two cases in which `GetPackageTo` fetches. */
    predicate NeedsFetch(out: string)
      reads this
    {
      || (out in dirs && FindPackageInDir(out).Err? && IsNotExist(FindPackageInDir(out).error))
      || (out !in dirs && IsNotExist(StatError(out)))
    }

    /** `GetPackageTo`: a hash dir `out` that exists and holds a package
        gives that package with no fetch, and one whose lookup fails other
        than by a missing file gives that error; a stat error other than
        not-existing is returned. Otherwise the hash is fetched exactly
        once (no retry), a fetch error is returned, and the package must
        then be found in `out`. */
    method GetPackageTo(hash: Hash, out: string) returns (r: Result<Package>)
      modifies this
      ensures old(FindPackageInDir(out)).Ok? ==>
        r == old(FindPackageInDir(out)) && dirs == old(dirs) && fetches == old(fetches)
      ensures out in old(dirs) && old(FindPackageInDir(out)).Err? && !IsNotExist(old(FindPackageInDir(out)).error) ==>
        r == old(FindPackageInDir(out)) && dirs == old(dirs) && fetches == old(fetches)
      ensures out !in old(dirs) && !IsNotExist(old(StatError(out))) ==>
        r == Err(old(StatError(out))) && dirs == old(dirs) && fetches == old(fetches)
      ensures old(NeedsFetch(out)) ==>
        && fetches == old(fetches) + [(hash, out)]
        && (fetch(hash).Err? ==> r == Err(fetch(hash).error) && dirs == old(dirs))
        && (fetch(hash).Ok? ==> dirs == old(dirs)[out := fetch(hash).value] && r == FindPackageInDir(out))
      ensures r.Ok? ==> FindPackageInDir(out) == r
    {
      var err := Stat(out);
      if err.None? {
        var found := FindPackageInDir(out);
        if found.Ok? {
          return found;
        } else if !IsNotExist(found.error) {
          return found;
        }
      }
      if err.Some? && !IsNotExist(err.value) {
        return Err(err.value);
      }
      var ferr := ShellGet(hash, out);
      if ferr.Some? {
        return Err(ferr.value);
      }
      r := FindPackageInDir(out);
    }
  }
}
