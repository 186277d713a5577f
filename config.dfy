/** The user configuration (gxutil/config.go): `.gxrc` files holding JSON
    objects, merged key by key with later files overriding earlier ones,
    then decoded into a `Config`. */
module Config {
  import opened Common
  import opened Json

  const CfgFileName := ".gxrc"

  datatype User = User(name: string, email: string)

  datatype Config = Config(repos: seq<string>, extraRepos: seq<string>, user: User)

  /** `new(Config)`: every field at its zero value. */
  const EmptyConfig := Config([], [], User("", ""))

  /** What `loadFile` returns for a path: `Ok(None)` is a file holding
      JSON `null`, which decodes to a nil map without an error. */
  type Loader = string -> Result<Option<Obj>>

  /** The JSON round trip of `mapToCfg` (encode the map, decode it into a
      `Config`); `encoding/json` is not part of this model. */
  type Decoder = Obj -> Result<Config>

  // ---------------------------------------------------------------------
  // Merging

  /** `mergeConfigs` on two objects: the keys of both; where both hold an
      object the two are merged, and otherwise the value of `extra` wins. */
  function Merge(base: Obj, extra: Obj): (r: Obj)
    ensures r.Keys == base.Keys + extra.Keys
    ensures forall k :: k in base && k !in extra ==> r[k] == base[k]
    ensures forall k :: k in extra && !(k in base && base[k].Object? && extra[k].Object?) ==> r[k] == extra[k]
    decreases Object(extra)
  {
    map k | k in base.Keys + extra.Keys ::
      if k !in extra then base[k]
      else if k in base && base[k].Object? && extra[k].Object? then
        assert extra[k] in extra.Values;
        Object(Merge(base[k].fields, extra[k].fields))
      else extra[k]
  }

  /** `mergeConfigs` on possibly nil maps: a nil base gives `extra` back,
      and a nil `extra` adds nothing. */
  function MergeConfigs(base: Option<Obj>, extra: Option<Obj>): (r: Option<Obj>)
    ensures r.None? <==> base.None? && extra.None?
  {
    if base.None? then extra
    else Some(Merge(base.value, Fields(extra)))
  }

  /** The entries of a possibly nil map. */
  function Fields(m: Option<Obj>): Obj {
    if m.Some? then m.value else map[]
  }

  /** The entries of `extra` whose keys are in `ks`. */
  function Restrict(extra: Obj, ks: set<string>): (r: Obj)
    ensures r.Keys == extra.Keys * ks
  {
    map k | k in extra.Keys * ks :: extra[k]
  }

  /** `mergeConfigs` (gxutil/config.go:62-86): nil base first, then the
      loop over the keys of `extra`. */
  method MergeConfigsInto(base: Option<Obj>, extra: Option<Obj>) returns (r: Option<Obj>)
    ensures r == MergeConfigs(base, extra)
  {
    if base.None? {
      return extra;
    }
    var m := MergeObjects(base.value, Fields(extra));
    return Some(m);
  }

  /** The loop of `mergeConfigs` on a non-nil base, updating `base` key by
      key in whatever order the keys of `extra` come. */
  method MergeObjects(base: Obj, extra: Obj) returns (r: Obj)
    ensures r == Merge(base, extra)
    decreases Object(extra), 1
  {
    r := base;
    var todo := extra.Keys;
    while todo != {}
      invariant todo <= extra.Keys
      invariant r == Merge(base, Restrict(extra, extra.Keys - todo))
      decreases |todo|
    {
      var k :| k in todo;
      r := MergeKey(base, extra, todo, r, k);
      todo := todo - {k};
    }
    RestrictAll(extra, extra.Keys - todo);
  }

  /** One turn of the loop of `mergeConfigs`: key `k` of `extra` goes into
      the map merged so far. */
  method MergeKey(base: Obj, extra: Obj, todo: set<string>, r: Obj, k: string) returns (r': Obj)
    requires k in todo && todo <= extra.Keys
    requires r == Merge(base, Restrict(extra, extra.Keys - todo))
    ensures r' == Merge(base, Restrict(extra, extra.Keys - (todo - {k})))
    decreases Object(extra), 0
  {
    var v := extra[k];
    var nv := v;
    if k in r && r[k].Object? && v.Object? {
      assert v in extra.Values;
      var sub := MergeObjects(r[k].fields, v.fields);
      nv := Object(sub);
    }
    assert extra.Keys - (todo - {k}) == (extra.Keys - todo) + {k};
    MergeStep(base, extra, extra.Keys - todo, k, r, nv);
    r' := r[k := nv];
  }

  lemma RestrictAll(extra: Obj, ks: set<string>)
    requires extra.Keys <= ks
    ensures Restrict(extra, ks) == extra
  {
  }

  /** Merging one more key of `extra` changes that key only. */
  lemma MergeStep(base: Obj, extra: Obj, done: set<string>, k: string, before: Obj, nv: Value)
    requires k in extra && k !in done
    requires before == Merge(base, Restrict(extra, done))
    requires nv == if k in before && before[k].Object? && extra[k].Object?
                   then Object(Merge(before[k].fields, extra[k].fields))
                   else extra[k]
    ensures Merge(base, Restrict(extra, done + {k})) == before[k := nv]
  {
    var after := Merge(base, Restrict(extra, done + {k}));
    assert k in before ==> before[k] == base[k];
    forall j | j in after
      ensures after[j] == before[k := nv][j]
    {
      if j != k {
        assert j in before;
      }
    }
  }

  /** Merging nothing in leaves the base as it is. */
  lemma MergeNothing(base: Obj)
    ensures Merge(base, map[]) == base
  {
  }

  /** Merging into an empty object gives `extra` back. */
  lemma MergeIntoEmpty(extra: Obj)
    ensures Merge(map[], extra) == extra
  {
  }

  /** Merging an object with itself changes nothing, at any depth. */
  lemma {:induction false} MergeIdempotent(m: Obj)
    ensures Merge(m, m) == m
    decreases Object(m)
  {
    forall k | k in m && m[k].Object?
      ensures Merge(m, m)[k] == m[k]
    {
      assert m[k] in m.Values;
      MergeIdempotent(m[k].fields);
    }
  }

  /** Applying the same overrides twice is the same as applying them once. */
  lemma {:induction false} MergeAbsorb(base: Obj, extra: Obj)
    ensures Merge(Merge(base, extra), extra) == Merge(base, extra)
    decreases Object(extra)
  {
    var once := Merge(base, extra);
    forall k | k in extra && once[k].Object? && extra[k].Object?
      ensures Merge(once, extra)[k] == once[k]
    {
      assert extra[k] in extra.Values;
      if k in base && base[k].Object? {
        MergeAbsorb(base[k].fields, extra[k].fields);
      } else {
        MergeIdempotent(extra[k].fields);
      }
    }
  }

  // ---------------------------------------------------------------------
  // Loading

  /** `loadFile` as `LoadConfig` and `LoadConfigFrom` use it: a missing
      file is no configuration, any other error is returned. */
  function ReadConfig(load: Loader, path: string): (r: Result<Option<Obj>>)
    ensures r.Err? <==> load(path).Err? && !IsNotExist(load(path).error)
    ensures r.Ok? && r.value.Some? ==> load(path) == Ok(r.value)
  {
    match load(path)
    case Err(e) => if IsNotExist(e) then Ok(None) else Err(e)
    case Ok(m) => Ok(m)
  }

  /** `mapToCfg` (gxutil/config.go:132-150): no map is the empty
      configuration, any other map goes through the JSON round trip. */
  function MapToCfg(cfg: Option<Obj>, decode: Decoder): (r: Result<Config>)
    ensures cfg.None? ==> r == Ok(EmptyConfig)
    ensures cfg.Some? ==> r == decode(cfg.value)
  {
    if cfg.None? then Ok(EmptyConfig) else decode(cfg.value)
  }

  /** `LoadConfig` (gxutil/config.go:28-60): `$HOME/.gxrc`, then
      `.gxrc` in the working directory, which overrides it. `cwd` is what
      `os.Getwd` returns. */
  function LoadConfig(load: Loader, home: string, cwd: Result<string>, decode: Decoder): (r: Result<Config>)
    ensures cwd.Ok? && ReadConfig(load, PathJoin(home, CfgFileName)) == Ok(None)
              && ReadConfig(load, PathJoin(cwd.value, CfgFileName)) == Ok(None)
            ==> r == Ok(EmptyConfig)
    ensures cwd.Ok? && ReadConfig(load, PathJoin(home, CfgFileName)) == Ok(None)
              && ReadConfig(load, PathJoin(cwd.value, CfgFileName)).Ok?
            ==> r == MapToCfg(ReadConfig(load, PathJoin(cwd.value, CfgFileName)).value, decode)
    ensures cwd.Ok? && ReadConfig(load, PathJoin(home, CfgFileName)).Ok?
              && ReadConfig(load, PathJoin(cwd.value, CfgFileName)) == Ok(None)
            ==> r == MapToCfg(ReadConfig(load, PathJoin(home, CfgFileName)).value, decode)
    ensures cwd.Err? && ReadConfig(load, PathJoin(home, CfgFileName)).Ok? ==> r == Err(cwd.error)
    ensures ReadConfig(load, PathJoin(home, CfgFileName)).Err? ==> r == Err(ReadConfig(load, PathJoin(home, CfgFileName)).error)
    ensures cwd.Ok? && ReadConfig(load, PathJoin(home, CfgFileName)).Ok?
              && ReadConfig(load, PathJoin(cwd.value, CfgFileName)).Err?
            ==> r == Err(ReadConfig(load, PathJoin(cwd.value, CfgFileName)).error)
  {
    match ReadConfig(load, PathJoin(home, CfgFileName))
    case Err(e) => Err(e)
    case Ok(cfg) =>
      match cwd
      case Err(e) => Err(e)
      case Ok(dir) =>
        match ReadConfig(load, PathJoin(dir, CfgFileName))
        case Err(e) => Err(e)
        case Ok(local) =>
          if local.None? then MapToCfg(cfg, decode)
          else if cfg.None? then MapToCfg(local, decode)
          else MapToCfg(Some(Merge(cfg.value, local.value)), decode)
  }

  /** The files after the first, merged in turn into `cfg`. */
  function Fold(cfg: Option<Obj>, paths: seq<string>, load: Loader): Result<Option<Obj>>
    decreases |paths|
  {
    if paths == [] then Ok(cfg)
    else match ReadConfig(load, paths[0])
      case Err(e) => Err(e)
      case Ok(next) => Fold(MergeConfigs(cfg, next), paths[1..], load)
  }

  /** What `LoadConfigFrom` computes. */
  function LoadFrom(paths: seq<string>, load: Loader, decode: Decoder): (r: Result<Config>)
    ensures paths == [] ==> r == Err(Msg("no path specified!"))
  {
    if paths == [] then Err(Msg("no path specified!"))
    else match ReadConfig(load, paths[0])
      case Err(e) => Err(e)
      case Ok(cfg) =>
        match Fold(cfg, paths[1..], load)
        case Err(e) => Err(e)
        case Ok(m) => MapToCfg(m, decode)
  }

  /** `LoadConfigFrom` (gxutil/config.go:88-115). */
  method LoadConfigFrom(paths: seq<string>, load: Loader, decode: Decoder) returns (r: Result<Config>)
    ensures r == LoadFrom(paths, load, decode)
  {
    if |paths| == 0 {
      return Err(Msg("no path specified!"));
    }
    var cfg := ReadConfig(load, paths[0]);
    if cfg.Err? {
      return Err(cfg.error);
    }
    var acc := cfg.value;
    var rest := paths[1..];
    var i := 0;
    while i < |rest|
      invariant 0 <= i <= |rest|
      invariant Fold(cfg.value, rest, load) == Fold(acc, rest[i..], load)
    {
      assert rest[i..][1..] == rest[i + 1..];
      var next := ReadConfig(load, rest[i]);
      if next.Err? {
        return Err(next.error);
      }
      acc := MergeConfigsInto(acc, next.value);
      i := i + 1;
    }
    assert rest[i..] == [];
    r := MapToCfg(acc, decode);
  }

  /** `LoadConfig` is `LoadConfigFrom` on the home file and then the local
      one, once the working directory is known. */
  lemma LoadConfigIsFold(load: Loader, home: string, dir: string, decode: Decoder)
    ensures LoadConfig(load, home, Ok(dir), decode)
         == LoadFrom([PathJoin(home, CfgFileName), PathJoin(dir, CfgFileName)], load, decode)
  {
    var paths := [PathJoin(home, CfgFileName), PathJoin(dir, CfgFileName)];
    var h := ReadConfig(load, paths[0]);
    var l := ReadConfig(load, paths[1]);
    if h.Ok? && l.Ok? {
      assert paths[1..] == [paths[1]] && [paths[1]][1..] == [];
      assert Fold(h.value, paths[1..], load) == Ok(MergeConfigs(h.value, l.value));
      if h.value.Some? && l.value.None? {
        MergeNothing(h.value.value);
      }
    }
  }

  /** A file that cannot be read for a reason other than its absence
      stops `LoadConfigFrom` with that error. */
  lemma {:induction false} FoldStops(cfg: Option<Obj>, paths: seq<string>, load: Loader, j: nat)
    requires j < |paths| && ReadConfig(load, paths[j]).Err?
    requires forall i :: 0 <= i < j ==> ReadConfig(load, paths[i]).Ok?
    ensures Fold(cfg, paths, load) == Err(ReadConfig(load, paths[j]).error)
    decreases j
  {
    if j > 0 {
      assert paths[1..][j - 1] == paths[j];
      FoldStops(MergeConfigs(cfg, ReadConfig(load, paths[0]).value), paths[1..], load, j - 1);
    }
  }

  /** The keys of the folded configuration are the keys of every file read. */
  function KeysOf(paths: seq<string>, load: Loader): set<string>
    decreases |paths|
  {
    if paths == [] then {}
    else
      var c := ReadConfig(load, paths[0]);
      (if c.Ok? then Fields(c.value).Keys else {}) + KeysOf(paths[1..], load)
  }

  lemma {:induction false} FoldKeys(cfg: Option<Obj>, paths: seq<string>, load: Loader)
    ensures var r := Fold(cfg, paths, load);
      r.Ok? ==> Fields(r.value).Keys == Fields(cfg).Keys + KeysOf(paths, load)
    decreases |paths|
  {
    if paths != [] {
      var c := ReadConfig(load, paths[0]);
      if c.Ok? {
        FoldKeys(MergeConfigs(cfg, c.value), paths[1..], load);
      }
    }
  }

  /** Whether the file at `path` was read and holds key `k`. */
  predicate HasKey(load: Loader, path: string, k: string) {
    var c := ReadConfig(load, path);
    c.Ok? && k in Fields(c.value)
  }

  /** Later files override earlier ones: a value that is not an object, in
      the last file holding its key, is the value the fold ends with. */
  lemma {:induction false} FoldLastWins(cfg: Option<Obj>, paths: seq<string>, load: Loader, j: nat, k: string)
    requires j < |paths| && HasKey(load, paths[j], k)
    requires !Fields(ReadConfig(load, paths[j]).value)[k].Object?
    requires forall i :: j < i < |paths| ==> !HasKey(load, paths[i], k)
    ensures var r := Fold(cfg, paths, load);
      r.Ok? ==> k in Fields(r.value) && Fields(r.value)[k] == Fields(ReadConfig(load, paths[j]).value)[k]
    decreases j
  {
    var c := ReadConfig(load, paths[0]);
    if c.Ok? {
      var next := MergeConfigs(cfg, c.value);
      if j > 0 {
        FoldLastWins(next, paths[1..], load, j - 1, k);
      } else {
        FoldKeeps(next, paths[1..], load, k);
      }
    }
  }

  /** Files that do not hold a key leave its value alone. */
  lemma {:induction false} FoldKeeps(cfg: Option<Obj>, paths: seq<string>, load: Loader, k: string)
    requires k in Fields(cfg)
    requires forall i :: 0 <= i < |paths| ==> !HasKey(load, paths[i], k)
    ensures var r := Fold(cfg, paths, load);
      r.Ok? ==> k in Fields(r.value) && Fields(r.value)[k] == Fields(cfg)[k]
    decreases |paths|
  {
    if paths != [] {
      var c := ReadConfig(load, paths[0]);
      if c.Ok? {
        assert !HasKey(load, paths[0], k);
        FoldKeeps(MergeConfigs(cfg, c.value), paths[1..], load, k);
      }
    }
  }
}
