/** The cache in front of the Elastic CLI configuration file. */
module ConfigCache {
  import opened Text

  /** What a path names: two spellings of one file are one path. */
  type Path = string
  type Contents = string

  datatype Outcome = Loaded(config: string) | ConfigNotFound | HomeDirectoryUnavailable | Failed(error: string)

  /** The operating system the program was built for. */
  datatype Platform = Windows | Unix | OtherPlatform

  datatype Environment = Environment(configFile: Option<Path>, home: Option<string>, userProfile: Option<string>)

  /** The readable files; a path that cannot be read is not in it. */
  type Files = map<Path, Contents>

  /** The hasher, the joining of a directory and a file name, and the reader of a configuration file. */
  datatype Library = Library(
    platform: Platform,
    hash: Contents -> nat,
    join: (string, string) -> Path,
    parse: (Path, Option<Contents>) -> Result<string, string>)

  datatype Key = Key(explicitPath: Option<Path>, home: Option<string>, userProfile: Option<string>)
  datatype Fingerprint = Fingerprint(path: Path, contentHash: nat)
  datatype Cached = Cached(fingerprint: Fingerprint, config: string)

  type Cache = map<Key, Cached>

  // ----- Discovery -----

  const NAMES := [".elasticrc", ".elasticrc.json", ".elasticrc.yaml", ".elasticrc.yml"]

  function FirstReadable(lib: Library, home: string, names: seq<string>, files: Files): Option<Path> {
    if names == [] then None
    else if lib.join(home, names[0]) in files then Some(lib.join(home, names[0]))
    else FirstReadable(lib, home, names[1..], files)
  }

  function Discover(lib: Library, home: string, files: Files): Option<Path> {
    FirstReadable(lib, home, NAMES, files)
  }

  lemma FirstOrNext(lib: Library, home: string, name: string, rest: seq<string>, files: Files)
    ensures FirstReadable(lib, home, [name] + rest, files) ==
            if lib.join(home, name) in files then Some(lib.join(home, name))
            else FirstReadable(lib, home, rest, files)
  {
    assert ([name] + rest)[1..] == rest;
  }

  /** Of several files the one without an extension is read, then the JSON one, then those of YAML. */
  lemma DiscoveredExactly(lib: Library, home: string, files: Files)
    ensures Discover(lib, home, files) ==
            if lib.join(home, ".elasticrc") in files then Some(lib.join(home, ".elasticrc"))
            else if lib.join(home, ".elasticrc.json") in files then Some(lib.join(home, ".elasticrc.json"))
            else if lib.join(home, ".elasticrc.yaml") in files then Some(lib.join(home, ".elasticrc.yaml"))
            else if lib.join(home, ".elasticrc.yml") in files then Some(lib.join(home, ".elasticrc.yml"))
            else None
  {
    var last: seq<string> := [];
    var yml := [".elasticrc.yml"] + last;
    var yaml := [".elasticrc.yaml"] + yml;
    var json := [".elasticrc.json"] + yaml;
    FirstOrNext(lib, home, ".elasticrc.yml", last, files);
    FirstOrNext(lib, home, ".elasticrc.yaml", yml, files);
    FirstOrNext(lib, home, ".elasticrc.json", yaml, files);
    FirstOrNext(lib, home, ".elasticrc", json, files);
    assert NAMES == [".elasticrc"] + json;
  }

  function KeyOf(argument: Option<Path>, env: Environment): Key {
    Key(if argument.Some? then argument else env.configFile, env.home, env.userProfile)
  }

  /** The path whose contents are fingerprinted. */
  function SelectedPath(lib: Library, key: Key, files: Files): Option<Path> {
    var home := if key.home.Some? then key.home else key.userProfile;
    if key.explicitPath.Some? then key.explicitPath
    else if home.Some? then Discover(lib, home.value, files)
    else None
  }

  /** The directory in which the library looks by itself. */
  function LibraryHome(lib: Library, key: Key): Option<string> {
    match lib.platform
    case Windows => key.userProfile
    case Unix => key.home
    case OtherPlatform => None
  }

  function Read(path: Path, files: Files): Option<Contents> {
    if path in files then Some(files[path]) else None
  }

  // ----- Loading without a cache -----

  function LoadPath(lib: Library, path: Path, files: Files): Outcome {
    match lib.parse(path, Read(path, files))
    case Ok(config) => Loaded(config)
    case Err(error) => Failed(error)
  }

  function LibraryLoad(lib: Library, key: Key, files: Files): Outcome {
    if key.explicitPath.Some? then LoadPath(lib, key.explicitPath.value, files)
    else
      match LibraryHome(lib, key)
      case None => HomeDirectoryUnavailable
      case Some(home) =>
        match Discover(lib, home, files)
        case None => ConfigNotFound
        case Some(path) => LoadPath(lib, path, files)
  }

  /** A missing configuration is no error. */
  function AsResult(outcome: Outcome): Result<Option<string>, string> {
    match outcome
    case Loaded(config) => Ok(Some(config))
    case Failed(error) => Err(error)
    case _ => Ok(None)
  }

  function UncachedLoad(lib: Library, key: Key, files: Files): Result<Option<string>, string> {
    AsResult(LibraryLoad(lib, key, files))
  }

  // ----- Loading through the cache -----

  function FingerprintOf(lib: Library, path: Option<Path>, files: Files): Option<Fingerprint> {
    if path.Some? && path.value in files then Some(Fingerprint(path.value, lib.hash(files[path.value]))) else None
  }

  function KeyFingerprint(lib: Library, key: Key, files: Files): Option<Fingerprint> {
    FingerprintOf(lib, SelectedPath(lib, key, files), files)
  }

  predicate Hit(cache: Cache, key: Key, fingerprint: Option<Fingerprint>) {
    fingerprint.Some? && key in cache && cache[key].fingerprint == fingerprint.value
  }

  /** What a load returns and the cache it leaves. */
  function CachedLoad(lib: Library, key: Key, files: Files, cache: Cache): (Result<Option<string>, string>, Cache) {
    var fingerprint := KeyFingerprint(lib, key, files);
    if Hit(cache, key, fingerprint) then (Ok(Some(cache[key].config)), cache)
    else
      var outcome := LibraryLoad(lib, key, files);
      if outcome.Failed? then (AsResult(outcome), cache)
      else if outcome.Loaded? && fingerprint.Some? then
        (AsResult(outcome), cache[key := Cached(fingerprint.value, outcome.config)])
      else (AsResult(outcome), cache - {key})
  }

  /**
   * Without a cache: the path given as an argument, then that of the environment, then what is found in the directory
   * that the library reads on this platform; nothing found is no error.
   */
  lemma UncachedExactly(lib: Library, argument: Option<Path>, env: Environment, files: Files)
    ensures var home := match lib.platform
                        case Windows => env.userProfile
                        case Unix => env.home
                        case OtherPlatform => None;
            var path := if argument.Some? then argument
                        else if env.configFile.Some? then env.configFile
                        else if home.Some? then Discover(lib, home.value, files)
                        else None;
            UncachedLoad(lib, KeyOf(argument, env), files) ==
            match path
            case None => Ok(None)
            case Some(p) =>
              match lib.parse(p, if p in files then Some(files[p]) else None)
              case Ok(config) => Ok(Some(config))
              case Err(error) => Err(error)
  {
  }

  /** A load that fails leaves the cache alone; one that finds no file forgets what was cached for it. */
  lemma FailuresKeepTheCache(lib: Library, key: Key, files: Files, cache: Cache)
    ensures CachedLoad(lib, key, files, cache).0.Err? ==> CachedLoad(lib, key, files, cache).1 == cache
    ensures CachedLoad(lib, key, files, cache).0 == Ok(None) ==> CachedLoad(lib, key, files, cache).1 == cache - {key}
    ensures forall other :: other != key ==>
              (other in CachedLoad(lib, key, files, cache).1 <==> other in cache)
              && (other in cache ==> CachedLoad(lib, key, files, cache).1[other] == cache[other])
  {
  }

  /** The process-wide cache. */
  class Loader {
    const lib: Library
    var cache: Cache

    constructor (lib: Library)
      ensures this.lib == lib && cache == map[]
    {
      this.lib := lib;
      cache := map[];
    }

    method Load(argument: Option<Path>, env: Environment, files: Files) returns (r: Result<Option<string>, string>)
      modifies this`cache
      ensures (r, cache) == CachedLoad(lib, KeyOf(argument, env), files, old(cache))
    {
      var explicit := if argument.Some? then argument else env.configFile;
      var key := Key(explicit, env.home, env.userProfile);
      var path := explicit;
      if path.None? {
        var home := if env.home.Some? then env.home else env.userProfile;
        if home.Some? {
          path := Discover(lib, home.value, files);
        }
      }
      var fingerprint := FingerprintOf(lib, path, files);
      if Hit(cache, key, fingerprint) {
        return Ok(Some(cache[key].config));
      }
      var loaded := LibraryLoad(lib, key, files);
      match loaded {
        case Failed(error) => return Err(error);
        case Loaded(config) =>
          if fingerprint.Some? {
            cache := cache[key := Cached(fingerprint.value, config)];
          } else {
            cache := cache - {key};
          }
          return Ok(Some(config));
        case _ =>
          cache := cache - {key};
          return Ok(None);
      }
    }
  }

  // ----- Runs -----

  datatype Step =
    | Load(argument: Option<Path>)
    | Write(path: Path, contents: Contents)
    | Remove(path: Path)
    | SetEnvironment(env: Environment)

  function FilesAfter(step: Step, files: Files): Files {
    match step
    case Write(path, contents) => files[path := contents]
    case Remove(path) => files - {path}
    case _ => files
  }

  function EnvAfter(step: Step, env: Environment): Environment {
    if step.SetEnvironment? then step.env else env
  }

  /** What the loads of a run return, through the cache. */
  function CachedRun(lib: Library, env: Environment, files: Files, cache: Cache, steps: seq<Step>)
    : seq<Result<Option<string>, string>>
    decreases |steps|
  {
    if steps == [] then []
    else if steps[0].Load? then
      var (result, cache') := CachedLoad(lib, KeyOf(steps[0].argument, env), files, cache);
      [result] + CachedRun(lib, env, files, cache', steps[1..])
    else
      CachedRun(lib, EnvAfter(steps[0], env), FilesAfter(steps[0], files), cache, steps[1..])
  }

  /** What they would return without one. */
  function UncachedRun(lib: Library, env: Environment, files: Files, steps: seq<Step>)
    : seq<Result<Option<string>, string>>
    decreases |steps|
  {
    if steps == [] then []
    else if steps[0].Load? then
      [UncachedLoad(lib, KeyOf(steps[0].argument, env), files)] + UncachedRun(lib, env, files, steps[1..])
    else
      UncachedRun(lib, EnvAfter(steps[0], env), FilesAfter(steps[0], files), steps[1..])
  }

  // ----- When the cache cannot be noticed -----

  /** Contents with equal hashes give the same configuration when one of them gives a configuration. */
  ghost predicate Separates(lib: Library) {
    forall path, a, b ::
      lib.hash(a) == lib.hash(b) && lib.parse(path, Some(a)).Ok? ==>
        lib.parse(path, Some(b)) == lib.parse(path, Some(a))
  }

  /** Both directories hold the same configuration files. */
  predicate SameDirectory(lib: Library, a: string, b: string) {
    forall k :: 0 <= k < |NAMES| ==> lib.join(a, NAMES[k]) == lib.join(b, NAMES[k])
  }

  /** What is fingerprinted is in the directory that the library reads, if it reads any. */
  predicate Aligned(lib: Library, key: Key) {
    key.explicitPath.None? && lib.platform.Windows? && key.home.Some? && key.userProfile.Some? ==>
      SameDirectory(lib, key.home.value, key.userProfile.value)
  }

  predicate AlignedIn(lib: Library, env: Environment) {
    Aligned(lib, KeyOf(None, env))
  }

  lemma {:induction false} SameFirstReadable(lib: Library, a: string, b: string, names: seq<string>, files: Files)
    requires forall k :: 0 <= k < |names| ==> lib.join(a, names[k]) == lib.join(b, names[k])
    ensures FirstReadable(lib, a, names, files) == FirstReadable(lib, b, names, files)
  {
    if names != [] {
      assert lib.join(a, names[0]) == lib.join(b, names[0]);
      forall k | 0 <= k < |names[1..]|
        ensures lib.join(a, names[1..][k]) == lib.join(b, names[1..][k])
      {
        assert names[1..][k] == names[k + 1];
      }
      SameFirstReadable(lib, a, b, names[1..], files);
    }
  }

  /** With an explicit path or a directory of its own, the library reads what was fingerprinted. */
  predicate Reads(lib: Library, key: Key) {
    key.explicitPath.Some? || LibraryHome(lib, key).Some?
  }

  lemma LoadsWhatIsFingerprinted(lib: Library, key: Key, files: Files)
    requires Aligned(lib, key) && Reads(lib, key)
    ensures match SelectedPath(lib, key, files)
            case None => LibraryLoad(lib, key, files) == ConfigNotFound
            case Some(path) => LibraryLoad(lib, key, files) == LoadPath(lib, path, files)
  {
    if key.explicitPath.None? && lib.platform.Windows? && key.home.Some? {
      SameFirstReadable(lib, key.home.value, key.userProfile.value, NAMES, files);
    }
  }

  ghost predicate LoadedFrom(lib: Library, cached: Cached, contents: Contents) {
    && lib.hash(contents) == cached.fingerprint.contentHash
    && lib.parse(cached.fingerprint.path, Some(contents)) == Ok(cached.config)
  }

  ghost predicate WasLoaded(lib: Library, cached: Cached) {
    exists contents :: LoadedFrom(lib, cached, contents)
  }

  /** Every entry of an aligned key was once loaded from contents with the recorded hash. */
  ghost predicate Coherent(lib: Library, cache: Cache) {
    forall key :: key in cache && Aligned(lib, key) ==> Reads(lib, key) && WasLoaded(lib, cache[key])
  }

  lemma HitIsCurrent(lib: Library, key: Key, files: Files, cache: Cache)
    requires Coherent(lib, cache) && Aligned(lib, key) && Separates(lib)
    requires Hit(cache, key, KeyFingerprint(lib, key, files))
    ensures UncachedLoad(lib, key, files) == Ok(Some(cache[key].config))
  {
    assert WasLoaded(lib, cache[key]);
    var earlier :| LoadedFrom(lib, cache[key], earlier);
    LoadsWhatIsFingerprinted(lib, key, files);
    var path := SelectedPath(lib, key, files).value;
    assert lib.parse(path, Some(files[path])) == lib.parse(path, Some(earlier));
  }

  lemma LoadIsCoherent(lib: Library, key: Key, files: Files, cache: Cache)
    requires Coherent(lib, cache)
    ensures Coherent(lib, CachedLoad(lib, key, files, cache).1)
    ensures Separates(lib) && Aligned(lib, key) ==>
              CachedLoad(lib, key, files, cache).0 == UncachedLoad(lib, key, files)
  {
    var fingerprint := KeyFingerprint(lib, key, files);
    if Hit(cache, key, fingerprint) {
      if Separates(lib) && Aligned(lib, key) {
        HitIsCurrent(lib, key, files, cache);
      }
    } else if fingerprint.Some? && Aligned(lib, key) && LibraryLoad(lib, key, files).Loaded? {
      LoadsWhatIsFingerprinted(lib, key, files);
      var entry := Cached(fingerprint.value, LibraryLoad(lib, key, files).config);
      assert LoadedFrom(lib, entry, files[fingerprint.value.path]);
      assert WasLoaded(lib, entry);
    }
  }

  /** Every environment of the run is one of `envs`. */
  ghost predicate StaysIn(envs: iset<Environment>, env: Environment, steps: seq<Step>) {
    env in envs && forall k :: 0 <= k < |steps| && steps[k].SetEnvironment? ==> steps[k].env in envs
  }

  lemma {:induction false} RunsAgree(lib: Library, envs: iset<Environment>, env: Environment, files: Files,
                                     cache: Cache, steps: seq<Step>)
    requires Separates(lib) && Coherent(lib, cache)
    requires StaysIn(envs, env, steps) && forall e <- envs :: AlignedIn(lib, e)
    ensures CachedRun(lib, env, files, cache, steps) == UncachedRun(lib, env, files, steps)
    decreases |steps|
  {
    if steps != [] {
      var first, rest := steps[0], steps[1..];
      StaysInTail(envs, env, steps);
      if first.Load? {
        var key := KeyOf(first.argument, env);
        assert AlignedIn(lib, env);
        LoadIsCoherent(lib, key, files, cache);
        RunsAgree(lib, envs, env, files, CachedLoad(lib, key, files, cache).1, rest);
      } else {
        RunsAgree(lib, envs, EnvAfter(first, env), FilesAfter(first, files), cache, rest);
      }
    }
  }

  lemma StaysInTail(envs: iset<Environment>, env: Environment, steps: seq<Step>)
    requires StaysIn(envs, env, steps) && steps != []
    ensures StaysIn(envs, EnvAfter(steps[0], env), steps[1..])
  {
    assert forall k | 0 <= k < |steps[1..]| :: steps[1..][k] == steps[k + 1];
  }

  /** Through whatever edits and changes of the environment, as long as it is one of `envs`. */
  ghost predicate NeverNoticed(lib: Library, envs: iset<Environment>) {
    forall env, files, steps | StaysIn(envs, env, steps) ::
      CachedRun(lib, env, files, map[], steps) == UncachedRun(lib, env, files, steps)
  }

  // ----- Runs that notice it -----

  /** A file is loaded, changed and loaded again. */
  function ChangeRun(argument: Option<Path>, change: Step): seq<Step> {
    [Load(argument), change, Load(argument)]
  }

  /** A change that the fingerprint does not show gives the old configuration again. */
  lemma UnseenChange(lib: Library, env: Environment, files: Files, argument: Option<Path>, change: Step)
    requires change.Write? || change.Remove?
    requires var key := KeyOf(argument, env);
             && LibraryLoad(lib, key, files).Loaded?
             && KeyFingerprint(lib, key, files).Some?
             && KeyFingerprint(lib, key, FilesAfter(change, files)) == KeyFingerprint(lib, key, files)
    ensures var key := KeyOf(argument, env);
            var before, after := UncachedLoad(lib, key, files), UncachedLoad(lib, key, FilesAfter(change, files));
            && CachedRun(lib, env, files, map[], ChangeRun(argument, change)) == [before, before]
            && UncachedRun(lib, env, files, ChangeRun(argument, change)) == [before, after]
  {
    var key, last := KeyOf(argument, env), [Load(argument)];
    var before, after := UncachedLoad(lib, key, files), UncachedLoad(lib, key, FilesAfter(change, files));
    assert ChangeRun(argument, change)[1..] == [change] + last && ([change] + last)[1..] == last && last[1..] == [];
    var cache := CachedLoad(lib, key, files, map[]).1;
    var changed := FilesAfter(change, files);
    assert CachedRun(lib, env, changed, cache, last) == [before] + [];
    assert UncachedRun(lib, env, changed, last) == [after] + [];
    assert [before] + [before] == [before, before] && [before] + [after] == [before, after];
  }

  lemma CollisionIsNoticed(lib: Library, env: Environment, path: Path, a: Contents, b: Contents)
    requires lib.hash(a) == lib.hash(b) && lib.parse(path, Some(a)).Ok?
    requires lib.parse(path, Some(b)) != lib.parse(path, Some(a))
    ensures CachedRun(lib, env, map[path := a], map[], ChangeRun(Some(path), Write(path, b)))
         != UncachedRun(lib, env, map[path := a], ChangeRun(Some(path), Write(path, b)))
  {
    UnseenChange(lib, env, map[path := a], Some(path), Write(path, b));
    var key := KeyOf(Some(path), env);
    var before, after := UncachedLoad(lib, key, map[path := a]), UncachedLoad(lib, key, map[path := b]);
    assert map[path := a][path := b] == map[path := b];
    assert [before, before][1] != [before, after][1];
  }

  predicate Readable(lib: Library, path: Path, contents: Contents) {
    lib.parse(path, Some(contents)).Ok?
  }

  ghost predicate HasReadable(lib: Library, path: Path) {
    exists contents :: Readable(lib, path, contents)
  }

  /** The file names give different files, and each of them can hold a configuration. */
  ghost predicate Usual(lib: Library) {
    && (forall a, b, m, n :: m in NAMES && n in NAMES && lib.join(a, m) == lib.join(b, n) ==> m == n)
    && (forall home, name :: name in NAMES ==> HasReadable(lib, lib.join(home, name)))
  }

  /** A directory with one configuration file is searched in vain up to that file. */
  lemma {:induction false} OnlyFile(lib: Library, home: string, names: seq<string>, name: string, files: Files)
    requires name in names && lib.join(home, name) in files
    requires forall other <- names :: lib.join(home, other) in files ==> other == name
    ensures FirstReadable(lib, home, names, files) == Some(lib.join(home, name))
  {
    assert names == [names[0]] + names[1..];
    if names[0] != name {
      OnlyFile(lib, home, names[1..], name, files);
    }
  }

  lemma {:induction false} NoFile(lib: Library, home: string, names: seq<string>, files: Files)
    requires forall other <- names :: lib.join(home, other) !in files
    ensures FirstReadable(lib, home, names, files) == None
  {
    if names != [] {
      assert names == [names[0]] + names[1..];
      NoFile(lib, home, names[1..], files);
    }
  }

  /** At most one configuration file in each of two directories. */
  lemma Discovered(lib: Library, home: string, name: string, path: Path, other: Path, files: Files)
    requires Usual(lib) && name in NAMES
    requires exists dir :: path == lib.join(dir, name)
    requires exists dir :: other == lib.join(dir, name)
    requires files.Keys <= {path, other}
    ensures Discover(lib, home, files) == if lib.join(home, name) in files then Some(lib.join(home, name)) else None
  {
    forall file <- NAMES
      ensures lib.join(home, file) in files ==> file == name
    {
    }
    if lib.join(home, name) in files {
      OnlyFile(lib, home, NAMES, name, files);
    } else {
      NoFile(lib, home, NAMES, files);
    }
  }

  /** Windows, and two variables that name different directories. */
  function Split(home: string, userProfile: string): Environment {
    Environment(None, Some(home), Some(userProfile))
  }

  lemma SplitLoads(lib: Library, home: string, userProfile: string, name: string, files: Files)
    requires lib.platform.Windows? && Usual(lib) && name in NAMES
    requires lib.join(home, name) in files
    requires files.Keys <= {lib.join(home, name), lib.join(userProfile, name)}
    ensures var key, path := KeyOf(None, Split(home, userProfile)), lib.join(userProfile, name);
            && SelectedPath(lib, key, files) == Some(lib.join(home, name))
            && LibraryLoad(lib, key, files) == if path in files then LoadPath(lib, path, files) else ConfigNotFound
  {
    Discovered(lib, home, name, lib.join(home, name), lib.join(userProfile, name), files);
    Discovered(lib, userProfile, name, lib.join(home, name), lib.join(userProfile, name), files);
  }

  /**
   * On Windows, with files in the directories of both variables: the file that the library reads is changed or
   * removed, the fingerprinted one is not, and the old configuration comes back, whatever the hash.
   */
  lemma WindowsReadsStale(lib: Library, home: string, userProfile: string, name: string, kept: Contents, a: Contents,
                          change: Step)
    requires lib.platform.Windows? && Usual(lib) && name in NAMES
    requires lib.join(home, name) != lib.join(userProfile, name)
    requires Readable(lib, lib.join(userProfile, name), a)
    requires (change.Write? || change.Remove?) && change.path == lib.join(userProfile, name)
    ensures var files := map[lib.join(home, name) := kept, change.path := a];
            var before := Ok(Some(lib.parse(change.path, Some(a)).value));
            var after := if change.Write? then AsResult(LoadPath(lib, change.path, map[change.path := change.contents]))
                         else Ok(None);
            && CachedRun(lib, Split(home, userProfile), files, map[], ChangeRun(None, change)) == [before, before]
            && UncachedRun(lib, Split(home, userProfile), files, ChangeRun(None, change)) == [before, after]
  {
    var files := map[lib.join(home, name) := kept, change.path := a];
    SplitLoads(lib, home, userProfile, name, files);
    SplitLoads(lib, home, userProfile, name, FilesAfter(change, files));
    UnseenChange(lib, Split(home, userProfile), files, None, change);
  }

  lemma MisalignedIsNoticed(lib: Library, envs: iset<Environment>, env: Environment)
    requires Usual(lib) && env in envs && !AlignedIn(lib, env)
    ensures !NeverNoticed(lib, envs)
  {
    var home, userProfile := env.home.value, env.userProfile.value;
    var k :| 0 <= k < |NAMES| && lib.join(home, NAMES[k]) != lib.join(userProfile, NAMES[k]);
    RemovalIsNoticed(lib, envs, home, userProfile, NAMES[k]);
    assert env == Split(home, userProfile);
  }

  lemma RemovalIsNoticed(lib: Library, envs: iset<Environment>, home: string, userProfile: string, name: string)
    requires lib.platform.Windows? && Usual(lib) && name in NAMES && Split(home, userProfile) in envs
    requires lib.join(home, name) != lib.join(userProfile, name)
    ensures !NeverNoticed(lib, envs)
  {
    var path := lib.join(userProfile, name);
    assert HasReadable(lib, path);
    var a :| Readable(lib, path, a);
    WindowsReadsStale(lib, home, userProfile, name, a, a, Remove(path));
    var files, steps := map[lib.join(home, name) := a, path := a], ChangeRun(None, Remove(path));
    var config: Result<Option<string>, string> := Ok(Some(lib.parse(path, Some(a)).value));
    assert [config, config][1] != [config, Ok(None)][1];
    assert StaysIn(envs, Split(home, userProfile), steps);
    assert CachedRun(lib, Split(home, userProfile), files, map[], steps)
        != UncachedRun(lib, Split(home, userProfile), files, steps);
  }

  lemma CollidingIsNoticed(lib: Library, envs: iset<Environment>)
    requires envs != iset{} && !Separates(lib)
    ensures !NeverNoticed(lib, envs)
  {
    var path, a, b :| lib.hash(a) == lib.hash(b) && lib.parse(path, Some(a)).Ok?
                      && lib.parse(path, Some(b)) != lib.parse(path, Some(a));
    var env :| env in envs;
    CollisionIsNoticed(lib, env, path, a, b);
    assert StaysIn(envs, env, ChangeRun(Some(path), Write(path, b)));
  }

  /**
   * Over every interleaving of loads, edits and changes among some environments each load returns what it would
   * without the cache, exactly when the hash separates contents that load differently and, on Windows, both
   * variables name the same directory wherever both are set and no file is.
   */
  lemma NeverNoticedExactly(lib: Library, envs: iset<Environment>)
    requires Usual(lib) && envs != iset{}
    ensures NeverNoticed(lib, envs) <==> Separates(lib) && forall env <- envs :: AlignedIn(lib, env)
  {
    if Separates(lib) && forall env <- envs :: AlignedIn(lib, env) {
      forall env, files, steps | StaysIn(envs, env, steps)
        ensures CachedRun(lib, env, files, map[], steps) == UncachedRun(lib, env, files, steps)
      {
        RunsAgree(lib, envs, env, files, map[], steps);
      }
    } else if !Separates(lib) {
      CollidingIsNoticed(lib, envs);
    } else {
      var env :| env in envs && !AlignedIn(lib, env);
      MisalignedIsNoticed(lib, envs, env);
    }
  }

  /** On the other platforms nothing but the hash matters, whatever the environments. */
  lemma UnixNeverNoticedExactly(lib: Library, envs: iset<Environment>)
    requires Usual(lib) && envs != iset{} && !lib.platform.Windows?
    ensures NeverNoticed(lib, envs) <==> Separates(lib)
  {
    NeverNoticedExactly(lib, envs);
  }
}
