/** The commands of the local stack as they update its state directory and the machine step by step. */
module LocalCommands {
  import opened Text
  import opened SetupImage
  import opened LocalStack

  /** The state directory as a command holds it, and the machine it acts on. */
  class LocalState {
    const semver: SemVer
    const binary: Binary
    const existing: bool
    var values: Values
    var world: World

    constructor Load(semver: SemVer, binary: Binary, world: World)
      ensures this.semver == semver && this.binary == binary && this.world == world
      ensures existing == world.env.Some? && values == world.env.GetOr(NO_VALUES)
    {
      this.semver := semver;
      this.binary := binary;
      this.world := world;
      existing := world.env.Some?;
      values := world.env.GetOr(NO_VALUES);
    }

    method WriteEnv()
      modifies this`world
      ensures world == old(world).(env := Some(values))
    {
      world := world.(env := Some(values));
    }

    method WriteCompose(mode: Mode)
      modifies this`world
      ensures world == old(world).(compose := Some(ComposeFor(semver, values, mode)))
    {
      var image := values.esdiagImage.GetOr("");
      var setup := if mode == Full then Some(CommandForImage(semver, image)) else None;
      world := world.(compose := Some(Compose(setup)));
    }

    method Initialize(mode: Mode, runtime: string, writes: bool)
      modifies this
      ensures values == Initialized(old(values), binary, runtime)
      ensures world == if writes then old(world).(compose := Some(ComposeFor(semver, values, mode))) else old(world)
    {
      values := values.(esdiagVersion := Or(values.esdiagVersion, binary.esdiag));
      values := values.(elasticVersion := Or(values.elasticVersion, binary.elastic));
      values := values.(runtime := Some(runtime));
      values := values.(outputApiKey := Or(values.outputApiKey, PENDING));
      values := values.(elasticsearchImage := Or(values.elasticsearchImage, ELASTICSEARCH_IMAGE + binary.elastic));
      values := values.(kibanaImage := Or(values.kibanaImage, KIBANA_IMAGE + binary.elastic));
      values := values.(esdiagImage := Or(values.esdiagImage, ESDIAG_IMAGE + binary.esdiag));
      values := values.(logLevel := Or(values.logLevel, INFO));
      if writes {
        WriteCompose(mode);
      }
    }

    method RecordCurrentVersions()
      modifies this`values
      ensures values == WithCurrentVersions(old(values), binary)
    {
      values := values.(elasticVersion := Some(binary.elastic), esdiagVersion := Some(binary.esdiag));
      values := values.(elasticsearchImage := Some(ELASTICSEARCH_IMAGE + binary.elastic));
      values := values.(kibanaImage := Some(KIBANA_IMAGE + binary.elastic));
      values := values.(esdiagImage := Some(ESDIAG_IMAGE + binary.esdiag));
    }

    method ConfigureSecurity(apiKey: Option<string>) returns (ok: bool)
      modifies this`values
      ensures ok == apiKey.Some?
      ensures values == if ok && old(values).outputApiKey == Some(PENDING) then old(values).(outputApiKey := apiKey)
                        else old(values)
    {
      if apiKey.None? {
        return false;
      }
      if values.outputApiKey == Some(PENDING) {
        values := values.(outputApiKey := apiKey);
      }
      return true;
    }

    method SetUpMode(mode: Mode, runs: bool, succeeds: bool) returns (ok: bool)
      modifies this`world
      ensures ok == succeeds
      ensures world == if mode == Full && runs then RanSetup(old(world)) else old(world)
    {
      if mode == Full && runs {
        world := RanSetup(world);
      }
      return succeeds;
    }

    method Launch(stopFirst: bool, runtime: string, pull: bool, fate: UpFate) returns (ok: bool)
      modifies this`world
      ensures Progress(values, world, ok) == Launched(values, old(world), stopFirst, runtime, pull, fate)
    {
      if stopFirst && !fate.stops {
        return false;
      }
      if pull && !fate.pulls {
        return false;
      }
      if fate.starts || fate.createsElasticsearch {
        world := WithVolume(world, runtime, Elasticsearch);
      }
      if fate.starts || fate.createsKibana {
        world := WithVolume(world, runtime, Kibana);
      }
      if fate.opens {
        world := StartedElasticsearch(world, runtime);
      }
      return fate.starts;
    }

    method Secure(fate: UpFate) returns (ok: bool)
      modifies this
      ensures Progress(values, world, ok) == Secured(old(values), old(world), fate)
    {
      var secured := ConfigureSecurity(fate.apiKey);
      if !secured || !fate.writesKey {
        return false;
      }
      WriteEnv();
      return fate.ready;
    }

    method Serve(mode: Mode, runtime: string, fate: UpFate) returns (ok: bool)
      modifies this
      ensures Progress(values, world, ok) == Served(old(values), old(world), mode, runtime, fate)
    {
      var setUp := SetUpMode(mode, fate.runsSetup, fate.setUp);
      if !setUp {
        return false;
      }
      if mode == Full && fate.serves {
        world := WithVolume(world, runtime, Esdiag);
      }
      values := values.(stackMode := Some(ModeText(mode)));
      if !fate.served || !fate.writesMode {
        return false;
      }
      WriteEnv();
      return true;
    }

    method Prepare(mode: Mode, runtime: string, level: Option<string>, fate: UpFate) returns (ok: bool)
      modifies this
      ensures Progress(values, world, ok)
           == Prepared(semver, binary, old(values), old(world), mode, runtime, level, fate)
    {
      Initialize(mode, runtime, fate.writesCompose);
      if !fate.writesCompose {
        return false;
      }
      if level.Some? {
        values := values.(logLevel := level);
      }
      if !fate.writesEnv {
        return false;
      }
      WriteEnv();
      return true;
    }

    /** Containers, waits and assets, once both files are written. */
    method Continue(mode: Mode, stopFirst: bool, runtime: string, pull: bool, fate: UpFate) returns (ok: bool)
      modifies this
      ensures Progress(values, world, ok)
           == Continued(old(values), old(world), mode, stopFirst, runtime, pull, fate)
    {
      ok := Launch(stopFirst, runtime, pull, fate);
      if ok {
        ok := Secure(fate);
        if ok {
          ok := Serve(mode, runtime, fate);
        }
      }
    }

    method Up(runtime: string, requested: Mode, level: Option<string>, pull: bool, fate: UpFate) returns (ok: bool)
      modifies this
      ensures Progress(values, world, ok)
           == LocalStack.Up(semver, binary, old(values), existing, old(world), runtime, requested, level, pull, fate)
    {
      var resolved := ResolveMode(values, existing, requested);
      if resolved.None? || !Coupled(world, values, existing, runtime) {
        return false;
      }
      var mode := resolved.value;
      var stopFirst := existing && ActiveMode(values, existing) == Full && mode == Core;
      ok := Prepare(mode, runtime, level, fate);
      if ok {
        ok := Continue(mode, stopFirst, runtime, pull, fate);
      }
    }

    method Upgrade(runtime: string, requested: Mode, level: Option<string>, fate: UpgradeFate, upFate: UpFate)
      returns (ok: bool)
      modifies this
      ensures Progress(values, world, ok)
           == LocalStack.Upgrade(semver, binary, old(values), existing, old(world), runtime, requested, level, fate,
                                 upFate)
    {
      if !existing || requested != Auto {
        return false;
      }
      var resolved := ResolveMode(values, existing, Auto);
      if resolved.None? || RecordedIsNewer(semver, values, binary) != Some(false) {
        return false;
      }
      var mode := resolved.value;
      if !HasPendingUpgrades(values, binary, mode) {
        return true;
      }
      if !fate.confirmed || !Coupled(world, values, existing, runtime) || fate.running.None? {
        return false;
      }
      var previous := values;
      RecordCurrentVersions();
      if !fate.writesEnv {
        return false;
      }
      WriteEnv();
      if !fate.writesCompose {
        return false;
      }
      WriteCompose(mode);
      if !fate.pulls {
        values := previous;
        if fate.restores {
          WriteEnv();
        }
        return false;
      }
      if fate.running.value {
        ok := Up(runtime, mode, level, false, upFate);
      } else {
        return true;
      }
    }

    method SetUp(runtime: string, fate: SetUpFate) returns (ok: bool)
      modifies this`world
      ensures Progress(values, world, ok)
           == LocalStack.SetUp(semver, values, existing, old(world), runtime, fate)
    {
      if !Coupled(world, values, existing, runtime) {
        return false;
      }
      if existing {
        if !fate.writesCompose {
          return false;
        }
        WriteCompose(ActiveMode(values, existing));
      }
      ok := SetUpMode(ActiveMode(values, existing), fate.runsSetup, fate.setUp);
    }

    method Restart(runtime: string, level: Option<string>, writes: bool, services: seq<(Service, RestartFate)>)
      returns (ok: bool)
      modifies this
      ensures Progress(values, world, ok)
           == LocalStack.Restart(old(values), old(world), runtime, level, writes, services)
    {
      if level.Some? {
        values := values.(logLevel := level);
        if !writes {
          return false;
        }
        WriteEnv();
      }
      ghost var start := world;
      for k := 0 to |services|
        invariant values == if level.Some? then old(values).(logLevel := level) else old(values)
        invariant RestartedAll(values, start, runtime, services)
               == RestartedAll(values, world, runtime, services[k..])
      {
        var (service, fate) := services[k];
        assert services[k..][1..] == services[k + 1..];
        var succeeds := Succeeds(values, world, service, fate);
        world := Restarted(values, world, runtime, service, fate);
        if !succeeds {
          return false;
        }
      }
      return true;
    }

    method Reset(runtime: string, force: bool, fate: ResetFate) returns (ok: bool)
      modifies this`world
      ensures world == LocalStack.Reset(old(world), runtime, force, fate)
      ensures ok == (force && Completes(old(world), fate))
    {
      if !force || !fate.stops || world.compose.None? {
        return false;
      }
      var volumes := VolumesOf(world, runtime);
      if fate.downs || fate.dropsElasticsearch {
        volumes := volumes.(elasticsearch := None);
      }
      if fate.downs || fate.dropsKibana {
        volumes := volumes.(kibana := false);
      }
      if DeclaresEsdiag(world.compose.value) && (fate.downs || fate.dropsEsdiag) {
        volumes := volumes.(esdiag := false);
      }
      world := world.(volumes := world.volumes[runtime := volumes]);
      if !fate.downs {
        return false;
      }
      if fate.removes || fate.dropsEnv {
        world := world.(env := None);
      }
      if fate.removes || fate.dropsCompose {
        world := world.(compose := None);
      }
      return fate.removes;
    }
  }
}
