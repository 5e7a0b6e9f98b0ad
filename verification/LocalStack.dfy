/** The local stack's lifecycle: its state directory, its container volumes, and what each command does to them. */
module LocalStack {
  import opened Text
  import opened SetupImage

  // ----- The state directory -----

  datatype Mode = Auto | Core | Full

  const AUTO := "auto"
  const CORE := "core"
  const FULL := "full"
  const PENDING := "pending"
  const INFO := "info"

  /** The versions built into one release of the program. */
  datatype Binary = Binary(elastic: string, esdiag: string)

  /** The settings of `.env` that commands decide by. */
  datatype Values = Values(
    elasticVersion: Option<string>,
    esdiagVersion: Option<string>,
    elasticsearchImage: Option<string>,
    kibanaImage: Option<string>,
    esdiagImage: Option<string>,
    outputApiKey: Option<string>,
    stackMode: Option<string>,
    runtime: Option<string>,
    logLevel: Option<string>)

  const NO_VALUES := Values(None, None, None, None, None, None, None, None, None)

  /** A compose file; only the full mode has a setup service. */
  datatype Compose = Compose(setup: Option<Command>)

  // ----- The machine -----

  /** The volumes of one container runtime, with the Elasticsearch versions that opened the data volume. */
  datatype Volumes = Volumes(elasticsearch: Option<seq<string>>, kibana: bool, esdiag: bool)

  const NO_VOLUMES := Volumes(None, false, false)

  /** A start of Elasticsearch on a volume that other versions had opened before. */
  datatype Start = Start(version: string, before: seq<string>)

  /** A run of the setup service: its command and the image it ran in. */
  datatype SetupRun = SetupRun(command: Command, image: string)

  datatype World = World(
    env: Option<Values>,
    compose: Option<Compose>,
    volumes: map<string, Volumes>,
    starts: seq<Start>,
    setups: seq<SetupRun>)

  const NEW_WORLD := World(None, None, map[], [], [])

  function VolumesOf(w: World, runtime: string): Volumes {
    if runtime in w.volumes then w.volumes[runtime] else NO_VOLUMES
  }

  function Opened(w: World, runtime: string): seq<string> {
    VolumesOf(w, runtime).elasticsearch.GetOr([])
  }

  const ELASTICSEARCH_IMAGE := "docker.elastic.co/elasticsearch/elasticsearch:"
  const KIBANA_IMAGE := "docker.elastic.co/kibana/kibana:"
  const ESDIAG_IMAGE := "docker.elastic.co/esdiag/esdiag:"

  /** The version of Elasticsearch in an image. */
  function ImageVersion(image: string): string {
    if ELASTICSEARCH_IMAGE <= image then image[|ELASTICSEARCH_IMAGE|..] else image
  }

  /** The services that a command line may name; any other name is that of no service. */
  datatype Service = Elasticsearch | Kibana | Esdiag | SetupService | OtherService

  /** The services of the compose file. The setup service is in a profile, which naming the service activates. */
  predicate Declares(compose: Option<Compose>, service: Service) {
    match service
    case Elasticsearch => compose.Some?
    case Kibana => compose.Some?
    case Esdiag => compose.Some? && compose.value.setup.Some?
    case SetupService => compose.Some? && compose.value.setup.Some?
    case OtherService => false
  }

  /** The setup service has no volume. */
  function WithVolume(w: World, runtime: string, service: Service): World {
    var volumes := VolumesOf(w, runtime);
    match service
    case Elasticsearch =>
      w.(volumes := w.volumes[runtime := volumes.(elasticsearch := Some(Opened(w, runtime)))])
    case Kibana => w.(volumes := w.volumes[runtime := volumes.(kibana := true)])
    case Esdiag => w.(volumes := w.volumes[runtime := volumes.(esdiag := true)])
    case _ => w
  }

  /** Elasticsearch opens its volume in the image that `.env` names; without one nothing can start. */
  function StartedElasticsearch(w: World, runtime: string): World {
    if w.compose.None? || w.env.None? || w.env.value.elasticsearchImage.None? then w
    else
      var version := ImageVersion(w.env.value.elasticsearchImage.value);
      var volumes := VolumesOf(w, runtime).(elasticsearch := Some(Opened(w, runtime) + [version]));
      w.(volumes := w.volumes[runtime := volumes], starts := w.starts + [Start(version, Opened(w, runtime))])
  }

  /** The setup service runs the command of the compose file in the image that `.env` names. */
  function RanSetup(w: World): World {
    if w.compose.None? || w.compose.value.setup.None? || w.env.None? || w.env.value.esdiagImage.None? then w
    else w.(setups := w.setups + [SetupRun(w.compose.value.setup.value, w.env.value.esdiagImage.value)])
  }

  // ----- Values -----

  function ModeText(mode: Mode): string {
    match mode
    case Auto => AUTO
    case Core => CORE
    case Full => FULL
  }

  function ResolveMode(values: Values, existing: bool, requested: Mode): Option<Mode> {
    if requested != Auto then Some(requested)
    else if values.stackMode == Some(FULL) then Some(Full)
    else if values.stackMode == Some(CORE) then Some(Core)
    else if values.stackMode.Some? then None
    else if existing then Some(Full)
    else Some(Core)
  }

  function ActiveMode(values: Values, existing: bool): Mode {
    if values.stackMode == Some(AUTO) then Auto
    else if values.stackMode == Some(CORE) then Core
    else if values.stackMode == Some(FULL) then Full
    else if existing then Full
    else Core
  }

  function Or(current: Option<string>, default: string): Option<string> {
    if current.Some? then current else Some(default)
  }

  /** Missing settings filled in; only the runtime replaces what is there. */
  function Initialized(values: Values, b: Binary, runtime: string): Values {
    Values(
      Or(values.elasticVersion, b.elastic),
      Or(values.esdiagVersion, b.esdiag),
      Or(values.elasticsearchImage, ELASTICSEARCH_IMAGE + b.elastic),
      Or(values.kibanaImage, KIBANA_IMAGE + b.elastic),
      Or(values.esdiagImage, ESDIAG_IMAGE + b.esdiag),
      Or(values.outputApiKey, PENDING),
      values.stackMode,
      Some(runtime),
      Or(values.logLevel, INFO))
  }

  function WithCurrentVersions(values: Values, b: Binary): Values {
    values.(
    elasticVersion := Some(b.elastic),
    esdiagVersion := Some(b.esdiag),
    elasticsearchImage := Some(ELASTICSEARCH_IMAGE + b.elastic),
    kibanaImage := Some(KIBANA_IMAGE + b.elastic),
    esdiagImage := Some(ESDIAG_IMAGE + b.esdiag))
  }

  function ComposeFor(semver: SemVer, values: Values, mode: Mode): Compose {
    Compose(if mode == Full then Some(CommandForImage(semver, values.esdiagImage.GetOr(""))) else None)
  }

  /** Whether the volumes fit the state directory. */
  predicate Coupled(w: World, values: Values, existing: bool, runtime: string) {
    var volumes := VolumesOf(w, runtime);
    if !existing then volumes.elasticsearch.None? && !volumes.kibana && !volumes.esdiag
    else
      values.outputApiKey.Some? && values.outputApiKey.value != PENDING ==>
        volumes.elasticsearch.Some? && volumes.kibana
  }

  // ----- Commands -----

  /** Where a command stopped: the values it held, what it left behind, and whether it succeeded. */
  datatype Progress = Progress(values: Values, world: World, ok: bool)

  /** What the machine does during `up`: which writes, containers and waits succeed. */
  datatype UpFate = UpFate(
    writesCompose: bool, writesEnv: bool, stops: bool, pulls: bool,
    createsElasticsearch: bool, createsKibana: bool, opens: bool, starts: bool,
    apiKey: Option<string>, writesKey: bool, ready: bool, runsSetup: bool, setUp: bool, serves: bool, served: bool,
    writesMode: bool)

  function Prepared(semver: SemVer, b: Binary, values: Values, w: World, mode: Mode, runtime: string,
                    level: Option<string>, fate: UpFate): Progress
  {
    var initialized := Initialized(values, b, runtime);
    if !fate.writesCompose then Progress(initialized, w, false)
    else
      var w1 := w.(compose := Some(ComposeFor(semver, initialized, mode)));
      var levelled := if level.Some? then initialized.(logLevel := level) else initialized;
      if !fate.writesEnv then Progress(levelled, w1, false)
      else Progress(levelled, w1.(env := Some(levelled)), true)
  }

  function Launched(values: Values, w: World, stopFirst: bool, runtime: string, pull: bool, fate: UpFate): Progress {
    if (stopFirst && !fate.stops) || (pull && !fate.pulls) then Progress(values, w, false)
    else
      var w1 := if fate.starts || fate.createsElasticsearch then WithVolume(w, runtime, Elasticsearch) else w;
      var w2 := if fate.starts || fate.createsKibana then WithVolume(w1, runtime, Kibana) else w1;
      var w3 := if fate.opens then StartedElasticsearch(w2, runtime) else w2;
      Progress(values, w3, fate.starts)
  }

  /** Elasticsearch answers, and hands out an API key if there is none. */
  function Secured(values: Values, w: World, fate: UpFate): Progress {
    if fate.apiKey.None? then Progress(values, w, false)
    else
      var keyed := if values.outputApiKey == Some(PENDING) then values.(outputApiKey := fate.apiKey) else values;
      if !fate.writesKey then Progress(keyed, w, false)
      else Progress(keyed, w.(env := Some(keyed)), fate.ready)
  }

  /** The assets are installed, the web service started and the mode recorded. */
  function Served(values: Values, w: World, mode: Mode, runtime: string, fate: UpFate): Progress {
    var w1 := if mode == Full && fate.runsSetup then RanSetup(w) else w;
    if !fate.setUp then Progress(values, w1, false)
    else
      var w2 := if mode == Full && fate.serves then WithVolume(w1, runtime, Esdiag) else w1;
      var final := values.(stackMode := Some(ModeText(mode)));
      if !fate.served || !fate.writesMode then Progress(final, w2, false)
      else Progress(final, w2.(env := Some(final)), true)
  }

  /** What follows once both files are written. */
  function Continued(values: Values, w: World, mode: Mode, stopFirst: bool, runtime: string, pull: bool, fate: UpFate)
    : Progress
  {
    var launched := Launched(values, w, stopFirst, runtime, pull, fate);
    if !launched.ok then launched
    else
      var secured := Secured(launched.values, launched.world, fate);
      if !secured.ok then secured
      else Served(secured.values, secured.world, mode, runtime, fate)
  }

  function Up(semver: SemVer, b: Binary, values: Values, existing: bool, w: World, runtime: string, requested: Mode,
              level: Option<string>, pull: bool, fate: UpFate): Progress
  {
    match ResolveMode(values, existing, requested)
    case None => Progress(values, w, false)
    case Some(mode) =>
      if !Coupled(w, values, existing, runtime) then Progress(values, w, false)
      else
        var stopFirst := existing && ActiveMode(values, existing) == Full && mode == Core;
        var prepared := Prepared(semver, b, values, w, mode, runtime, level, fate);
        if !prepared.ok then prepared
        else Continued(prepared.values, prepared.world, mode, stopFirst, runtime, pull, fate)
  }

  /** Whether the recorded Elastic version is newer than the binary's; `None` when they cannot be compared. */
  function RecordedIsNewer(semver: SemVer, values: Values, b: Binary): Option<bool> {
    match values.elasticVersion
    case None => Some(false)
    case Some(recorded) =>
      if semver(recorded).None? || semver(b.elastic).None? then None
      else Some(semver(recorded).value.precedence > semver(b.elastic).value.precedence)
  }

  predicate HasPendingUpgrades(values: Values, b: Binary, mode: Mode) {
    || (values.elasticVersion.Some? && values.elasticVersion.value != b.elastic)
    || (mode == Full && values.esdiagVersion.Some? && values.esdiagVersion.value != b.esdiag)
  }

  /** What happens during `upgrade`; `running` is `None` when the containers cannot be listed. */
  datatype UpgradeFate = UpgradeFate(
    confirmed: bool, running: Option<bool>, writesEnv: bool, writesCompose: bool, pulls: bool, restores: bool)

  function Upgrade(semver: SemVer, b: Binary, values: Values, existing: bool, w: World, runtime: string,
                   requested: Mode, level: Option<string>, fate: UpgradeFate, upFate: UpFate): Progress
  {
    var mode := ResolveMode(values, existing, Auto);
    if !existing || requested != Auto || mode.None? || RecordedIsNewer(semver, values, b) != Some(false) then
      Progress(values, w, false)
    else if !HasPendingUpgrades(values, b, mode.value) then Progress(values, w, true)
    else if !fate.confirmed || !Coupled(w, values, existing, runtime) || fate.running.None? then
      Progress(values, w, false)
    else
      var upgraded := WithCurrentVersions(values, b);
      if !fate.writesEnv then Progress(upgraded, w, false)
      else
        var w1 := w.(env := Some(upgraded));
        if !fate.writesCompose then Progress(upgraded, w1, false)
        else
          var w2 := w1.(compose := Some(ComposeFor(semver, upgraded, mode.value)));
          if !fate.pulls then
            Progress(values, if fate.restores then w2.(env := Some(values)) else w2, false)
          else if fate.running.value then
            Up(semver, b, upgraded, existing, w2, runtime, mode.value, level, false, upFate)
          else Progress(upgraded, w2, true)
  }

  datatype SetUpFate = SetUpFate(writesCompose: bool, runsSetup: bool, setUp: bool)

  function SetUp(semver: SemVer, values: Values, existing: bool, w: World, runtime: string, fate: SetUpFate): Progress {
    if !Coupled(w, values, existing, runtime) || (existing && !fate.writesCompose) then Progress(values, w, false)
    else
      var mode := ActiveMode(values, existing);
      var w1 := if existing then w.(compose := Some(ComposeFor(semver, values, mode))) else w;
      var w2 := if mode == Full && fate.runsSetup then RanSetup(w1) else w1;
      Progress(values, w2, fate.setUp)
  }

  datatype RestartFate = RestartFate(creates: bool, opens: bool, succeeds: bool)

  /** In core mode ESDiag is no container. */
  predicate IsNative(values: Values, service: Service) {
    service == Esdiag && values.stackMode == Some(CORE)
  }

  /** One service restarted; the compose file is taken as it is. */
  function Restarted(values: Values, w: World, runtime: string, service: Service, fate: RestartFate): World {
    if IsNative(values, service) || !Declares(w.compose, service) then w
    else
      var w1 := if fate.creates || fate.succeeds then WithVolume(w, runtime, service) else w;
      if !fate.opens then w1
      else if service == Elasticsearch then StartedElasticsearch(w1, runtime)
      else if service == SetupService then RanSetup(w1)
      else w1
  }

  /** Whether the next service gets its turn. */
  predicate Succeeds(values: Values, w: World, service: Service, fate: RestartFate) {
    fate.succeeds && (IsNative(values, service) || Declares(w.compose, service))
  }

  /** The services are restarted in order until one fails. */
  function RestartedAll(values: Values, w: World, runtime: string, services: seq<(Service, RestartFate)>): Progress
    decreases |services|
  {
    if services == [] then Progress(values, w, true)
    else
      var w1 := Restarted(values, w, runtime, services[0].0, services[0].1);
      if Succeeds(values, w, services[0].0, services[0].1) then RestartedAll(values, w1, runtime, services[1..])
      else Progress(values, w1, false)
  }

  /** `writes` is the outcome of recording a new log level, when one is given. */
  function Restart(values: Values, w: World, runtime: string, level: Option<string>, writes: bool,
                   services: seq<(Service, RestartFate)>): Progress
  {
    if level.None? then RestartedAll(values, w, runtime, services)
    else
      var levelled := values.(logLevel := level);
      if !writes then Progress(levelled, w, false)
      else RestartedAll(levelled, w.(env := Some(levelled)), runtime, services)
  }

  /** What a `reset` removes; a failed step may have removed some of what it was to remove. */
  datatype ResetFate = ResetFate(
    stops: bool, downs: bool, dropsElasticsearch: bool, dropsKibana: bool, dropsEsdiag: bool,
    removes: bool, dropsEnv: bool, dropsCompose: bool)

  /** The web service and its volume are only declared in the compose file of the full mode. */
  predicate DeclaresEsdiag(compose: Compose) {
    compose.setup.Some?
  }

  /** Taking the stack down with its volumes: those that the compose file declares. */
  function Downed(volumes: Volumes, compose: Compose, fate: ResetFate): Volumes {
    Volumes(
      if fate.downs || fate.dropsElasticsearch then None else volumes.elasticsearch,
      volumes.kibana && !fate.downs && !fate.dropsKibana,
      volumes.esdiag && !(DeclaresEsdiag(compose) && (fate.downs || fate.dropsEsdiag)))
  }

  /** Without a compose file there is nothing to take down, and the reset fails. */
  function Reset(w: World, runtime: string, force: bool, fate: ResetFate): World {
    if !force || !fate.stops || w.compose.None? then w
    else
      var left := Downed(VolumesOf(w, runtime), w.compose.value, fate);
      var w1 := w.(volumes := w.volumes[runtime := left]);
      if !fate.downs then w1
      else
        w1.(env := if fate.removes || fate.dropsEnv then None else w1.env,
        compose := if fate.removes || fate.dropsCompose then None else w1.compose)
  }

  // ----- Runs -----

  datatype Step =
    | StepUp(binary: Binary, runtime: string, requested: Mode, level: Option<string>, fate: UpFate)
    | StepUpgrade(binary: Binary, runtime: string, requested: Mode, level: Option<string>,
                  upgradeFate: UpgradeFate, fate: UpFate)
    | StepSetUp(runtime: string, setUpFate: SetUpFate)
    | StepRestart(runtime: string, level: Option<string>, writes: bool, services: seq<(Service, RestartFate)>)
    | StepReset(runtime: string, force: bool, resetFate: ResetFate)

  /** A command loads the state directory first. */
  function Next(semver: SemVer, w: World, step: Step): World {
    var existing := w.env.Some?;
    var values := w.env.GetOr(NO_VALUES);
    match step
    case StepUp(b, runtime, requested, level, fate) =>
      Up(semver, b, values, existing, w, runtime, requested, level, true, fate).world
    case StepUpgrade(b, runtime, requested, level, fate, upFate) =>
      Upgrade(semver, b, values, existing, w, runtime, requested, level, fate, upFate).world
    case StepSetUp(runtime, fate) => SetUp(semver, values, existing, w, runtime, fate).world
    case StepRestart(runtime, level, writes, services) => Restart(values, w, runtime, level, writes, services).world
    case StepReset(runtime, force, fate) => Reset(w, runtime, force, fate)
  }

  function Run(semver: SemVer, w: World, steps: seq<Step>): World
    decreases |steps|
  {
    if steps == [] then w else Run(semver, Next(semver, w, steps[0]), steps[1..])
  }

  // ----- What every run keeps -----

  predicate AtMost(semver: SemVer, a: string, b: string) {
    semver(a).Some? && semver(b).Some? && semver(a).value.precedence <= semver(b).value.precedence
  }

  /** The recorded image is that of the recorded version. */
  predicate Recorded(semver: SemVer, values: Values) {
    match values.elasticVersion
    case None => values.elasticsearchImage.None?
    case Some(version) =>
      semver(version).Some? && values.elasticsearchImage == Some(ELASTICSEARCH_IMAGE + version)
  }

  function RecordedVersion(w: World): Option<string> {
    if w.env.Some? then w.env.value.elasticVersion else None
  }

  predicate AllAtMost(semver: SemVer, versions: seq<string>, recorded: Option<string>) {
    forall k :: 0 <= k < |versions| ==> recorded.Some? && AtMost(semver, versions[k], recorded.value)
  }

  /** Nothing newer than the recorded version opened any volume. */
  predicate Guarded(semver: SemVer, w: World) {
    forall runtime :: runtime in w.volumes ==> AllAtMost(semver, Opened(w, runtime), RecordedVersion(w))
  }

  /** No start was of a version older than one that had opened the volume. */
  predicate SafeStarts(semver: SemVer, starts: seq<Start>) {
    forall i :: 0 <= i < |starts| ==> AllAtMost(semver, starts[i].before, Some(starts[i].version))
  }

  predicate Good(semver: SemVer, w: World) {
    && (w.env.Some? ==> Recorded(semver, w.env.value))
    && Guarded(semver, w)
    && SafeStarts(semver, w.starts)
  }

  /** The recorded version did not decrease. */
  predicate Advances(semver: SemVer, before: World, after: World) {
    RecordedVersion(before).Some? ==>
      RecordedVersion(after).Some? && AtMost(semver, RecordedVersion(before).value, RecordedVersion(after).value)
  }

  predicate Kept(semver: SemVer, before: World, after: World) {
    Good(semver, after) && Advances(semver, before, after)
  }

  lemma AllAtMostLater(semver: SemVer, versions: seq<string>, a: string, b: string)
    requires AllAtMost(semver, versions, Some(a)) && AtMost(semver, a, b)
    ensures AllAtMost(semver, versions, Some(b))
  {
  }

  lemma ImageVersionOfImage(version: string)
    ensures ImageVersion(ELASTICSEARCH_IMAGE + version) == version
  {
  }

  /** Writing settings that record no older version keeps everything. */
  lemma WritingKeeps(semver: SemVer, w: World, values: Values)
    requires Good(semver, w) && Recorded(semver, values)
    requires Advances(semver, w, w.(env := Some(values)))
    ensures Kept(semver, w, w.(env := Some(values)))
  {
    var w' := w.(env := Some(values));
    forall runtime | runtime in w'.volumes
      ensures AllAtMost(semver, Opened(w', runtime), RecordedVersion(w'))
    {
      assert Opened(w', runtime) == Opened(w, runtime);
      if Opened(w, runtime) != [] {
        var versions := Opened(w, runtime);
        assert AllAtMost(semver, versions, RecordedVersion(w)) && AtMost(semver, versions[0], versions[0]);
        assert RecordedVersion(w).Some?;
        AllAtMostLater(semver, Opened(w, runtime), RecordedVersion(w).value, values.elasticVersion.value);
      }
    }
  }

  lemma ComposeKeeps(semver: SemVer, w: World, compose: Option<Compose>)
    requires Good(semver, w)
    ensures Good(semver, w.(compose := compose))
  {
    var w' := w.(compose := compose);
    assert forall runtime :: Opened(w', runtime) == Opened(w, runtime);
  }

  lemma VolumeKeeps(semver: SemVer, w: World, runtime: string, service: Service)
    requires Good(semver, w)
    ensures Good(semver, WithVolume(w, runtime, service))
    ensures WithVolume(w, runtime, service).env == w.env && WithVolume(w, runtime, service).compose == w.compose
  {
    var w' := WithVolume(w, runtime, service);
    forall other | other in w'.volumes
      ensures AllAtMost(semver, Opened(w', other), RecordedVersion(w'))
    {
      assert Opened(w', other) == Opened(w, other);
    }
  }

  lemma StartKeeps(semver: SemVer, w: World, runtime: string)
    requires Good(semver, w)
    ensures Good(semver, StartedElasticsearch(w, runtime))
    ensures StartedElasticsearch(w, runtime).env == w.env && StartedElasticsearch(w, runtime).compose == w.compose
  {
    var w' := StartedElasticsearch(w, runtime);
    if w' != w {
      var version := w.env.value.elasticVersion.value;
      ImageVersionOfImage(version);
      assert AllAtMost(semver, Opened(w, runtime), Some(version));
      forall other | other in w'.volumes
        ensures AllAtMost(semver, Opened(w', other), RecordedVersion(w'))
      {
        if other != runtime {
          assert Opened(w', other) == Opened(w, other);
        }
      }
    }
  }

  /** A setup run touches no volume. */
  lemma SetupKeeps(semver: SemVer, w: World)
    requires Good(semver, w)
    ensures Good(semver, RanSetup(w))
    ensures RanSetup(w).env == w.env && RanSetup(w).compose == w.compose
  {
    var w' := RanSetup(w);
    assert forall runtime :: Opened(w', runtime) == Opened(w, runtime);
  }

  /** The settings a command works on are those that the state directory holds. */
  predicate Loaded(values: Values, existing: bool, w: World) {
    existing == w.env.Some? && values == w.env.GetOr(NO_VALUES)
  }

  /** Where `up` stands once both files are written. */
  predicate Ready(semver: SemVer, p: Progress, mode: Mode) {
    && p.world.env == Some(p.values)
    && p.values.esdiagImage.Some?
    && p.world.compose == Some(ComposeFor(semver, p.values, mode))
  }

  lemma PreparedKeeps(semver: SemVer, b: Binary, values: Values, w: World, mode: Mode, runtime: string,
                      level: Option<string>, fate: UpFate)
    requires Good(semver, w) && semver(b.elastic).Some?
    requires Loaded(values, w.env.Some?, w)
    ensures var p := Prepared(semver, b, values, w, mode, runtime, level, fate);
            Kept(semver, w, p.world) && (p.ok ==> Ready(semver, p, mode))
  {
    var initialized := Initialized(values, b, runtime);
    var levelled := if level.Some? then initialized.(logLevel := level) else initialized;
    var w1 := w.(compose := Some(ComposeFor(semver, initialized, mode)));
    ComposeKeeps(semver, w, w1.compose);
    WritingKeeps(semver, w1, levelled);
  }

  lemma LaunchedKeeps(semver: SemVer, values: Values, w: World, stopFirst: bool, runtime: string, pull: bool,
                      fate: UpFate, mode: Mode)
    requires Good(semver, w) && Ready(semver, Progress(values, w, true), mode)
    ensures var p := Launched(values, w, stopFirst, runtime, pull, fate);
            Kept(semver, w, p.world) && Ready(semver, p, mode)
  {
    var w1 := if fate.starts || fate.createsElasticsearch then WithVolume(w, runtime, Elasticsearch) else w;
    VolumeKeeps(semver, w, runtime, Elasticsearch);
    var w2 := if fate.starts || fate.createsKibana then WithVolume(w1, runtime, Kibana) else w1;
    VolumeKeeps(semver, w1, runtime, Kibana);
    StartKeeps(semver, w2, runtime);
  }

  lemma SecuredKeeps(semver: SemVer, values: Values, w: World, fate: UpFate, mode: Mode)
    requires Good(semver, w) && Ready(semver, Progress(values, w, true), mode)
    ensures var p := Secured(values, w, fate);
            Kept(semver, w, p.world) && (p.ok ==> Ready(semver, p, mode))
  {
    var keyed := if values.outputApiKey == Some(PENDING) then values.(outputApiKey := fate.apiKey) else values;
    WritingKeeps(semver, w, keyed);
  }

  lemma ServedKeeps(semver: SemVer, values: Values, w: World, mode: Mode, runtime: string, fate: UpFate)
    requires Good(semver, w) && Ready(semver, Progress(values, w, true), mode)
    ensures Kept(semver, w, Served(values, w, mode, runtime, fate).world)
  {
    SetupKeeps(semver, w);
    var w1 := if mode == Full && fate.runsSetup then RanSetup(w) else w;
    var w2 := if mode == Full && fate.serves then WithVolume(w1, runtime, Esdiag) else w1;
    VolumeKeeps(semver, w1, runtime, Esdiag);
    WritingKeeps(semver, w2, values.(stackMode := Some(ModeText(mode))));
  }

  lemma ContinuedKeeps(semver: SemVer, values: Values, w: World, mode: Mode, stopFirst: bool, runtime: string,
                       pull: bool, fate: UpFate)
    requires Good(semver, w) && Ready(semver, Progress(values, w, true), mode)
    ensures Kept(semver, w, Continued(values, w, mode, stopFirst, runtime, pull, fate).world)
  {
    var l := Launched(values, w, stopFirst, runtime, pull, fate);
    LaunchedKeeps(semver, values, w, stopFirst, runtime, pull, fate, mode);
    if l.ok {
      var q := Secured(l.values, l.world, fate);
      SecuredKeeps(semver, l.values, l.world, fate, mode);
      if q.ok {
        ServedKeeps(semver, q.values, q.world, mode, runtime, fate);
      }
    }
  }

  lemma UpKeeps(semver: SemVer, b: Binary, values: Values, existing: bool, w: World, runtime: string,
                requested: Mode, level: Option<string>, pull: bool, fate: UpFate)
    requires Good(semver, w) && semver(b.elastic).Some? && Loaded(values, existing, w)
    ensures Kept(semver, w, Up(semver, b, values, existing, w, runtime, requested, level, pull, fate).world)
  {
    var mode := ResolveMode(values, existing, requested);
    if mode.Some? && Coupled(w, values, existing, runtime) {
      var stopFirst := existing && ActiveMode(values, existing) == Full && mode.value == Core;
      var p := Prepared(semver, b, values, w, mode.value, runtime, level, fate);
      PreparedKeeps(semver, b, values, w, mode.value, runtime, level, fate);
      if p.ok {
        ContinuedKeeps(semver, p.values, p.world, mode.value, stopFirst, runtime, pull, fate);
      }
    }
  }

  lemma UpgradeKeeps(semver: SemVer, b: Binary, values: Values, existing: bool, w: World, runtime: string,
                     requested: Mode, level: Option<string>, fate: UpgradeFate, upFate: UpFate)
    requires Good(semver, w) && semver(b.elastic).Some? && Loaded(values, existing, w)
    ensures Kept(semver, w, Upgrade(semver, b, values, existing, w, runtime, requested, level, fate, upFate).world)
  {
    if existing && RecordedIsNewer(semver, values, b) == Some(false) {
      var mode := ResolveMode(values, existing, Auto);
      var upgraded := WithCurrentVersions(values, b);
      var w1 := w.(env := Some(upgraded));
      WritingKeeps(semver, w, upgraded);
      if mode.Some? {
        var w2 := w1.(compose := Some(ComposeFor(semver, upgraded, mode.value)));
        ComposeKeeps(semver, w1, w2.compose);
        UpKeeps(semver, b, upgraded, existing, w2, runtime, mode.value, level, false, upFate);
        ComposeKeeps(semver, w, w2.compose);
        assert w2.(env := Some(values)) == w.(compose := w2.compose);
      }
    }
  }

  lemma SetUpKeeps(semver: SemVer, values: Values, existing: bool, w: World, runtime: string, fate: SetUpFate)
    requires Good(semver, w) && Loaded(values, existing, w)
    ensures Kept(semver, w, SetUp(semver, values, existing, w, runtime, fate).world)
  {
    var mode := ActiveMode(values, existing);
    if existing {
      var w1 := w.(compose := Some(ComposeFor(semver, values, mode)));
      ComposeKeeps(semver, w, w1.compose);
      SetupKeeps(semver, w1);
    }
  }

  lemma {:induction false} RestartedAllKeeps(semver: SemVer, values: Values, w: World, runtime: string,
                                             services: seq<(Service, RestartFate)>)
    requires Good(semver, w)
    ensures Good(semver, RestartedAll(values, w, runtime, services).world)
    ensures RestartedAll(values, w, runtime, services).world.env == w.env
    decreases |services|
  {
    if services != [] {
      var (service, fate) := services[0];
      var w1 := if fate.creates || fate.succeeds then WithVolume(w, runtime, service) else w;
      VolumeKeeps(semver, w, runtime, service);
      StartKeeps(semver, w1, runtime);
      SetupKeeps(semver, w1);
      RestartedAllKeeps(semver, values, Restarted(values, w, runtime, service, fate), runtime, services[1..]);
    }
  }

  lemma RestartKeeps(semver: SemVer, values: Values, w: World, runtime: string, level: Option<string>, writes: bool,
                     services: seq<(Service, RestartFate)>)
    requires Good(semver, w) && Loaded(values, w.env.Some?, w)
    ensures Kept(semver, w, Restart(values, w, runtime, level, writes, services).world)
  {
    var levelled := values.(logLevel := level);
    WritingKeeps(semver, w, levelled);
    RestartedAllKeeps(semver, levelled, w.(env := Some(levelled)), runtime, services);
    RestartedAllKeeps(semver, values, w, runtime, services);
  }

  /** The versions built into the binaries can be compared. */
  predicate Comparable(semver: SemVer, step: Step) {
    step.StepUp? || step.StepUpgrade? ==> semver(step.binary.elastic).Some?
  }

  lemma NextKeeps(semver: SemVer, w: World, step: Step)
    requires Good(semver, w) && Comparable(semver, step) && !step.StepReset?
    ensures Kept(semver, w, Next(semver, w, step))
  {
    var existing := w.env.Some?;
    var values := w.env.GetOr(NO_VALUES);
    match step
    case StepUp(b, runtime, requested, level, fate) =>
      UpKeeps(semver, b, values, existing, w, runtime, requested, level, true, fate);
    case StepUpgrade(b, runtime, requested, level, fate, upFate) =>
      UpgradeKeeps(semver, b, values, existing, w, runtime, requested, level, fate, upFate);
    case StepSetUp(runtime, fate) => SetUpKeeps(semver, values, existing, w, runtime, fate);
    case StepRestart(runtime, level, writes, services) =>
      RestartKeeps(semver, values, w, runtime, level, writes, services);
  }

  // ----- Reset -----

  /** No other runtime's Elasticsearch has opened a volume of the stack. */
  predicate OthersUnopened(w: World, runtime: string) {
    forall other :: other in w.volumes && other != runtime ==> Opened(w, other) == []
  }

  predicate RemovesEnv(w: World, force: bool, fate: ResetFate) {
    force && fate.stops && w.compose.Some? && fate.downs && (fate.removes || fate.dropsEnv)
  }

  lemma NothingRecordedNothingOpened(semver: SemVer, w: World, runtime: string)
    requires Good(semver, w) && RecordedVersion(w).None?
    ensures Opened(w, runtime) == []
  {
    assert runtime in w.volumes ==> AllAtMost(semver, Opened(w, runtime), RecordedVersion(w));
    NothingBelowNothing(semver, Opened(w, runtime));
  }

  lemma NothingBelowNothing(semver: SemVer, versions: seq<string>)
    ensures AllAtMost(semver, versions, None) <==> versions == []
  {
    if versions != [] {
      var first := versions[0];
    }
  }

  /** A reset that takes `.env` away keeps what every run keeps exactly when no other runtime's volume was opened. */
  lemma ResetKeepsExactly(semver: SemVer, w: World, runtime: string, force: bool, fate: ResetFate)
    requires Good(semver, w)
    ensures Good(semver, Reset(w, runtime, force, fate)) <==>
              (RemovesEnv(w, force, fate) ==> OthersUnopened(w, runtime))
  {
    var w' := Reset(w, runtime, force, fate);
    forall other
      ensures other != runtime ==> Opened(w', other) == Opened(w, other)
      ensures Opened(w', runtime) == Opened(w, runtime) || Opened(w', runtime) == []
    {
    }
    if RemovesEnv(w, force, fate) {
      if Good(semver, w') {
        forall other | other in w.volumes && other != runtime
          ensures Opened(w, other) == []
        {
          NothingRecordedNothingOpened(semver, w', other);
        }
      }
    } else {
      assert w'.env == w.env;
      forall other | other in w'.volumes
        ensures AllAtMost(semver, Opened(w', other), RecordedVersion(w'))
      {
        if other in w.volumes {
          assert AllAtMost(semver, Opened(w, other), RecordedVersion(w));
        }
      }
    }
  }

  /** Every binary's versions can be compared, and no reset happens while another runtime's volume has been opened. */
  predicate CleanRun(semver: SemVer, w: World, steps: seq<Step>)
    decreases |steps|
  {
    steps == [] ||
    (&& Comparable(semver, steps[0])
     && (steps[0].StepReset? && RemovesEnv(w, steps[0].force, steps[0].resetFate) ==>
           OthersUnopened(w, steps[0].runtime))
     && CleanRun(semver, Next(semver, w, steps[0]), steps[1..]))
  }

  lemma {:induction false} RunKeeps(semver: SemVer, w: World, steps: seq<Step>)
    requires Good(semver, w) && CleanRun(semver, w, steps)
    ensures Good(semver, Run(semver, w, steps))
    decreases |steps|
  {
    if steps != [] {
      var w1 := Next(semver, w, steps[0]);
      match steps[0] {
        case StepReset(runtime, force, fate) => ResetKeepsExactly(semver, w, runtime, force, fate);
        case _ => NextKeeps(semver, w, steps[0]);
      }
      RunKeeps(semver, w1, steps[1..]);
    }
  }

  /**
   * Whatever binaries run whatever commands, and wherever the commands stop: no start of Elasticsearch is of
   * a version older than one that opened its volume.
   */
  lemma EveryRunIsSafe(semver: SemVer, steps: seq<Step>)
    requires CleanRun(semver, NEW_WORLD, steps)
    ensures SafeStarts(semver, Run(semver, NEW_WORLD, steps).starts)
  {
    RunKeeps(semver, NEW_WORLD, steps);
  }

  predicate NoResets(semver: SemVer, steps: seq<Step>) {
    forall k :: 0 <= k < |steps| ==> Comparable(semver, steps[k]) && !steps[k].StepReset?
  }

  /** Between resets the recorded version never decreases. */
  lemma {:induction false} RecordedNeverDecreases(semver: SemVer, w: World, steps: seq<Step>)
    requires Good(semver, w) && NoResets(semver, steps)
    ensures CleanRun(semver, w, steps)
    ensures Kept(semver, w, Run(semver, w, steps))
    decreases |steps|
  {
    if steps != [] {
      assert Comparable(semver, steps[0]) && !steps[0].StepReset?;
      NextKeeps(semver, w, steps[0]);
      RecordedNeverDecreases(semver, Next(semver, w, steps[0]), steps[1..]);
    }
  }

  // ----- The setup service -----

  /** Each run of the setup service used the command that its image understands. */
  predicate SetupsMatch(semver: SemVer, setups: seq<SetupRun>) {
    forall i :: 0 <= i < |setups| ==> setups[i].command == CommandForImage(semver, setups[i].image)
  }

  /** The setup command of the compose file, if it has one, is the one that an image understands. */
  predicate Takes(semver: SemVer, compose: Option<Compose>, image: Option<string>) {
    compose.Some? && compose.value.setup.Some? && image.Some? ==>
      compose.value.setup.value == CommandForImage(semver, image.value)
  }

  /** The compose file suits the image that `.env` names. */
  predicate Fits(semver: SemVer, w: World) {
    Takes(semver, w.compose, w.env.GetOr(NO_VALUES).esdiagImage)
  }

  /** All further setup runs are right. */
  predicate AddsMatching(semver: SemVer, before: World, after: World) {
    before.setups <= after.setups && SetupsMatch(semver, after.setups[|before.setups|..])
  }

  lemma MatchingConcat(semver: SemVer, a: seq<SetupRun>, b: seq<SetupRun>)
    ensures SetupsMatch(semver, a + b) <==> SetupsMatch(semver, a) && SetupsMatch(semver, b)
  {
    if SetupsMatch(semver, a + b) {
      assert forall i | 0 <= i < |a| :: a[i] == (a + b)[i];
      assert forall i | 0 <= i < |b| :: b[i] == (a + b)[|a| + i];
    }
  }

  lemma MatchingAdded(semver: SemVer, before: World, after: World)
    requires before.setups <= after.setups
    ensures SetupsMatch(semver, after.setups) <==>
              SetupsMatch(semver, before.setups) && AddsMatching(semver, before, after)
  {
    assert after.setups == before.setups + after.setups[|before.setups|..];
    MatchingConcat(semver, before.setups, after.setups[|before.setups|..]);
  }

  lemma NothingAdded(semver: SemVer, before: World, after: World)
    requires before.setups == after.setups
    ensures AddsMatching(semver, before, after)
  {
    assert after.setups[|before.setups|..] == [];
  }

  /** A setup run is right exactly when the compose file suits the image, or there is nothing to run. */
  lemma SetupRunExactly(semver: SemVer, w: World)
    ensures w.setups <= RanSetup(w).setups
    ensures SetupsMatch(semver, RanSetup(w).setups[|w.setups|..]) <==> Fits(semver, w)
  {
    var after := RanSetup(w).setups;
    if after != w.setups {
      var added := SetupRun(w.compose.value.setup.value, w.env.value.esdiagImage.value);
      assert after[|w.setups|..] == [added];
      assert [added][0] == added;
    } else {
      assert after[|w.setups|..] == [];
    }
  }

  lemma ServedAddsMatching(semver: SemVer, values: Values, w: World, mode: Mode, runtime: string, fate: UpFate)
    requires Ready(semver, Progress(values, w, true), mode)
    ensures var p := Served(values, w, mode, runtime, fate);
            AddsMatching(semver, w, p.world) && Fits(semver, p.world)
  {
    SetupRunExactly(semver, w);
    NothingAdded(semver, w, w);
    var w1 := if mode == Full && fate.runsSetup then RanSetup(w) else w;
    assert Served(values, w, mode, runtime, fate).world.setups == w1.setups;
  }

  lemma ContinuedAddsMatching(semver: SemVer, values: Values, w: World, mode: Mode, stopFirst: bool, runtime: string,
                              pull: bool, fate: UpFate)
    requires Ready(semver, Progress(values, w, true), mode)
    ensures var p := Continued(values, w, mode, stopFirst, runtime, pull, fate);
            AddsMatching(semver, w, p.world) && Fits(semver, p.world)
  {
    var l := Launched(values, w, stopFirst, runtime, pull, fate);
    assert l.values == values && l.world.setups == w.setups && l.world.env == w.env && l.world.compose == w.compose;
    NothingAdded(semver, w, l.world);
    if l.ok {
      var q := Secured(l.values, l.world, fate);
      assert q.world.setups == w.setups && q.world.compose == w.compose;
      NothingAdded(semver, w, q.world);
      if q.ok {
        ServedAddsMatching(semver, q.values, q.world, mode, runtime, fate);
      }
    }
  }

  /** Whether `up` gets as far as writing the compose file. */
  predicate UpWritesCompose(values: Values, existing: bool, w: World, runtime: string, requested: Mode, fate: UpFate) {
    ResolveMode(values, existing, requested).Some? && Coupled(w, values, existing, runtime) && fate.writesCompose
  }

  lemma PreparedFits(semver: SemVer, b: Binary, values: Values, existing: bool, w: World, mode: Mode, runtime: string,
                     level: Option<string>, fate: UpFate)
    requires Loaded(values, existing, w) && fate.writesCompose
    ensures var p := Prepared(semver, b, values, w, mode, runtime, level, fate);
            && p.world.setups == w.setups && AddsMatching(semver, w, p.world) && Fits(semver, p.world)
            && (p.ok ==> Ready(semver, p, mode))
  {
    NothingAdded(semver, w, Prepared(semver, b, values, w, mode, runtime, level, fate).world);
  }

  lemma UpAddsMatching(semver: SemVer, b: Binary, values: Values, existing: bool, w: World, runtime: string,
                       requested: Mode, level: Option<string>, pull: bool, fate: UpFate)
    requires Loaded(values, existing, w)
    ensures var after := Up(semver, b, values, existing, w, runtime, requested, level, pull, fate).world;
            && AddsMatching(semver, w, after)
            && (Fits(semver, after) <==>
                  UpWritesCompose(values, existing, w, runtime, requested, fate) || Fits(semver, w))
  {
    NothingAdded(semver, w, w);
    if UpWritesCompose(values, existing, w, runtime, requested, fate) {
      var mode := ResolveMode(values, existing, requested).value;
      var stopFirst := existing && ActiveMode(values, existing) == Full && mode == Core;
      var p := Prepared(semver, b, values, w, mode, runtime, level, fate);
      PreparedFits(semver, b, values, existing, w, mode, runtime, level, fate);
      if p.ok {
        ContinuedAddsMatching(semver, p.values, p.world, mode, stopFirst, runtime, pull, fate);
      }
    }
  }

  /** Whether `upgrade` gets as far as writing `.env`. */
  predicate Upgrades(semver: SemVer, b: Binary, w: World, runtime: string, requested: Mode, fate: UpgradeFate) {
    var values := w.env.GetOr(NO_VALUES);
    var mode := ResolveMode(values, true, Auto);
    && w.env.Some? && requested == Auto && mode.Some? && RecordedIsNewer(semver, values, b) == Some(false)
    && HasPendingUpgrades(values, b, mode.value)
    && fate.confirmed && Coupled(w, values, true, runtime) && fate.running.Some? && fate.writesEnv
  }

  /**
   * What an upgrade that writes `.env` leaves: between its writes the old compose file with the new image, after
   * a failed pull the new compose file with the old image, otherwise both new.
   */
  predicate UpgradeFits(semver: SemVer, b: Binary, w: World, fate: UpgradeFate) {
    var values := w.env.GetOr(NO_VALUES);
    var upgraded := WithCurrentVersions(values, b);
    var mode := ResolveMode(values, true, Auto);
    if !fate.writesCompose then Takes(semver, w.compose, upgraded.esdiagImage)
    else if !fate.pulls && fate.restores then
      mode.Some? ==> Takes(semver, Some(ComposeFor(semver, upgraded, mode.value)), values.esdiagImage)
    else true
  }

  lemma UpgradeAddsMatching(semver: SemVer, b: Binary, w: World, runtime: string, requested: Mode,
                            level: Option<string>, fate: UpgradeFate, upFate: UpFate)
    ensures var values := w.env.GetOr(NO_VALUES);
            var after := Upgrade(semver, b, values, w.env.Some?, w, runtime, requested, level, fate, upFate).world;
            && AddsMatching(semver, w, after)
            && (Fits(semver, after) <==>
                  if Upgrades(semver, b, w, runtime, requested, fate) then UpgradeFits(semver, b, w, fate)
                  else Fits(semver, w))
  {
    var values := w.env.GetOr(NO_VALUES);
    NothingAdded(semver, w, w);
    if Upgrades(semver, b, w, runtime, requested, fate) {
      var mode := ResolveMode(values, true, Auto).value;
      var upgraded := WithCurrentVersions(values, b);
      var w1 := w.(env := Some(upgraded));
      NothingAdded(semver, w, w1);
      var w2 := w1.(compose := Some(ComposeFor(semver, upgraded, mode)));
      NothingAdded(semver, w, w2);
      NothingAdded(semver, w, w2.(env := Some(values)));
      UpAddsMatching(semver, b, upgraded, true, w2, runtime, mode, level, false, upFate);
      assert Fits(semver, w2);
    }
  }

  lemma SetUpAddsMatching(semver: SemVer, w: World, runtime: string, fate: SetUpFate)
    ensures var values := w.env.GetOr(NO_VALUES);
            var after := SetUp(semver, values, w.env.Some?, w, runtime, fate).world;
            && AddsMatching(semver, w, after)
            && (Fits(semver, after) <==>
                  (w.env.Some? && Coupled(w, values, true, runtime) && fate.writesCompose) || Fits(semver, w))
  {
    var values := w.env.GetOr(NO_VALUES);
    NothingAdded(semver, w, w);
    if w.env.Some? {
      var w1 := w.(compose := Some(ComposeFor(semver, values, ActiveMode(values, true))));
      NothingAdded(semver, w, w1);
      SetupRunExactly(semver, w1);
    } else {
      SetupRunExactly(semver, w);
    }
  }

  /** Whether a restart gets as far as starting the setup service. */
  predicate ReachesSetup(values: Values, compose: Option<Compose>, services: seq<(Service, RestartFate)>)
    decreases |services|
  {
    && services != []
    && var (service, fate) := services[0];
       || (service == SetupService && Declares(compose, service) && fate.opens)
       || (&& fate.succeeds && (IsNative(values, service) || Declares(compose, service))
           && ReachesSetup(values, compose, services[1..]))
  }

  /** Restarts leave the compose file and the image alone, so their setup runs are all right or all wrong. */
  lemma {:induction false} RestartedAllExactly(semver: SemVer, values: Values, w: World, runtime: string,
                                               services: seq<(Service, RestartFate)>)
    ensures var after := RestartedAll(values, w, runtime, services).world;
            && w.setups <= after.setups && after.env == w.env && after.compose == w.compose
            && (AddsMatching(semver, w, after) <==> ReachesSetup(values, w.compose, services) ==> Fits(semver, w))
    decreases |services|
  {
    NothingAdded(semver, w, w);
    if services != [] {
      var (service, fate) := services[0];
      var w1 := Restarted(values, w, runtime, service, fate);
      RestartedExactly(semver, values, w, runtime, service, fate);
      if Succeeds(values, w, service, fate) {
        RestartedAllExactly(semver, values, w1, runtime, services[1..]);
        AddedTwice(semver, w, w1, RestartedAll(values, w1, runtime, services[1..]).world);
      }
    }
  }

  lemma RestartedExactly(semver: SemVer, values: Values, w: World, runtime: string, service: Service, fate: RestartFate)
    ensures var w1 := Restarted(values, w, runtime, service, fate);
            && w.setups <= w1.setups && w1.env == w.env && w1.compose == w.compose
            && (AddsMatching(semver, w, w1) <==>
                  (service == SetupService && Declares(w.compose, service) && fate.opens ==> Fits(semver, w)))
  {
    SetupRunExactly(semver, w);
    NothingAdded(semver, w, w);
    var w1 := Restarted(values, w, runtime, service, fate);
    if service != SetupService {
      NothingAdded(semver, w, w1);
    }
  }

  lemma AddedTwice(semver: SemVer, a: World, b: World, c: World)
    requires a.setups <= b.setups <= c.setups
    ensures AddsMatching(semver, a, c) <==> AddsMatching(semver, a, b) && AddsMatching(semver, b, c)
  {
    var n, m := |a.setups|, |b.setups|;
    assert c.setups == b.setups + c.setups[m..];
    assert c.setups[n..] == b.setups[n..] + c.setups[m..];
    MatchingConcat(semver, b.setups[n..], c.setups[m..]);
  }

  /** A step of a run that restarts the setup service while the compose file does not suit the image. */
  predicate Misfit(semver: SemVer, w: World, step: Step) {
    && step.StepRestart?
    && (step.level.Some? ==> step.writes)
    && ReachesSetup(w.env.GetOr(NO_VALUES), w.compose, step.services)
    && !Fits(semver, w)
  }

  lemma LevelKeepsFits(semver: SemVer, w: World, level: Option<string>)
    ensures Fits(semver, w.(env := Some(w.env.GetOr(NO_VALUES).(logLevel := level)))) <==> Fits(semver, w)
  {
  }

  lemma {:induction false} SameModeSameReach(a: Values, b: Values, compose: Option<Compose>,
                                             services: seq<(Service, RestartFate)>)
    requires a.stackMode == b.stackMode
    ensures ReachesSetup(a, compose, services) <==> ReachesSetup(b, compose, services)
    decreases |services|
  {
    if services != [] {
      SameModeSameReach(a, b, compose, services[1..]);
    }
  }

  lemma RestartExactly(semver: SemVer, w: World, step: Step)
    requires step.StepRestart?
    ensures var after := Next(semver, w, step);
            && w.setups <= after.setups
            && (AddsMatching(semver, w, after) <==> !Misfit(semver, w, step))
            && (Fits(semver, after) <==> Fits(semver, w))
  {
    var values := w.env.GetOr(NO_VALUES);
    NothingAdded(semver, w, w);
    if step.level.None? {
      RestartedAllExactly(semver, values, w, step.runtime, step.services);
    } else if step.writes {
      var levelled := values.(logLevel := step.level);
      LevelKeepsFits(semver, w, step.level);
      SameModeSameReach(values, levelled, w.compose, step.services);
      RestartedAllExactly(semver, levelled, w.(env := Some(levelled)), step.runtime, step.services);
    }
  }

  /** Every step but such a restart runs the setup service only with its image's command. */
  lemma NextAddsExactly(semver: SemVer, w: World, step: Step)
    ensures var after := Next(semver, w, step);
            && w.setups <= after.setups
            && (AddsMatching(semver, w, after) <==> !Misfit(semver, w, step))
  {
    var existing := w.env.Some?;
    var values := w.env.GetOr(NO_VALUES);
    match step
    case StepUp(b, runtime, requested, level, fate) =>
      UpAddsMatching(semver, b, values, existing, w, runtime, requested, level, true, fate);
    case StepUpgrade(b, runtime, requested, level, fate, upFate) =>
      UpgradeAddsMatching(semver, b, w, runtime, requested, level, fate, upFate);
    case StepSetUp(runtime, fate) => SetUpAddsMatching(semver, w, runtime, fate);
    case StepRestart(_, _, _, _) => RestartExactly(semver, w, step);
    case StepReset(runtime, force, fate) => NothingAdded(semver, w, Reset(w, runtime, force, fate));
  }

  predicate RemovesCompose(w: World, force: bool, fate: ResetFate) {
    force && fate.stops && w.compose.Some? && fate.downs && (fate.removes || fate.dropsCompose)
  }

  /** From where a step starts and stops: whether the compose file suits the image afterwards. */
  predicate LeavesFitting(semver: SemVer, w: World, step: Step) {
    var values := w.env.GetOr(NO_VALUES);
    match step
    case StepUp(b, runtime, requested, level, fate) =>
      UpWritesCompose(values, w.env.Some?, w, runtime, requested, fate) || Fits(semver, w)
    case StepUpgrade(b, runtime, requested, level, fate, upFate) =>
      if Upgrades(semver, b, w, runtime, requested, fate) then UpgradeFits(semver, b, w, fate) else Fits(semver, w)
    case StepSetUp(runtime, fate) =>
      (w.env.Some? && Coupled(w, values, true, runtime) && fate.writesCompose) || Fits(semver, w)
    case StepRestart(_, _, _, _) => Fits(semver, w)
    case StepReset(runtime, force, fate) =>
      RemovesEnv(w, force, fate) || RemovesCompose(w, force, fate) || Fits(semver, w)
  }

  /**
   * The compose file suits the image after `up` or `setup` wrote it, and from then on until an upgrade stops
   * between its writes, or restores the settings after a failed pull, with another command.
   */
  lemma FitsAfterExactly(semver: SemVer, w: World, step: Step)
    ensures Fits(semver, Next(semver, w, step)) <==> LeavesFitting(semver, w, step)
  {
    var values := w.env.GetOr(NO_VALUES);
    match step
    case StepUp(b, runtime, requested, level, fate) =>
      UpAddsMatching(semver, b, values, w.env.Some?, w, runtime, requested, level, true, fate);
    case StepUpgrade(b, runtime, requested, level, fate, upFate) =>
      UpgradeAddsMatching(semver, b, w, runtime, requested, level, fate, upFate);
    case StepSetUp(runtime, fate) => SetUpAddsMatching(semver, w, runtime, fate);
    case StepRestart(_, _, _, _) => RestartExactly(semver, w, step);
    case StepReset(_, _, _) =>
  }

  predicate NoMisfits(semver: SemVer, w: World, steps: seq<Step>)
    decreases |steps|
  {
    steps == [] || (!Misfit(semver, w, steps[0]) && NoMisfits(semver, Next(semver, w, steps[0]), steps[1..]))
  }

  /**
   * Over every run, wherever its commands stop: each run of the setup service used the command of its image exactly
   * when no restart started that service while the compose file did not suit the image.
   */
  lemma {:induction false} SetupsMatchExactly(semver: SemVer, w: World, steps: seq<Step>)
    ensures SetupsMatch(semver, Run(semver, w, steps).setups) <==>
              SetupsMatch(semver, w.setups) && NoMisfits(semver, w, steps)
    decreases |steps|
  {
    if steps != [] {
      var w1 := Next(semver, w, steps[0]);
      NextAddsExactly(semver, w, steps[0]);
      MatchingAdded(semver, w, w1);
      SetupsMatchExactly(semver, w1, steps[1..]);
    }
  }

  /** No upgrade leaves a compose file and an image that do not suit each other. */
  predicate SettledUpgrades(semver: SemVer, w: World, steps: seq<Step>)
    decreases |steps|
  {
    steps == [] ||
    (&& (steps[0].StepUpgrade? ==> LeavesFitting(semver, w, steps[0]))
     && SettledUpgrades(semver, Next(semver, w, steps[0]), steps[1..]))
  }

  /** Then every setup run, restarts included, is right. */
  lemma {:induction false} SettledRunsMatch(semver: SemVer, w: World, steps: seq<Step>)
    requires Fits(semver, w) && SettledUpgrades(semver, w, steps)
    ensures NoMisfits(semver, w, steps) && Fits(semver, Run(semver, w, steps))
    ensures SetupsMatch(semver, w.setups) ==> SetupsMatch(semver, Run(semver, w, steps).setups)
    decreases |steps|
  {
    if steps != [] {
      FitsAfterExactly(semver, w, steps[0]);
      SettledRunsMatch(semver, Next(semver, w, steps[0]), steps[1..]);
    }
    SetupsMatchExactly(semver, w, steps);
  }

  /** Every command that completes leaves a compose file that suits the image, except an upgrade with nothing to do. */
  lemma CompletedFits(semver: SemVer, b: Binary, w: World, runtime: string, requested: Mode, level: Option<string>,
                      upFate: UpFate, upgradeFate: UpgradeFate, setUpFate: SetUpFate)
    ensures var values, existing := w.env.GetOr(NO_VALUES), w.env.Some?;
            var up := Up(semver, b, values, existing, w, runtime, requested, level, true, upFate);
            var upgrade := Upgrade(semver, b, values, existing, w, runtime, requested, level, upgradeFate, upFate);
            var setUp := SetUp(semver, values, existing, w, runtime, setUpFate);
            && (up.ok ==> Fits(semver, up.world))
            && (upgrade.ok && Upgrades(semver, b, w, runtime, requested, upgradeFate) ==> Fits(semver, upgrade.world))
            && (setUp.ok && existing ==> Fits(semver, setUp.world))
  {
    var values, existing := w.env.GetOr(NO_VALUES), w.env.Some?;
    UpAddsMatching(semver, b, values, existing, w, runtime, requested, level, true, upFate);
    UpgradeAddsMatching(semver, b, w, runtime, requested, level, upgradeFate, upFate);
    SetUpAddsMatching(semver, w, runtime, setUpFate);
  }

  const RESTARTS := RestartFate(true, true, true)

  function RestartOf(service: Service, runtime: string): Step {
    StepRestart(runtime, None, true, [(service, RESTARTS)])
  }

  /** `restart setup` runs the command of its image exactly when the compose file suits that image. */
  lemma RestartOfSetupExactly(semver: SemVer, w: World, runtime: string)
    ensures SetupsMatch(semver, Next(semver, w, RestartOf(SetupService, runtime)).setups) <==>
              SetupsMatch(semver, w.setups) && Fits(semver, w)
  {
    var step := RestartOf(SetupService, runtime);
    RestartExactly(semver, w, step);
    MatchingAdded(semver, w, Next(semver, w, step));
    assert ReachesSetup(w.env.GetOr(NO_VALUES), w.compose, step.services) <==> Declares(w.compose, SetupService);
  }

  // ----- When a reset is unsafe -----

  predicate Older(semver: SemVer, a: string, b: string) {
    semver(a).Some? && semver(b).Some? && semver(a).value.precedence < semver(b).value.precedence
  }

  ghost predicate HasOlder(semver: SemVer, version: string) {
    exists older :: Older(semver, older, version)
  }

  /** No version that opened a volume first is the oldest of all. */
  ghost predicate NoneOldest(semver: SemVer, w: World) {
    forall runtime :: runtime in w.volumes && Opened(w, runtime) != [] ==> HasOlder(semver, Opened(w, runtime)[0])
  }

  /** An `up` that fails to pull its images, and a restart that starts Elasticsearch. */
  function DowngradeRun(b: Binary, spare: string, other: string): seq<Step> {
    var fate := UpFate(true, true, true, false, false, false, false, false, None, false, false, false, false, false,
                       false, false);
    [StepUp(b, spare, Auto, None, fate),
     StepRestart(other, None, true, [(Elasticsearch, RestartFate(true, true, true))])]
  }

  lemma DowngradeStarts(semver: SemVer, w: World, b: Binary, spare: string, other: string)
    requires w.env.None? && VolumesOf(w, spare) == NO_VOLUMES && Opened(w, other) != []
    ensures var starts := Run(semver, w, DowngradeRun(b, spare, other)).starts;
            starts == w.starts + [Start(b.elastic, Opened(w, other))]
  {
    var steps := DowngradeRun(b, spare, other);
    var w1 := Next(semver, w, steps[0]);
    var values := Initialized(NO_VALUES, b, spare);
    assert w1 == w.(compose := Some(ComposeFor(semver, values, Core)), env := Some(values));
    var services := steps[1].services;
    assert services[1..] == [];
    var w2 := WithVolume(w1, other, Elasticsearch);
    assert Opened(w2, other) == Opened(w, other);
    ImageVersionOfImage(b.elastic);
    assert RestartedAll(values, w1, other, services).world == StartedElasticsearch(w2, other);
    assert steps[1..][1..] == [] && steps[1..][0] == steps[1];
    assert Run(semver, w1, steps[1..]) == StartedElasticsearch(w2, other);
  }

  lemma {:induction false} LongerThanAll(names: set<string>) returns (spare: string)
    ensures forall name <- names :: |name| < |spare|
    decreases names
  {
    if names == {} {
      spare := "";
    } else {
      var name :| name in names;
      var rest := LongerThanAll(names - {name});
      spare := rest + name + "+";
    }
  }

  ghost predicate SafeWithoutResets(semver: SemVer, w: World) {
    forall steps :: NoResets(semver, steps) ==> SafeStarts(semver, Run(semver, w, steps).starts)
  }

  lemma OlderStartIsUnsafe(semver: SemVer, starts: seq<Start>, start: Start)
    requires start.before != [] && Older(semver, start.version, start.before[0])
    ensures !SafeStarts(semver, starts + [start])
  {
    assert (starts + [start])[|starts|] == start;
    assert !AtMost(semver, start.before[0], start.version);
    assert !AllAtMost(semver, start.before, Some(start.version));
  }

  lemma OpenedElsewhereIsUnsafe(semver: SemVer, w: World, other: string)
    requires w.env.None?
    requires Opened(w, other) != [] && HasOlder(semver, Opened(w, other)[0])
    ensures !SafeWithoutResets(semver, w)
  {
    var older :| Older(semver, older, Opened(w, other)[0]);
    var b := Binary(older, older);
    var spare := LongerThanAll(w.volumes.Keys);
    assert VolumesOf(w, spare) == NO_VOLUMES;
    DowngradeStarts(semver, w, b, spare, other);
    OlderStartIsUnsafe(semver, w.starts, Start(older, Opened(w, other)));
    DowngradeHasNoResets(semver, b, spare, other);
  }

  lemma DowngradeHasNoResets(semver: SemVer, b: Binary, spare: string, other: string)
    requires semver(b.elastic).Some?
    ensures NoResets(semver, DowngradeRun(b, spare, other))
  {
  }

  lemma SafeAfterCleanReset(semver: SemVer, w: World)
    requires Good(semver, w)
    ensures SafeWithoutResets(semver, w)
  {
    forall steps | NoResets(semver, steps)
      ensures SafeStarts(semver, Run(semver, w, steps).starts)
    {
      RecordedNeverDecreases(semver, w, steps);
    }
  }

  /**
   * After a reset that took `.env` away, no later commands start Elasticsearch on a volume that a newer
   * version opened, exactly when no other container runtime's volume had been opened before the reset.
   */
  lemma ResetIsSafeExactly(semver: SemVer, w: World, runtime: string, force: bool, fate: ResetFate)
    requires Good(semver, w) && NoneOldest(semver, w) && RemovesEnv(w, force, fate)
    ensures SafeWithoutResets(semver, Reset(w, runtime, force, fate)) <==> OthersUnopened(w, runtime)
  {
    ResetKeepsExactly(semver, w, runtime, force, fate);
    if OthersUnopened(w, runtime) {
      SafeAfterCleanReset(semver, Reset(w, runtime, force, fate));
    } else {
      DirtyResetIsUnsafe(semver, w, runtime, force, fate);
    }
  }

  lemma DirtyResetIsUnsafe(semver: SemVer, w: World, runtime: string, force: bool, fate: ResetFate)
    requires Good(semver, w) && NoneOldest(semver, w)
    requires RemovesEnv(w, force, fate) && !OthersUnopened(w, runtime)
    ensures !SafeWithoutResets(semver, Reset(w, runtime, force, fate))
  {
    var w' := Reset(w, runtime, force, fate);
    var other :| other in w.volumes && other != runtime && Opened(w, other) != [];
    assert Opened(w', other) == Opened(w, other);
    OpenedElsewhereIsUnsafe(semver, w', other);
  }

  const DOCKER := "docker"
  const PODMAN := "podman"

  /** Nothing fails, and the containers start. */
  const ALL_GOES_WELL := UpFate(true, true, true, true, true, true, true, true, Some("key"), true, true, true, true,
                                true, true, true)

  const RESET_ALL := ResetFate(true, true, true, true, true, true, true, true)

  /** Podman installed after a stack was started with Docker, and a reset. */
  function SwitchedRuntime(newer: Binary): seq<Step> {
    [StepUp(newer, DOCKER, Auto, None, ALL_GOES_WELL), StepReset(PODMAN, true, RESET_ALL)]
  }

  lemma RunOfTwo(semver: SemVer, w: World, a: Step, b: Step, rest: seq<Step>)
    ensures Run(semver, w, [a, b] + rest) == Run(semver, Next(semver, Next(semver, w, a), b), rest)
  {
    var steps := [a, b] + rest;
    assert steps[1..][0] == b && steps[1..][1..] == rest;
  }

  lemma SwitchedRuntimeLeaves(semver: SemVer, newer: Binary)
    ensures var w := Run(semver, NEW_WORLD, SwitchedRuntime(newer));
            && w.env.None? && VolumesOf(w, PODMAN) == NO_VOLUMES
            && Opened(w, DOCKER) == [newer.elastic] && w.starts == [Start(newer.elastic, [])]
  {
    var up, reset := SwitchedRuntime(newer)[0], SwitchedRuntime(newer)[1];
    RunOfTwo(semver, NEW_WORLD, up, reset, []);
    assert [up, reset] + [] == [up, reset];
    FirstStart(semver, newer);
    assert DOCKER != PODMAN;
  }

  /** Resetting under Podman leaves Docker's volume, on which the older binary then starts its own version. */
  lemma SwitchedRuntimeDowngrades(semver: SemVer, newer: Binary, older: Binary)
    requires Older(semver, older.elastic, newer.elastic)
    ensures var w := Run(semver, NEW_WORLD, SwitchedRuntime(newer) + DowngradeRun(older, PODMAN, DOCKER));
            && w.starts == [Start(newer.elastic, []), Start(older.elastic, [newer.elastic])]
            && !SafeStarts(semver, w.starts)
  {
    var switched := SwitchedRuntime(newer);
    var w := Run(semver, NEW_WORLD, switched);
    RunOfTwo(semver, NEW_WORLD, switched[0], switched[1], DowngradeRun(older, PODMAN, DOCKER));
    RunOfTwo(semver, NEW_WORLD, switched[0], switched[1], []);
    assert switched + [] == switched;
    SwitchedRuntimeLeaves(semver, newer);
    DowngradeStarts(semver, w, older, PODMAN, DOCKER);
    OlderStartIsUnsafe(semver, w.starts, Start(older.elastic, [newer.elastic]));
    assert w.starts + [Start(older.elastic, [newer.elastic])]
        == [Start(newer.elastic, []), Start(older.elastic, [newer.elastic])];
  }

  lemma FirstStart(semver: SemVer, b: Binary)
    ensures var w := Next(semver, NEW_WORLD, StepUp(b, DOCKER, Auto, None, ALL_GOES_WELL));
            && w.volumes == map[DOCKER := Volumes(Some([b.elastic]), true, false)]
            && w.starts == [Start(b.elastic, [])]
  {
    var p := Prepared(semver, b, NO_VALUES, NEW_WORLD, Core, DOCKER, None, ALL_GOES_WELL);
    var w1 := WithVolume(WithVolume(p.world, DOCKER, Elasticsearch), DOCKER, Kibana);
    assert w1.volumes == map[DOCKER := Volumes(Some([]), true, false)];
    ImageVersionOfImage(b.elastic);
    var w2 := StartedElasticsearch(w1, DOCKER);
    assert [] + [b.elastic] == [b.elastic];
    assert [] + [Start(b.elastic, [])] == [Start(b.elastic, [])];
    assert w2.volumes == map[DOCKER := Volumes(Some([b.elastic]), true, false)];
    assert w2 == Launched(p.values, p.world, false, DOCKER, true, ALL_GOES_WELL).world;
  }

  // ----- What a completed `up` or `reset` leaves for the next one -----

  lemma StartedHasVolumes(values: Values, w: World, stopFirst: bool, runtime: string, pull: bool, fate: UpFate)
    requires Launched(values, w, stopFirst, runtime, pull, fate).ok
    ensures var volumes := VolumesOf(Launched(values, w, stopFirst, runtime, pull, fate).world, runtime);
            volumes.elasticsearch.Some? && volumes.kibana
  {
  }

  lemma ServedIsRecorded(values: Values, w: World, mode: Mode, runtime: string, fate: UpFate)
    requires Served(values, w, mode, runtime, fate).ok && mode != Auto
    ensures var p := Served(values, w, mode, runtime, fate);
            && p.world.env == Some(p.values) && p.values.outputApiKey == values.outputApiKey
            && ResolveMode(p.values, true, Auto) == Some(mode)
            && VolumesOf(p.world, runtime).elasticsearch == VolumesOf(w, runtime).elasticsearch
            && VolumesOf(p.world, runtime).kibana == VolumesOf(w, runtime).kibana
  {
    assert AUTO[0] == 'a' && CORE[0] == 'c' && FULL[0] == 'f';
  }

  lemma ContinuedCanBeRepeated(values: Values, w: World, mode: Mode, stopFirst: bool, runtime: string, pull: bool,
                               fate: UpFate)
    requires Continued(values, w, mode, stopFirst, runtime, pull, fate).ok && mode != Auto
    ensures var p := Continued(values, w, mode, stopFirst, runtime, pull, fate);
            && p.world.env == Some(p.values)
            && ResolveMode(p.values, true, Auto) == Some(mode)
            && Coupled(p.world, p.values, true, runtime)
            && (fate.apiKey != Some(PENDING) ==> p.values.outputApiKey != Some(PENDING))
  {
    StartedHasVolumes(values, w, stopFirst, runtime, pull, fate);
    var launched := Launched(values, w, stopFirst, runtime, pull, fate);
    var secured := Secured(launched.values, launched.world, fate);
    ServedIsRecorded(secured.values, secured.world, mode, runtime, fate);
  }

  /** After a successful `up` the state is recorded with its key, fits the volumes, and selects the same mode again. */
  lemma UpCanBeRepeated(semver: SemVer, b: Binary, values: Values, existing: bool, w: World, runtime: string,
                        requested: Mode, level: Option<string>, pull: bool, fate: UpFate)
    requires Up(semver, b, values, existing, w, runtime, requested, level, pull, fate).ok
    ensures var p := Up(semver, b, values, existing, w, runtime, requested, level, pull, fate);
            && p.world.env == Some(p.values)
            && ResolveMode(p.values, true, Auto) == ResolveMode(values, existing, requested)
            && Coupled(p.world, p.values, true, runtime)
            && (fate.apiKey != Some(PENDING) ==> p.values.outputApiKey != Some(PENDING))
  {
    var mode := ResolveMode(values, existing, requested).value;
    var stopFirst := existing && ActiveMode(values, existing) == Full && mode == Core;
    var prepared := Prepared(semver, b, values, w, mode, runtime, level, fate);
    ContinuedCanBeRepeated(prepared.values, prepared.world, mode, stopFirst, runtime, pull, fate);
  }

  /** No `up` under the runtime does anything, whatever its binary, options and luck. */
  ghost predicate Refused(semver: SemVer, w: World, runtime: string) {
    forall b, requested, level, fate ::
      Up(semver, b, NO_VALUES, false, w, runtime, requested, level, true, fate) == Progress(NO_VALUES, w, false)
  }

  predicate Completes(w: World, fate: ResetFate) {
    fate.stops && w.compose.Some? && fate.downs && fate.removes
  }

  lemma RefusedExactly(semver: SemVer, w: World, runtime: string)
    ensures Refused(semver, w, runtime) <==> !Coupled(w, NO_VALUES, false, runtime)
  {
    if Coupled(w, NO_VALUES, false, runtime) {
      var up := Up(semver, Binary("", ""), NO_VALUES, false, w, runtime, Core, None, true, ALL_GOES_WELL);
      assert up != Progress(NO_VALUES, w, false);
    }
  }

  /**
   * After a completed reset every further `up` is refused exactly when the web service had a volume and the compose
   * file was that of the core mode, which does not declare it; and no further reset can change that.
   */
  lemma UpAfterResetExactly(semver: SemVer, w: World, runtime: string, fate: ResetFate)
    requires Completes(w, fate)
    ensures var after := Reset(w, runtime, true, fate);
            && after.env.None?
            && (Refused(semver, after, runtime) <==>
                  VolumesOf(w, runtime).esdiag && !DeclaresEsdiag(w.compose.value))
            && (forall force, again :: Reset(after, runtime, force, again) == after)
  {
    RefusedExactly(semver, Reset(w, runtime, true, fate), runtime);
  }

  lemma ServedLeaves(values: Values, w: World, mode: Mode, runtime: string)
    ensures var p := Served(values, w, mode, runtime, ALL_GOES_WELL);
            && p.ok && p.world.compose == w.compose
            && p.values == values.(stackMode := Some(ModeText(mode))) && p.world.env == Some(p.values)
            && VolumesOf(p.world, runtime) ==
               (if mode == Full then VolumesOf(w, runtime).(esdiag := true) else VolumesOf(w, runtime))
  {
  }

  /** A start without mishaps: the compose file suits the mode, and the volumes exist. */
  lemma UpLeaves(semver: SemVer, b: Binary, values: Values, existing: bool, w: World, runtime: string, mode: Mode)
    requires mode != Auto && Coupled(w, values, existing, runtime)
    ensures var p := Up(semver, b, values, existing, w, runtime, mode, None, true, ALL_GOES_WELL);
            var volumes := VolumesOf(p.world, runtime);
            && p.ok && p.world.env == Some(p.values)
            && p.world.compose.Some? && (DeclaresEsdiag(p.world.compose.value) <==> mode == Full)
            && volumes.elasticsearch.Some? && volumes.kibana
            && (volumes.esdiag <==> mode == Full || VolumesOf(w, runtime).esdiag)
  {
    var prepared := Prepared(semver, b, values, w, mode, runtime, None, ALL_GOES_WELL);
    var stopFirst := existing && ActiveMode(values, existing) == Full && mode == Core;
    var launched := Launched(prepared.values, prepared.world, stopFirst, runtime, true, ALL_GOES_WELL);
    var secured := Secured(launched.values, launched.world, ALL_GOES_WELL);
    ServedLeaves(secured.values, secured.world, mode, runtime);
  }

  /** A stack that was in full mode, then in core mode, and then reset. */
  function FullThenCore(b: Binary): seq<Step> {
    [StepUp(b, DOCKER, Full, None, ALL_GOES_WELL), StepUp(b, DOCKER, Core, None, ALL_GOES_WELL),
     StepReset(DOCKER, true, RESET_ALL)]
  }

  lemma RunOfThree(semver: SemVer, w: World, a: Step, b: Step, c: Step)
    ensures Run(semver, w, [a, b, c]) == Next(semver, Next(semver, Next(semver, w, a), b), c)
  {
    RunOfTwo(semver, w, a, b, [c]);
    assert [a, b, c] == [a, b] + [c] && [c][1..] == [];
  }

  /** No `up` under its runtime is ever accepted again. */
  lemma FullThenCoreIsStuck(semver: SemVer, b: Binary)
    ensures var w := Run(semver, NEW_WORLD, FullThenCore(b));
            && w.env.None? && Refused(semver, w, DOCKER)
            && forall force, again :: Reset(w, DOCKER, force, again) == w
  {
    var steps := FullThenCore(b);
    var w1 := Next(semver, NEW_WORLD, steps[0]);
    UpLeaves(semver, b, NO_VALUES, false, NEW_WORLD, DOCKER, Full);
    var w2 := Next(semver, w1, steps[1]);
    UpLeaves(semver, b, w1.env.value, true, w1, DOCKER, Core);
    RunOfThree(semver, NEW_WORLD, steps[0], steps[1], steps[2]);
    UpAfterResetExactly(semver, w2, DOCKER, RESET_ALL);
  }

  // ----- What the commands do -----

  /** The text of a mode in `.env`, the lack of one included. */
  predicate Recalls(values: Values, existing: bool, mode: Mode) {
    match values.stackMode
    case Some(text) => (text == "full" && mode == Full) || (text == "core" && mode == Core)
    case None => mode == if existing then Full else Core
  }

  /** The mode asked for, or the recorded one. */
  predicate Chosen(values: Values, existing: bool, requested: Mode, mode: Mode) {
    if requested == Auto then Recalls(values, existing, mode) else mode == requested
  }

  lemma ModeExactly(values: Values, existing: bool, requested: Mode, mode: Mode)
    ensures ResolveMode(values, existing, requested) == Some(mode) <==> Chosen(values, existing, requested, mode)
  {
    assert CORE[0] == 'c' && FULL[0] == 'f';
  }

  /** A stack in full mode has to be stopped before it starts in core mode. */
  predicate LeavesFull(values: Values, existing: bool, mode: Mode) {
    existing && mode == Core && values.stackMode != Some("core") && values.stackMode != Some("auto")
  }

  lemma LeavesFullExactly(values: Values, existing: bool, mode: Mode)
    ensures existing && ActiveMode(values, existing) == Full && mode == Core <==> LeavesFull(values, existing, mode)
  {
    assert AUTO[0] == 'a' && CORE[0] == 'c' && FULL[0] == 'f';
  }

  /** A keyed stack that lost the volume of Elasticsearch or Kibana. */
  predicate LostVolumes(w: World, values: Values, runtime: string) {
    && values.outputApiKey.Some? && values.outputApiKey.value != "pending"
    && (runtime !in w.volumes || w.volumes[runtime].elasticsearch.None? || !w.volumes[runtime].kibana)
  }

  /** Volumes without a stack. */
  predicate StrayVolumes(w: World, runtime: string) {
    && runtime in w.volumes
    && (w.volumes[runtime].elasticsearch.Some? || w.volumes[runtime].kibana || w.volumes[runtime].esdiag)
  }

  predicate Misplaced(w: World, values: Values, existing: bool, runtime: string) {
    if existing then LostVolumes(w, values, runtime) else StrayVolumes(w, runtime)
  }

  lemma CoupledExactly(w: World, values: Values, existing: bool, runtime: string)
    ensures Coupled(w, values, existing, runtime) <==> !Misplaced(w, values, existing, runtime)
  {
  }

  /** What the machine must grant `up`. */
  predicate Granted(values: Values, existing: bool, mode: Mode, pull: bool, fate: UpFate) {
    && fate.writesCompose && fate.writesEnv && (LeavesFull(values, existing, mode) ==> fate.stops)
    && (pull ==> fate.pulls) && fate.starts && fate.apiKey.Some? && fate.writesKey && fate.ready && fate.setUp
    && fate.served && fate.writesMode
  }

  lemma ContinuedExactly(values: Values, w: World, mode: Mode, stopFirst: bool, runtime: string, pull: bool,
                         fate: UpFate)
    ensures Continued(values, w, mode, stopFirst, runtime, pull, fate).ok <==>
              && (stopFirst ==> fate.stops) && (pull ==> fate.pulls) && fate.starts && fate.apiKey.Some?
              && fate.writesKey && fate.ready && fate.setUp && fate.served && fate.writesMode
  {
  }

  /** `up` succeeds exactly when the mode is known, no volumes are misplaced, and the machine grants everything. */
  lemma UpSucceedsExactly(semver: SemVer, b: Binary, values: Values, existing: bool, w: World, runtime: string,
                          requested: Mode, level: Option<string>, pull: bool, fate: UpFate)
    ensures Up(semver, b, values, existing, w, runtime, requested, level, pull, fate).ok <==>
              && !Misplaced(w, values, existing, runtime)
              && exists mode :: Chosen(values, existing, requested, mode) && Granted(values, existing, mode, pull, fate)
  {
    CoupledExactly(w, values, existing, runtime);
    var resolved := ResolveMode(values, existing, requested);
    forall mode
      ensures Chosen(values, existing, requested, mode) <==> resolved == Some(mode)
    {
      ModeExactly(values, existing, requested, mode);
    }
    if resolved.Some? {
      UpInModeExactly(semver, b, values, existing, w, runtime, requested, level, pull, fate, resolved.value);
    }
  }

  lemma UpInModeExactly(semver: SemVer, b: Binary, values: Values, existing: bool, w: World, runtime: string,
                        requested: Mode, level: Option<string>, pull: bool, fate: UpFate, mode: Mode)
    requires ResolveMode(values, existing, requested) == Some(mode)
    ensures Up(semver, b, values, existing, w, runtime, requested, level, pull, fate).ok <==>
              Coupled(w, values, existing, runtime) && Granted(values, existing, mode, pull, fate)
  {
    LeavesFullExactly(values, existing, mode);
    var p := Prepared(semver, b, values, w, mode, runtime, level, fate);
    ContinuedExactly(p.values, p.world, mode, LeavesFull(values, existing, mode), runtime, pull, fate);
  }

  const ELASTICSEARCH_REPOSITORY := "docker.elastic.co/elasticsearch/elasticsearch:"
  const KIBANA_REPOSITORY := "docker.elastic.co/kibana/kibana:"
  const ESDIAG_REPOSITORY := "docker.elastic.co/esdiag/esdiag:"

  /** The recorded versions and images stay; what is missing is that of the binary. */
  predicate FilledIn(before: Values, after: Values, b: Binary) {
    && after.elasticVersion == Some(before.elasticVersion.GetOr(b.elastic))
    && after.esdiagVersion == Some(before.esdiagVersion.GetOr(b.esdiag))
    && after.elasticsearchImage == Some(before.elasticsearchImage.GetOr(ELASTICSEARCH_REPOSITORY + b.elastic))
    && after.kibanaImage == Some(before.kibanaImage.GetOr(KIBANA_REPOSITORY + b.elastic))
    && after.esdiagImage == Some(before.esdiagImage.GetOr(ESDIAG_REPOSITORY + b.esdiag))
  }

  /** Everything else that a completed `up` records. */
  predicate SettledAfterUp(before: Values, after: Values, runtime: string, mode: Mode, level: Option<string>,
                           fate: UpFate)
  {
    && after.outputApiKey == (if before.outputApiKey.None? || before.outputApiKey == Some("pending") then fate.apiKey
                              else before.outputApiKey)
    && after.stackMode == Some(match mode case Full => "full" case Core => "core" case Auto => "auto")
    && after.runtime == Some(runtime)
    && after.logLevel == Some(if level.Some? then level.value else before.logLevel.GetOr("info"))
  }

  lemma PreparedSettles(semver: SemVer, b: Binary, values: Values, w: World, mode: Mode, runtime: string,
                        level: Option<string>, fate: UpFate)
    requires Prepared(semver, b, values, w, mode, runtime, level, fate).ok
    ensures var p := Prepared(semver, b, values, w, mode, runtime, level, fate);
            && FilledIn(values, p.values, b) && p.world.env == Some(p.values)
            && p.values.outputApiKey == Some(values.outputApiKey.GetOr("pending"))
            && p.values.runtime == Some(runtime)
            && p.values.logLevel == Some(if level.Some? then level.value else values.logLevel.GetOr("info"))
            && p.world.volumes == w.volumes && p.world.starts == w.starts && p.world.setups == w.setups
            && p.world.compose ==
               Some(Compose(if mode == Full then Some(CommandForImage(semver, p.values.esdiagImage.value)) else None))
  {
  }

  /** What starting, securing and serving a stack changes of its settings. */
  lemma ContinuedSettles(values: Values, w: World, mode: Mode, stopFirst: bool, runtime: string, pull: bool,
                         fate: UpFate)
    requires Continued(values, w, mode, stopFirst, runtime, pull, fate).ok
    ensures var p := Continued(values, w, mode, stopFirst, runtime, pull, fate);
            && p.values == values.(outputApiKey := if values.outputApiKey == Some("pending") then fate.apiKey
                                                   else values.outputApiKey,
                                   stackMode := Some(ModeText(mode)))
            && p.world.env == Some(p.values) && p.world.compose == w.compose
  {
  }

  /** A completed `up` records what was missing, and writes the compose file of the mode for the image. */
  lemma UpRecords(semver: SemVer, b: Binary, values: Values, existing: bool, w: World, runtime: string,
                  requested: Mode, level: Option<string>, pull: bool, fate: UpFate) returns (mode: Mode)
    requires Up(semver, b, values, existing, w, runtime, requested, level, pull, fate).ok
    ensures Chosen(values, existing, requested, mode)
    ensures var p := Up(semver, b, values, existing, w, runtime, requested, level, pull, fate);
            && FilledIn(values, p.values, b) && SettledAfterUp(values, p.values, runtime, mode, level, fate)
            && p.world.env == Some(p.values)
            && p.world.compose ==
               Some(Compose(if mode == Full then Some(CommandForImage(semver, p.values.esdiagImage.value)) else None))
  {
    mode := ResolveMode(values, existing, requested).value;
    ModeExactly(values, existing, requested, mode);
    var stopFirst := existing && ActiveMode(values, existing) == Full && mode == Core;
    var p := Prepared(semver, b, values, w, mode, runtime, level, fate);
    PreparedSettles(semver, b, values, w, mode, runtime, level, fate);
    ContinuedSettles(p.values, p.world, mode, stopFirst, runtime, pull, fate);
  }

  /** What a completed `up` does: the volumes, one start of Elasticsearch, one run of the setup service. */
  predicate Started(semver: SemVer, before: World, after: World, values: Values, runtime: string, mode: Mode,
                    fate: UpFate)
    requires values.elasticsearchImage.Some? && values.esdiagImage.Some?
  {
    var volumes, image := VolumesOf(before, runtime), values.esdiagImage.value;
    var versions := volumes.elasticsearch.GetOr([]);
    var start := Start(ImageVersion(values.elasticsearchImage.value), versions);
    && after.volumes == before.volumes[runtime :=
         Volumes(Some(if fate.opens then versions + [start.version] else versions), true,
                 volumes.esdiag || (mode == Full && fate.serves))]
    && after.starts == (if fate.opens then before.starts + [start] else before.starts)
    && after.setups == (if mode == Full && fate.runsSetup then
                          before.setups + [SetupRun(CommandForImage(semver, image), image)]
                        else before.setups)
  }

  lemma LaunchedStarts(values: Values, w: World, stopFirst: bool, runtime: string, pull: bool, fate: UpFate)
    requires Launched(values, w, stopFirst, runtime, pull, fate).ok
    requires w.compose.Some? && w.env == Some(values) && values.elasticsearchImage.Some?
    ensures var p, volumes := Launched(values, w, stopFirst, runtime, pull, fate), VolumesOf(w, runtime);
            var versions := volumes.elasticsearch.GetOr([]);
            var start := Start(ImageVersion(values.elasticsearchImage.value), versions);
            && p.values == values && p.world.env == w.env && p.world.compose == w.compose
            && p.world.setups == w.setups
            && p.world.volumes == w.volumes[runtime :=
                 Volumes(Some(if fate.opens then versions + [start.version] else versions), true, volumes.esdiag)]
            && p.world.starts == (if fate.opens then w.starts + [start] else w.starts)
  {
    var w1 := WithVolume(w, runtime, Elasticsearch);
    var w2 := WithVolume(w1, runtime, Kibana);
    var versions := Opened(w, runtime);
    assert w2.volumes == w.volumes[runtime := Volumes(Some(versions), true, VolumesOf(w, runtime).esdiag)];
    assert Opened(w2, runtime) == versions;
  }

  lemma SecuredLeavesMachine(values: Values, w: World, fate: UpFate)
    requires w.env == Some(values)
    ensures var p := Secured(values, w, fate);
            && p.world.volumes == w.volumes && p.world.starts == w.starts && p.world.setups == w.setups
            && p.world.compose == w.compose && p.world.env == Some(p.world.env.GetOr(values))
            && p.values.esdiagImage == values.esdiagImage
            && (p.ok ==> p.world.env == Some(p.values))
  {
  }

  lemma ServedStarts(values: Values, w: World, mode: Mode, runtime: string, fate: UpFate, command: Command)
    requires Served(values, w, mode, runtime, fate).ok && runtime in w.volumes
    requires w.env == Some(values) && values.esdiagImage.Some?
    requires w.compose == Some(Compose(if mode == Full then Some(command) else None))
    ensures var p, volumes := Served(values, w, mode, runtime, fate), VolumesOf(w, runtime);
            && p.world.starts == w.starts
            && p.world.volumes == w.volumes[runtime :=
                 volumes.(esdiag := volumes.esdiag || (mode == Full && fate.serves))]
            && p.world.setups == (if mode == Full && fate.runsSetup then
                                    w.setups + [SetupRun(command, values.esdiagImage.value)]
                                  else w.setups)
  {
    var volumes := VolumesOf(w, runtime);
    assert volumes.(esdiag := volumes.esdiag) == volumes && w.volumes[runtime := volumes] == w.volumes;
  }

  lemma ContinuedStarts(semver: SemVer, values: Values, w: World, mode: Mode, stopFirst: bool, runtime: string,
                        pull: bool, fate: UpFate)
    requires Continued(values, w, mode, stopFirst, runtime, pull, fate).ok
    requires Ready(semver, Progress(values, w, true), mode) && values.elasticsearchImage.Some?
    ensures Started(semver, w, Continued(values, w, mode, stopFirst, runtime, pull, fate).world, values, runtime, mode,
                    fate)
  {
    var l := Launched(values, w, stopFirst, runtime, pull, fate);
    LaunchedStarts(values, w, stopFirst, runtime, pull, fate);
    var q := Secured(l.values, l.world, fate);
    SecuredLeavesMachine(l.values, l.world, fate);
    ServedStarts(q.values, q.world, mode, runtime, fate, CommandForImage(semver, values.esdiagImage.value));
  }

  /** A completed `up` starts the recorded image of Elasticsearch once, and sets up and serves in full mode only. */
  lemma UpStarts(semver: SemVer, b: Binary, values: Values, existing: bool, w: World, runtime: string,
                 requested: Mode, level: Option<string>, pull: bool, fate: UpFate) returns (mode: Mode)
    requires Up(semver, b, values, existing, w, runtime, requested, level, pull, fate).ok
    ensures Chosen(values, existing, requested, mode)
    ensures var p := Up(semver, b, values, existing, w, runtime, requested, level, pull, fate);
            && p.values.elasticsearchImage.Some? && p.values.esdiagImage.Some?
            && Started(semver, w, p.world, p.values, runtime, mode, fate)
  {
    mode := ResolveMode(values, existing, requested).value;
    ModeExactly(values, existing, requested, mode);
    var stopFirst := existing && ActiveMode(values, existing) == Full && mode == Core;
    var p := Prepared(semver, b, values, w, mode, runtime, level, fate);
    UpIsContinued(semver, b, values, existing, w, runtime, requested, level, pull, fate);
    PreparedSettles(semver, b, values, w, mode, runtime, level, fate);
    ContinuedSettles(p.values, p.world, mode, stopFirst, runtime, pull, fate);
    ContinuedStarts(semver, p.values, p.world, mode, stopFirst, runtime, pull, fate);
    var after := Continued(p.values, p.world, mode, stopFirst, runtime, pull, fate);
    SameStart(semver, p.world, w, after.world, p.values, after.values, runtime, mode, fate);
  }

  lemma UpIsContinued(semver: SemVer, b: Binary, values: Values, existing: bool, w: World, runtime: string,
                      requested: Mode, level: Option<string>, pull: bool, fate: UpFate)
    requires Up(semver, b, values, existing, w, runtime, requested, level, pull, fate).ok
    ensures var mode := ResolveMode(values, existing, requested);
            && mode.Some?
            && var stopFirst := existing && ActiveMode(values, existing) == Full && mode.value == Core;
               var p := Prepared(semver, b, values, w, mode.value, runtime, level, fate);
               p.ok && Up(semver, b, values, existing, w, runtime, requested, level, pull, fate)
                       == Continued(p.values, p.world, mode.value, stopFirst, runtime, pull, fate)
  {
  }

  lemma SameStart(semver: SemVer, w: World, v: World, after: World, a: Values, b: Values, runtime: string, mode: Mode,
                  fate: UpFate)
    requires w.volumes == v.volumes && w.starts == v.starts && w.setups == v.setups
    requires a.elasticsearchImage.Some? && a.esdiagImage.Some?
    requires a.elasticsearchImage == b.elasticsearchImage && a.esdiagImage == b.esdiagImage
    requires Started(semver, w, after, a, runtime, mode, fate)
    ensures Started(semver, v, after, b, runtime, mode, fate)
  {
  }

  // ----- Stacks that lost their volumes -----

  ghost predicate UpRefuses(semver: SemVer, values: Values, existing: bool, w: World, runtime: string) {
    forall b, requested, level, pull, fate ::
      Up(semver, b, values, existing, w, runtime, requested, level, pull, fate) == Progress(values, w, false)
  }

  ghost predicate SetUpRefuses(semver: SemVer, values: Values, existing: bool, w: World, runtime: string) {
    forall fate :: SetUp(semver, values, existing, w, runtime, fate) == Progress(values, w, false)
  }

  ghost predicate UpgradeRefuses(semver: SemVer, b: Binary, values: Values, w: World, runtime: string) {
    forall level, fate, upFate ::
      Upgrade(semver, b, values, true, w, runtime, Auto, level, fate, upFate) == Progress(values, w, false)
  }

  /** `up` and `setup` refuse, whatever happens, exactly when volumes are missing under a key or have no stack. */
  lemma MisplacedIsRefusedExactly(semver: SemVer, values: Values, existing: bool, w: World, runtime: string)
    ensures UpRefuses(semver, values, existing, w, runtime) <==> Misplaced(w, values, existing, runtime)
    ensures SetUpRefuses(semver, values, existing, w, runtime) <==> Misplaced(w, values, existing, runtime)
  {
    CoupledExactly(w, values, existing, runtime);
    if !Misplaced(w, values, existing, runtime) {
      var b := Binary("", "");
      assert Granted(values, existing, Core, true, ALL_GOES_WELL);
      UpSucceedsExactly(semver, b, values, existing, w, runtime, Core, None, true, ALL_GOES_WELL);
      assert Up(semver, b, values, existing, w, runtime, Core, None, true, ALL_GOES_WELL).ok;
      assert SetUp(semver, values, existing, w, runtime, SetUpFate(true, true, true)).ok;
    }
  }

  /** What an upgrade would change: the version of Elastic, or in full mode that of ESDiag. */
  predicate SomethingToDo(values: Values, b: Binary, mode: Mode) {
    || (values.elasticVersion.Some? && values.elasticVersion.value != b.elastic)
    || (mode == Full && values.esdiagVersion.Some? && values.esdiagVersion.value != b.esdiag)
  }

  /** The recorded version of Elastic can be compared, and is not newer than the binary's. */
  predicate MayUpgrade(semver: SemVer, values: Values, b: Binary) {
    values.elasticVersion.Some? ==>
      && semver(values.elasticVersion.value).Some? && semver(b.elastic).Some?
      && semver(values.elasticVersion.value).value.precedence <= semver(b.elastic).value.precedence
  }

  /** An upgrade that has something to do refuses, whatever happens, exactly when volumes are missing under a key. */
  lemma LostVolumesStopUpgradesExactly(semver: SemVer, b: Binary, values: Values, w: World, runtime: string, mode: Mode)
    requires Recalls(values, true, mode) && MayUpgrade(semver, values, b) && SomethingToDo(values, b, mode)
    ensures UpgradeRefuses(semver, b, values, w, runtime) <==> LostVolumes(w, values, runtime)
  {
    ModeExactly(values, true, Auto, mode);
    CoupledExactly(w, values, true, runtime);
    if !LostVolumes(w, values, runtime) {
      var fate := UpgradeFate(true, Some(false), true, true, true, true);
      assert Upgrade(semver, b, values, true, w, runtime, Auto, None, fate, ALL_GOES_WELL).ok;
    }
  }

  // ----- What an upgrade does -----

  /** Both versions and all three images are the binary's. */
  predicate BroughtUp(after: Values, b: Binary) {
    && after.elasticVersion == Some(b.elastic) && after.esdiagVersion == Some(b.esdiag)
    && after.elasticsearchImage == Some(ELASTICSEARCH_REPOSITORY + b.elastic)
    && after.kibanaImage == Some(KIBANA_REPOSITORY + b.elastic)
    && after.esdiagImage == Some(ESDIAG_REPOSITORY + b.esdiag)
  }

  /** Where an upgrade is refused or has nothing to do, before anything happens. */
  lemma UpgradeStartsExactly(semver: SemVer, b: Binary, values: Values, existing: bool, w: World, runtime: string,
                             requested: Mode, level: Option<string>, fate: UpgradeFate, upFate: UpFate, mode: Mode)
    ensures var p := Upgrade(semver, b, values, existing, w, runtime, requested, level, fate, upFate);
            && (!existing || requested != Auto || !MayUpgrade(semver, values, b) ==> p == Progress(values, w, false))
            && ((forall m :: !Recalls(values, true, m)) ==> p == Progress(values, w, false))
            && (existing && requested == Auto && MayUpgrade(semver, values, b) && Recalls(values, true, mode) ==>
                  if !SomethingToDo(values, b, mode) then p == Progress(values, w, true)
                  else !fate.confirmed || fate.running.None? ==> p == Progress(values, w, false))
  {
    ModeExactly(values, true, Auto, mode);
    var resolved := ResolveMode(values, true, Auto);
    if resolved.Some? {
      ModeExactly(values, true, Auto, resolved.value);
    }
  }

  /** A completed upgrade of a stopped stack records the binary's versions and images, and starts nothing. */
  lemma StoppedUpgradeStartsNothing(semver: SemVer, b: Binary, values: Values, w: World, runtime: string,
                                    level: Option<string>, fate: UpgradeFate, upFate: UpFate, mode: Mode)
    requires Recalls(values, true, mode) && MayUpgrade(semver, values, b) && SomethingToDo(values, b, mode)
    requires fate.running == Some(false)
    ensures var p := Upgrade(semver, b, values, true, w, runtime, Auto, level, fate, upFate);
            && (p.ok <==> fate.confirmed && !LostVolumes(w, values, runtime) && fate.writesEnv && fate.writesCompose
                          && fate.pulls)
            && p.world.starts == w.starts && p.world.setups == w.setups && p.world.volumes == w.volumes
            && (p.ok ==> && BroughtUp(p.values, b) && p.world.env == Some(p.values)
                         && p.values.outputApiKey == values.outputApiKey && p.values.stackMode == values.stackMode
                         && p.values.runtime == values.runtime && p.values.logLevel == values.logLevel)
  {
    ModeExactly(values, true, Auto, mode);
    CoupledExactly(w, values, true, runtime);
  }

  /** An upgrade of a running stack succeeds when a start without another pull does, and starts Elasticsearch once. */
  lemma RunningUpgradeStartsOnce(semver: SemVer, b: Binary, values: Values, w: World, runtime: string,
                                 level: Option<string>, fate: UpgradeFate, upFate: UpFate, mode: Mode)
    requires Recalls(values, true, mode) && MayUpgrade(semver, values, b) && SomethingToDo(values, b, mode)
    requires fate.running == Some(true)
    ensures var p := Upgrade(semver, b, values, true, w, runtime, Auto, level, fate, upFate);
            && (p.ok <==>
                  && fate.confirmed && !LostVolumes(w, values, runtime) && fate.writesEnv && fate.writesCompose
                  && fate.pulls && Granted(values, true, mode, false, upFate))
            && (p.ok ==>
                  && BroughtUp(p.values, b) && p.world.env == Some(p.values)
                  && SettledAfterUp(values, p.values, runtime, mode, level, upFate)
                  && p.world.starts ==
                     (if upFate.opens then w.starts + [Start(b.elastic, Opened(w, runtime))] else w.starts)
                  && Started(semver, w, p.world, p.values, runtime, mode, upFate))
  {
    ModeExactly(values, true, Auto, mode);
    CoupledExactly(w, values, true, runtime);
    if fate.confirmed && !LostVolumes(w, values, runtime) && fate.writesEnv && fate.writesCompose && fate.pulls {
      RunningUpgradeIsUp(semver, b, values, w, runtime, level, fate, upFate, mode);
      UpgradedUp(semver, b, values, w, runtime, level, upFate, mode);
    }
  }

  lemma UpgradedUp(semver: SemVer, b: Binary, values: Values, w: World, runtime: string, level: Option<string>,
                   upFate: UpFate, mode: Mode)
    requires mode != Auto && !LostVolumes(w, values, runtime)
    ensures var upgraded := WithCurrentVersions(values, b);
            var w2 := w.(env := Some(upgraded), compose := Some(ComposeFor(semver, upgraded, mode)));
            var p := Up(semver, b, upgraded, true, w2, runtime, mode, level, false, upFate);
            && (p.ok <==> Granted(values, true, mode, false, upFate))
            && (p.ok ==>
                  && BroughtUp(p.values, b) && p.world.env == Some(p.values)
                  && SettledAfterUp(values, p.values, runtime, mode, level, upFate)
                  && p.world.starts ==
                     (if upFate.opens then w.starts + [Start(b.elastic, Opened(w, runtime))] else w.starts)
                  && Started(semver, w, p.world, p.values, runtime, mode, upFate))
  {
    var upgraded := WithCurrentVersions(values, b);
    var w2 := w.(env := Some(upgraded), compose := Some(ComposeFor(semver, upgraded, mode)));
    CoupledExactly(w2, upgraded, true, runtime);
    UpInModeExactly(semver, b, upgraded, true, w2, runtime, mode, level, false, upFate, mode);
    var p := Up(semver, b, upgraded, true, w2, runtime, mode, level, false, upFate);
    if p.ok {
      var m := UpRecords(semver, b, upgraded, true, w2, runtime, mode, level, false, upFate);
      m := UpStarts(semver, b, upgraded, true, w2, runtime, mode, level, false, upFate);
      SameStart(semver, w2, w, p.world, p.values, p.values, runtime, mode, upFate);
      ImageVersionOfImage(b.elastic);
    }
  }

  lemma RunningUpgradeIsUp(semver: SemVer, b: Binary, values: Values, w: World, runtime: string,
                           level: Option<string>, fate: UpgradeFate, upFate: UpFate, mode: Mode)
    requires ResolveMode(values, true, Auto) == Some(mode)
    requires MayUpgrade(semver, values, b) && SomethingToDo(values, b, mode)
    requires fate.running == Some(true) && fate.confirmed && Coupled(w, values, true, runtime)
    requires fate.writesEnv && fate.writesCompose && fate.pulls
    ensures var upgraded := WithCurrentVersions(values, b);
            var w2 := w.(env := Some(upgraded), compose := Some(ComposeFor(semver, upgraded, mode)));
            && Upgrade(semver, b, values, true, w, runtime, Auto, level, fate, upFate)
               == Up(semver, b, upgraded, true, w2, runtime, mode, level, false, upFate)
            && mode != Auto
  {
  }

  // ----- What `setup`, `restart` and `reset` do -----

  /** The mode a command works in that is not asked for one. */
  predicate Active(values: Values, existing: bool, mode: Mode) {
    if values.stackMode == Some("full") then mode == Full
    else if values.stackMode == Some("core") then mode == Core
    else if values.stackMode == Some("auto") then mode == Auto
    else mode == if existing then Full else Core
  }

  /** `setup` rewrites the compose file of a stack for its mode and image, and runs its setup service in full mode. */
  lemma SetUpExactly(semver: SemVer, values: Values, existing: bool, w: World, runtime: string, fate: SetUpFate,
                     mode: Mode)
    requires Active(values, existing, mode) && w.env == (if existing then Some(values) else None)
    ensures var p := SetUp(semver, values, existing, w, runtime, fate);
            var image := values.esdiagImage.GetOr("");
            && (p.ok <==> !Misplaced(w, values, existing, runtime) && (existing ==> fate.writesCompose) && fate.setUp)
            && p.values == values && p.world.env == w.env && p.world.volumes == w.volumes
            && p.world.starts == w.starts
            && (p.ok && existing ==>
                  && p.world.compose ==
                     Some(Compose(if mode == Full then Some(CommandForImage(semver, image)) else None))
                  && p.world.setups == (if mode == Full && fate.runsSetup && values.esdiagImage.Some? then
                                          w.setups + [SetupRun(CommandForImage(semver, image), image)]
                                        else w.setups))
  {
    assert AUTO[0] == 'a' && CORE[0] == 'c' && FULL[0] == 'f';
    CoupledExactly(w, values, existing, runtime);
  }

  /** A log level that is given is recorded before anything is restarted, and nothing else is. */
  lemma RestartRecordsLevel(values: Values, w: World, runtime: string, level: Option<string>, writes: bool,
                            services: seq<(Service, RestartFate)>)
    ensures var p := Restart(values, w, runtime, level, writes, services);
            && (level.None? ==> p.world.env == w.env && p.values == values)
            && (level.Some? && writes ==> p.world.env == Some(values.(logLevel := level)) && p.values.logLevel == level)
            && (level.Some? && !writes ==> p == Progress(values.(logLevel := level), w, false))
            && (level.None? && services == [] ==> p == Progress(values, w, true))
  {
    RestartedAllPins(values, w, runtime, services);
    RestartedAllPins(values.(logLevel := level), w.(env := Some(values.(logLevel := level))), runtime, services);
  }

  /** Restarting one service, when nothing fails: its volume, and a start of Elasticsearch in its recorded image. */
  lemma RestartOneExactly(values: Values, w: World, runtime: string, service: Service)
    requires w.compose.Some? && w.env == Some(values)
    requires values.elasticsearchImage.Some? && values.esdiagImage.Some?
    ensures var p, volumes := Restart(values, w, runtime, None, true, [(service, RESTARTS)]), VolumesOf(w, runtime);
            var full, version := w.compose.value.setup, ImageVersion(values.elasticsearchImage.value);
            match service
            case Elasticsearch =>
              p.ok && p.world == w.(volumes := w.volumes[runtime :=
                                      volumes.(elasticsearch := Some(volumes.elasticsearch.GetOr([]) + [version]))],
                                    starts := w.starts + [Start(version, volumes.elasticsearch.GetOr([]))])
            case Kibana => p.ok && p.world == w.(volumes := w.volumes[runtime := volumes.(kibana := true)])
            case Esdiag =>
              if values.stackMode == Some("core") then p.ok && p.world == w
              else if full.None? then !p.ok && p.world == w
              else p.ok && p.world == w.(volumes := w.volumes[runtime := volumes.(esdiag := true)])
            case SetupService =>
              if full.None? then !p.ok && p.world == w
              else p.ok && p.world == w.(setups := w.setups + [SetupRun(full.value, values.esdiagImage.value)])
            case OtherService => !p.ok && p.world == w
  {
    var services, w1 := [(service, RESTARTS)], WithVolume(w, runtime, service);
    assert services[1..] == [];
    assert RestartedAll(values, w, runtime, services).world == Restarted(values, w, runtime, service, RESTARTS);
    if service == Elasticsearch {
      assert Opened(w1, runtime) == Opened(w, runtime);
      var versions := VolumesOf(w, runtime).elasticsearch.GetOr([]);
      var version := ImageVersion(values.elasticsearchImage.value);
      assert StartedElasticsearch(w1, runtime).volumes == w.volumes[runtime :=
          VolumesOf(w, runtime).(elasticsearch := Some(versions + [version]))];
    }
  }

  /** Without `--force` nothing is removed; a completed reset removes the declared volumes and both files. */
  lemma ResetExactly(w: World, runtime: string, force: bool, fate: ResetFate)
    ensures !force || w.compose.None? ==> Reset(w, runtime, force, fate) == w
    ensures force && w.compose.Some? && fate.stops && fate.downs && fate.removes ==>
              var volumes := VolumesOf(w, runtime);
              Reset(w, runtime, force, fate)
              == w.(env := None, compose := None,
                    volumes := w.volumes[runtime :=
                      Volumes(None, false, volumes.esdiag && w.compose.value.setup.None?)])
  {
  }

  /** Wherever `up` stops, the settings it found stay, and those it adds are the binary's. */
  lemma UpOverwritesNothing(semver: SemVer, b: Binary, values: Values, existing: bool, w: World, runtime: string,
                            requested: Mode, level: Option<string>, pull: bool, fate: UpFate)
    ensures var env := Up(semver, b, values, existing, w, runtime, requested, level, pull, fate).world.env;
            env == w.env || (env.Some? && FilledIn(values, env.value, b))
  {
    var mode := ResolveMode(values, existing, requested);
    if mode.Some? {
      var p := Prepared(semver, b, values, w, mode.value, runtime, level, fate);
      assert FilledIn(values, p.values, b);
      var stopFirst := existing && ActiveMode(values, existing) == Full && mode.value == Core;
      if p.ok {
        ContinuedOverwritesNothing(b, values, p.values, p.world, mode.value, stopFirst, runtime, pull, fate);
      }
    }
  }

  lemma ContinuedOverwritesNothing(b: Binary, before: Values, values: Values, w: World, mode: Mode, stopFirst: bool,
                                   runtime: string, pull: bool, fate: UpFate)
    requires w.env == Some(values) && FilledIn(before, values, b)
    ensures var env := Continued(values, w, mode, stopFirst, runtime, pull, fate).world.env;
            env.Some? && FilledIn(before, env.value, b)
  {
    var l := Launched(values, w, stopFirst, runtime, pull, fate);
    assert l.values == values && l.world.env == w.env;
    var q := Secured(l.values, l.world, fate);
    assert FilledIn(before, q.values, b) && FilledIn(before, q.world.env.value, b);
  }

  // ----- Setup runs that do not suit their image -----

  /** An upgrade whose images cannot be pulled, after which the settings are restored. */
  const PULL_FAILS := UpgradeFate(true, Some(true), true, true, false, true)

  /** An upgrade that stops between writing the settings and the compose file. */
  const STOPS_BETWEEN := UpgradeFate(true, Some(true), true, false, false, false)

  /** A stack in full mode, an upgrade by a later binary, and a restart of the setup service. */
  function MisfitRun(b: Binary, later: Binary, fate: UpgradeFate): seq<Step> {
    [StepUp(b, DOCKER, Full, None, ALL_GOES_WELL), StepUpgrade(later, DOCKER, Auto, None, fate, ALL_GOES_WELL),
     RestartOf(SetupService, DOCKER)]
  }

  function SetupRunOf(semver: SemVer, command: Binary, image: Binary): SetupRun {
    SetupRun(CommandForImage(semver, ESDIAG_IMAGE + command.esdiag), ESDIAG_IMAGE + image.esdiag)
  }

  function FullCompose(semver: SemVer, b: Binary): Option<Compose> {
    Some(Compose(Some(CommandForImage(semver, ESDIAG_IMAGE + b.esdiag))))
  }

  predicate IsFullStack(semver: SemVer, w: World, b: Binary) {
    && w.env.Some? && w.compose == FullCompose(semver, b)
    && w.env.value.elasticVersion == Some(b.elastic) && w.env.value.esdiagVersion == Some(b.esdiag)
    && w.env.value.esdiagImage == Some(ESDIAG_IMAGE + b.esdiag) && w.env.value.stackMode == Some(FULL)
    && VolumesOf(w, DOCKER).elasticsearch.Some? && VolumesOf(w, DOCKER).kibana
    && w.setups == [SetupRunOf(semver, b, b)]
  }

  lemma ServedFull(values: Values, w: World)
    ensures var p := Served(values, w, Full, DOCKER, ALL_GOES_WELL);
            && p.world.setups == RanSetup(w).setups && p.world.compose == w.compose
            && p.world.env == Some(values.(stackMode := Some(FULL)))
  {
  }

  lemma FullUpLeaves(semver: SemVer, b: Binary)
    ensures IsFullStack(semver, Next(semver, NEW_WORLD, StepUp(b, DOCKER, Full, None, ALL_GOES_WELL)), b)
  {
    var prepared := Prepared(semver, b, NO_VALUES, NEW_WORLD, Full, DOCKER, None, ALL_GOES_WELL);
    var launched := Launched(prepared.values, prepared.world, false, DOCKER, true, ALL_GOES_WELL);
    assert launched.values == prepared.values && launched.world.setups == [];
    var secured := Secured(launched.values, launched.world, ALL_GOES_WELL);
    assert secured.world.compose == FullCompose(semver, b) && secured.world.setups == [];
    assert secured.values.esdiagImage == Some(ESDIAG_IMAGE + b.esdiag);
    assert [] + [SetupRunOf(semver, b, b)] == [SetupRunOf(semver, b, b)];
    ServedFull(secured.values, secured.world);
    UpLeaves(semver, b, NO_VALUES, false, NEW_WORLD, DOCKER, Full);
  }

  lemma MishapStops(semver: SemVer, later: Binary, values: Values, w: World, mode: Mode, fate: UpgradeFate)
    requires w.env == Some(values) && ResolveMode(values, true, Auto) == Some(mode)
    requires RecordedIsNewer(semver, values, later) == Some(false) && HasPendingUpgrades(values, later, mode)
    requires Coupled(w, values, true, DOCKER) && (fate == PULL_FAILS || fate == STOPS_BETWEEN)
    ensures var upgraded := WithCurrentVersions(values, later);
            Upgrade(semver, later, values, true, w, DOCKER, Auto, None, fate, ALL_GOES_WELL).world ==
            if fate.writesCompose then w.(compose := Some(ComposeFor(semver, upgraded, mode)))
            else w.(env := Some(upgraded))
  {
    var upgraded := WithCurrentVersions(values, later);
    var compose := Some(ComposeFor(semver, upgraded, mode));
    assert w.(env := Some(upgraded)).(compose := compose).(env := Some(values)) == w.(compose := compose);
  }

  /** What either mishap leaves of the compose file and the image. */
  lemma UpgradeMishapLeaves(semver: SemVer, w: World, b: Binary, later: Binary, fate: UpgradeFate)
    requires IsFullStack(semver, w, b) && AtMost(semver, b.elastic, later.elastic)
    requires b.esdiag != later.esdiag && (fate == PULL_FAILS || fate == STOPS_BETWEEN)
    ensures var after := Next(semver, w, StepUpgrade(later, DOCKER, Auto, None, fate, ALL_GOES_WELL));
            && after.setups == w.setups && after.env.Some?
            && after.compose == FullCompose(semver, if fate.writesCompose then later else b)
            && after.env.value.esdiagImage == Some(ESDIAG_IMAGE + (if fate.writesCompose then b else later).esdiag)
  {
    var values := w.env.value;
    assert ResolveMode(values, true, Auto) == Some(Full);
    assert RecordedIsNewer(semver, values, later) == Some(false);
    MishapStops(semver, later, values, w, Full, fate);
  }

  lemma SetupRestarted(semver: SemVer, w: World, command: Command, image: string)
    requires w.compose == Some(Compose(Some(command))) && w.env.Some? && w.env.value.esdiagImage == Some(image)
    ensures Next(semver, w, RestartOf(SetupService, DOCKER)).setups == w.setups + [SetupRun(command, image)]
  {
    var services := RestartOf(SetupService, DOCKER).services;
    assert services[1..] == [];
    var w1 := Restarted(w.env.value, w, DOCKER, SetupService, RESTARTS);
    assert RestartedAll(w.env.value, w, DOCKER, services).world == w1 == RanSetup(w);
  }

  /**
   * Both mishaps lead to a setup run with another image's command: after a failed pull the new command runs in the
   * old image, after a stop between the writes the old command runs in the new image.
   */
  lemma SetupMisfits(semver: SemVer, b: Binary, later: Binary, fate: UpgradeFate)
    requires AtMost(semver, b.elastic, later.elastic) && (fate == PULL_FAILS || fate == STOPS_BETWEEN)
    requires CommandForImage(semver, ESDIAG_IMAGE + b.esdiag) != CommandForImage(semver, ESDIAG_IMAGE + later.esdiag)
    ensures CleanRun(semver, NEW_WORLD, MisfitRun(b, later, fate))
    ensures var setups := Run(semver, NEW_WORLD, MisfitRun(b, later, fate)).setups;
            && setups == [SetupRunOf(semver, b, b), MisfitSetup(semver, b, later, fate)]
            && !SetupsMatch(semver, setups)
  {
    MisfitSetups(semver, b, later, fate);
    MisfitRunIsClean(semver, b, later, fate);
    SecondMisfits(semver, SetupRunOf(semver, b, b), MisfitSetup(semver, b, later, fate));
  }

  lemma MisfitSetups(semver: SemVer, b: Binary, later: Binary, fate: UpgradeFate)
    requires AtMost(semver, b.elastic, later.elastic) && (fate == PULL_FAILS || fate == STOPS_BETWEEN)
    requires b.esdiag != later.esdiag
    ensures Run(semver, NEW_WORLD, MisfitRun(b, later, fate)).setups ==
            [SetupRunOf(semver, b, b), MisfitSetup(semver, b, later, fate)]
  {
    var steps := MisfitRun(b, later, fate);
    FullUpLeaves(semver, b);
    MishapThenSetup(semver, Next(semver, NEW_WORLD, steps[0]), b, later, fate);
    RunOfThree(semver, NEW_WORLD, steps[0], steps[1], steps[2]);
  }

  lemma MisfitRunIsClean(semver: SemVer, b: Binary, later: Binary, fate: UpgradeFate)
    requires semver(b.elastic).Some? && semver(later.elastic).Some?
    ensures CleanRun(semver, NEW_WORLD, MisfitRun(b, later, fate))
  {
    RecordedNeverDecreases(semver, NEW_WORLD, MisfitRun(b, later, fate));
  }

  function MisfitSetup(semver: SemVer, b: Binary, later: Binary, fate: UpgradeFate): SetupRun {
    if fate.writesCompose then SetupRunOf(semver, later, b) else SetupRunOf(semver, b, later)
  }

  lemma MishapThenSetup(semver: SemVer, w: World, b: Binary, later: Binary, fate: UpgradeFate)
    requires IsFullStack(semver, w, b) && AtMost(semver, b.elastic, later.elastic)
    requires b.esdiag != later.esdiag && (fate == PULL_FAILS || fate == STOPS_BETWEEN)
    ensures var after := Next(semver, w, StepUpgrade(later, DOCKER, Auto, None, fate, ALL_GOES_WELL));
            Next(semver, after, RestartOf(SetupService, DOCKER)).setups ==
            [SetupRunOf(semver, b, b), MisfitSetup(semver, b, later, fate)]
  {
    var after := Next(semver, w, StepUpgrade(later, DOCKER, Auto, None, fate, ALL_GOES_WELL));
    UpgradeMishapLeaves(semver, w, b, later, fate);
    var run := MisfitSetup(semver, b, later, fate);
    SetupRestarted(semver, after, run.command, run.image);
    assert [SetupRunOf(semver, b, b)] + [run] == [SetupRunOf(semver, b, b), run];
  }

  lemma SecondMisfits(semver: SemVer, first: SetupRun, second: SetupRun)
    requires second.command != CommandForImage(semver, second.image)
    ensures !SetupsMatch(semver, [first, second])
  {
    assert [first, second][1] == second;
  }

  // ----- What upgrades do -----

  /** Only a confirmed upgrade moves a recorded version, and only to its binary's. */
  lemma OnlyUpgradesMove(semver: SemVer, w: World, step: Step)
    requires !step.StepReset? && RecordedVersion(w).Some?
    ensures RecordedVersion(Next(semver, w, step)) != RecordedVersion(w) ==>
              && step.StepUpgrade? && step.upgradeFate.confirmed
              && RecordedVersion(Next(semver, w, step)) == Some(step.binary.elastic)
  {
    var existing := w.env.Some?;
    var values := w.env.GetOr(NO_VALUES);
    match step
    case StepUp(b, runtime, requested, level, fate) =>
      UpPins(semver, b, values, existing, w, runtime, requested, level, true, fate);
    case StepUpgrade(b, runtime, requested, level, fate, upFate) =>
      UpgradePins(semver, b, values, existing, w, runtime, requested, level, fate, upFate);
    case StepSetUp(runtime, fate) =>
    case StepRestart(runtime, level, writes, services) =>
      var levelled := values.(logLevel := level);
      RestartedAllPins(levelled, w.(env := Some(levelled)), runtime, services);
      RestartedAllPins(values, w, runtime, services);
  }

  lemma {:induction false} RestartedAllPins(values: Values, w: World, runtime: string,
                                            services: seq<(Service, RestartFate)>)
    ensures RestartedAll(values, w, runtime, services).world.env == w.env
    ensures RestartedAll(values, w, runtime, services).values == values
    decreases |services|
  {
    if services != [] {
      var w1 := Restarted(values, w, runtime, services[0].0, services[0].1);
      RestartedAllPins(values, w1, runtime, services[1..]);
    }
  }

  lemma ContinuedPins(values: Values, w: World, mode: Mode, stopFirst: bool, runtime: string, pull: bool, fate: UpFate)
    requires w.env == Some(values)
    ensures var p := Continued(values, w, mode, stopFirst, runtime, pull, fate);
            RecordedVersion(p.world) == p.values.elasticVersion == values.elasticVersion
  {
    var l := Launched(values, w, stopFirst, runtime, pull, fate);
    assert l.world.env == w.env && l.values == values;
    var q := Secured(l.values, l.world, fate);
    assert RecordedVersion(q.world) == q.values.elasticVersion == values.elasticVersion;
  }

  lemma UpPins(semver: SemVer, b: Binary, values: Values, existing: bool, w: World, runtime: string, requested: Mode,
               level: Option<string>, pull: bool, fate: UpFate)
    requires w.env == Some(values) && values.elasticVersion.Some?
    ensures var p := Up(semver, b, values, existing, w, runtime, requested, level, pull, fate);
            RecordedVersion(p.world) == p.values.elasticVersion == values.elasticVersion
  {
    var mode := ResolveMode(values, existing, requested);
    if mode.Some? {
      var stopFirst := existing && ActiveMode(values, existing) == Full && mode.value == Core;
      var p := Prepared(semver, b, values, w, mode.value, runtime, level, fate);
      if p.ok {
        ContinuedPins(p.values, p.world, mode.value, stopFirst, runtime, pull, fate);
      }
    }
  }

  lemma UpgradePins(semver: SemVer, b: Binary, values: Values, existing: bool, w: World, runtime: string,
                    requested: Mode, level: Option<string>, fate: UpgradeFate, upFate: UpFate)
    requires w.env == Some(values) && values.elasticVersion.Some?
    ensures var p := Upgrade(semver, b, values, existing, w, runtime, requested, level, fate, upFate);
            && (RecordedVersion(p.world) != values.elasticVersion ==>
                  fate.confirmed && RecordedVersion(p.world) == Some(b.elastic))
            && (p.ok ==> RecordedVersion(p.world) == Some(b.elastic))
  {
    var mode := ResolveMode(values, existing, Auto);
    if mode.Some? {
      var upgraded := WithCurrentVersions(values, b);
      var w2 := w.(env := Some(upgraded), compose := Some(ComposeFor(semver, upgraded, mode.value)));
      UpPins(semver, b, upgraded, existing, w2, runtime, mode.value, level, false, upFate);
    }
  }

  /**
   * When the images of an upgrade cannot be pulled, the settings and volumes are as they were, but the compose
   * file is the new one: it suits the restored image exactly when both images take the same setup command.
   */
  lemma FailedPullRestores(semver: SemVer, b: Binary, values: Values, w: World, runtime: string,
                           level: Option<string>, mode: Mode, fate: UpgradeFate, upFate: UpFate)
    requires w.env == Some(values) && ResolveMode(values, true, Auto) == Some(mode)
    requires RecordedIsNewer(semver, values, b) == Some(false) && HasPendingUpgrades(values, b, mode)
    requires Coupled(w, values, true, runtime) && fate.confirmed && fate.running.Some?
    requires fate.writesEnv && fate.writesCompose && !fate.pulls && fate.restores
    requires w.compose == Some(ComposeFor(semver, values, mode))
    ensures var p := Upgrade(semver, b, values, true, w, runtime, Auto, level, fate, upFate);
            && !p.ok && p.values == values
            && p.world == w.(compose := p.world.compose)
            && (p.world.compose == w.compose <==>
                  mode == Full ==>
                    CommandForImage(semver, values.esdiagImage.GetOr(""))
                    == CommandForImage(semver, ESDIAG_IMAGE + b.esdiag))
  {
    var upgraded := WithCurrentVersions(values, b);
    var compose := Some(ComposeFor(semver, upgraded, mode));
    assert w.(env := Some(upgraded)).(compose := compose).(env := Some(values)) == w.(compose := compose);
  }
}
