/** Onboarding: what is configured so far, and when the choice of a diagnostic source may wait. */
module Onboarding {
  import opened Text
  import opened Applications
  import opened Credentials
  import opened Roles
  import opened KnownHosts

  datatype Workflow = CollectOnly | ProcessExisting | CollectAndProcess

  /** The settings of `esdiag.yml` that onboarding decides by. */
  datatype Config = Config(
    user: Option<string>, workflow: Option<Workflow>, deferred: bool, output: Option<string>, job: Option<string>)

  datatype Destination = EnvironmentOutput | HostOutput(name: string) | OtherOutput

  /** A saved job: the host it collects from, and where it sends what it processes. */
  datatype Job = Job(collectsFrom: Option<string>, destination: Option<Destination>)

  /** The files onboarding reads and writes; a keystore file either exists or not. */
  datatype State = State(file: File, config: Config, jobs: map<string, Job>, keystore: bool)

  /** Whether the environment declares an output, and whether that resolves. */
  datatype Environment = Environment(declared: bool, resolves: bool)

  // ----- Readiness -----

  datatype Readiness = Readiness(
    userConfigured: bool,
    keystoreReady: bool,
    workflow: Option<Workflow>,
    outputConfigured: bool,
    outputFromEnvironment: bool,
    outputRequiresKeystore: bool,
    collectHostConfigured: bool,
    defaultJobConfigured: bool,
    collectionDeferred: bool)
  {
    predicate IsComplete() {
      userConfigured &&
      match workflow
      case Some(CollectOnly) => collectHostConfigured && defaultJobConfigured
      case Some(ProcessExisting) => outputConfigured && (outputFromEnvironment || keystoreReady)
      case Some(CollectAndProcess) =>
        keystoreReady && outputConfigured && collectHostConfigured && defaultJobConfigured
      case None => false
    }

    predicate OutputUsable() {
      outputConfigured && (outputFromEnvironment || !outputRequiresKeystore || keystoreReady)
    }

    predicate CanEnterApplication() {
      || IsComplete()
      || (collectionDeferred && userConfigured && !collectHostConfigured &&
          match workflow
          case Some(CollectOnly) => true
          case Some(CollectAndProcess) => OutputUsable()
          case _ => false)
    }
  }

  predicate UserConfigured(config: Config) {
    config.user.Some? && Trim(config.user.value) != ""
  }

  predicate ValidOutputHost(hosts: Registry, host: Host) {
    && host.app == Some(Elasticsearch) && Send in host.roles
    && host.viewer.Some? && host.viewer.value in hosts
    && hosts[host.viewer.value].app == Some(Application.Kibana) && View in hosts[host.viewer.value].roles
  }

  predicate OutputSaved(hosts: Registry, config: Config) {
    config.output.Some? && config.output.value in hosts && ValidOutputHost(hosts, hosts[config.output.value])
  }

  predicate HasCollectHost(hosts: Registry) {
    exists name :: name in hosts && Collect in hosts[name].roles
  }

  predicate JobFits(job: Job, hosts: Registry, config: Config, env: Environment) {
    && job.collectsFrom.Some? && job.collectsFrom.value in hosts && Collect in hosts[job.collectsFrom.value].roles
    && match config.workflow
       case Some(CollectOnly) => job.destination.None?
       case Some(CollectAndProcess) =>
         || (job.destination == Some(EnvironmentOutput) && env.declared && env.resolves)
         || (&& job.destination.Some? && job.destination.value.HostOutput?
             && Some(job.destination.value.name) == config.output)
       case _ => false
  }

  predicate DefaultJobFits(hosts: Registry, s: State, env: Environment) {
    s.config.job.Some? && s.config.job.value in s.jobs && JobFits(s.jobs[s.config.job.value], hosts, s.config, env)
  }

  predicate OutputReferencesSecret(hosts: Registry, config: Config) {
    && config.output.Some? && config.output.value in hosts
    && SecretReference(hosts[config.output.value].credential).Some?
  }

  function ReadinessOf(hosts: Registry, s: State, env: Environment): Readiness {
    var fromEnvironment := env.declared && env.resolves;
    Readiness(
      UserConfigured(s.config),
      s.keystore,
      s.config.workflow,
      if env.declared then fromEnvironment else OutputSaved(hosts, s.config),
      fromEnvironment,
      !env.declared && OutputReferencesSecret(hosts, s.config),
      HasCollectHost(hosts),
      DefaultJobFits(hosts, s, env),
      s.config.deferred)
  }

  /** What is configured; nothing is known when the hosts cannot be read. */
  function Inspect(rules: Rules, s: State, env: Environment): Result<Readiness, Error> {
    match ParseHosts(rules, s.file)
    case Err(e) => Err(e)
    case Ok(hosts) => Ok(ReadinessOf(hosts, s, env))
  }

  // ----- Operations -----

  /** The new state, and whether the operation succeeded. */
  datatype Outcome = Outcome(state: State, ok: bool)

  function Configured(s: State, config: Config, lands: bool): Outcome {
    if lands then Outcome(s.(config := config), true) else Outcome(s, false)
  }

  function SaveUser(s: State, user: string, lands: bool): Outcome {
    if Trim(user) == "" then Outcome(s, false) else Configured(s, s.config.(user := Some(Trim(user))), lands)
  }

  /** Another workflow starts without a deferral. */
  function SaveWorkflow(s: State, workflow: Workflow, lands: bool): Outcome {
    var deferred := s.config.deferred && s.config.workflow == Some(workflow);
    Configured(s, s.config.(workflow := Some(workflow), deferred := deferred), lands)
  }

  predicate MayDefer(r: Readiness) {
    && r.userConfigured
    && (r.workflow == Some(CollectOnly) || (r.workflow == Some(CollectAndProcess) && r.OutputUsable()))
    && !r.collectHostConfigured
  }

  function DeferCollection(rules: Rules, s: State, env: Environment, lands: bool): Outcome {
    match Inspect(rules, s, env)
    case Err(_) => Outcome(s, false)
    case Ok(r) => if MayDefer(r) then Configured(s, s.config.(deferred := true), lands) else Outcome(s, false)
  }

  /** The configuration is only written when there is a deferral to clear. */
  function ClearDeferral(s: State, lands: bool): Outcome {
    if s.config.deferred then Configured(s, s.config.(deferred := false), lands) else Outcome(s, true)
  }

  /** A host of the builder with a concrete URL. */
  function Built(rules: Rules, app: Application, url: Url, roles: seq<Role>, secret: Option<string>,
                 viewer: Option<string>): Result<Host, Error>
  {
    var credential := if secret.Some? then Keystore(secret.value) else NoCredential;
    FromParts(rules, Host(false, Some(app), None, roles, credential, viewer, Some(url), None, None))
  }

  function WithRole(host: Host, role: Role): Host {
    if role in host.roles then host else host.(roles := host.roles + [role])
  }

  /** The hosts file written with `hosts`, if it may be and the write lands. */
  function HostsWritten(rules: Rules, s: State, hosts: Registry, lands: bool): Outcome {
    if Writable(rules, hosts, s.file) && lands then Outcome(s.(file := Written(hosts)), true) else Outcome(s, false)
  }

  datatype OutputInput = OutputInput(
    outputName: string, outputUrl: Url, viewerName: string, viewerUrl: Url, secretId: string)

  /** Which writes of an operation land. */
  datatype Fate = Fate(secretLands: bool, hostsLand: bool, configLands: bool)

  function OutputHosts(rules: Rules, hosts: Registry, input: OutputInput): Registry
    requires Built(rules, Elasticsearch, input.outputUrl, [Send], Some(input.secretId), Some(input.viewerName)).Ok?
    requires Built(rules, Application.Kibana, input.viewerUrl, [View], Some(input.secretId), None).Ok?
  {
    var output := Built(rules, Elasticsearch, input.outputUrl, [Send], Some(input.secretId), Some(input.viewerName));
    var viewer := Built(rules, Application.Kibana, input.viewerUrl, [View], Some(input.secretId), None);
    hosts[input.outputName := output.value][input.viewerName := viewer.value]
  }

  /** The credential is stored first, then the linked hosts, then the choice of output. */
  function SaveOutputDeployment(rules: Rules, s: State, input: OutputInput, fate: Fate): Outcome {
    if Trim(input.outputName) == "" || Trim(input.viewerName) == "" || Trim(input.secretId) == ""
       || input.outputName == input.viewerName || !fate.secretLands then Outcome(s, false)
    else
      var s1 := s.(keystore := true);
      match ParseHosts(rules, s.file)
      case Err(_) => Outcome(s1, false)
      case Ok(hosts) =>
        var written := HostsWritten(rules, s1, OutputHosts(rules, hosts, input), fate.hostsLand);
        if !written.ok then Outcome(s1, false)
        else Configured(written.state, s.config.(output := Some(input.outputName)), fate.configLands)
  }

  /** The credential parts of a collection host; storing one makes a keystore. */
  datatype CollectInput = CollectInput(
    name: string, app: Application, url: Url, secretId: Option<string>, hasAuth: bool)

  predicate CredentialGiven(input: CollectInput, unlocked: bool) {
    !input.hasAuth || (input.secretId.Some? && unlocked)
  }

  function CredentialStored(s: State, input: CollectInput): State {
    if input.hasAuth then s.(keystore := true) else s
  }

  /** The hosts are written before the deferral is cleared. */
  function CollectHostWritten(rules: Rules, s: State, hosts: Registry, fate: Fate): Outcome {
    var written := HostsWritten(rules, s, hosts, fate.hostsLand);
    if !written.ok then written else ClearDeferral(written.state, fate.configLands)
  }

  function BuiltCollectHost(rules: Rules, input: CollectInput): (r: Result<Host, Error>)
    ensures r.Ok?
  {
    Built(rules, input.app, input.url, [Collect], input.secretId, None)
  }

  /** A host that is there already only gains the role. */
  function SaveCollectHost(rules: Rules, s: State, input: CollectInput, unlocked: bool, fate: Fate): Outcome {
    if Trim(input.name) == "" then Outcome(s, false)
    else
      match ParseHosts(rules, s.file)
      case Err(_) => Outcome(s, false)
      case Ok(hosts) =>
        if input.name in hosts then
          CollectHostWritten(rules, s, hosts[input.name := WithRole(hosts[input.name], Collect)], fate)
        else if !CredentialGiven(input, unlocked) || (input.hasAuth && !fate.secretLands) then Outcome(s, false)
        else
          var host := BuiltCollectHost(rules, input).value;
          CollectHostWritten(rules, CredentialStored(s, input), hosts[input.name := host], fate)
  }

  function ReplaceCollectHost(rules: Rules, s: State, input: CollectInput, unlocked: bool, fate: Fate): Outcome {
    if Trim(input.name) == "" || !CredentialGiven(input, unlocked) || (input.hasAuth && !fate.secretLands) then
      Outcome(s, false)
    else
      var s1 := CredentialStored(s, input);
      match ParseHosts(rules, s.file)
      case Err(_) => Outcome(s1, false)
      case Ok(hosts) =>
        CollectHostWritten(rules, s1, hosts[input.name := BuiltCollectHost(rules, input).value], fate)
  }

  predicate ReferencesValid(hosts: Registry, config: Config, jobs: map<string, Job>) {
    && (config.output.Some? ==> OutputSaved(hosts, config))
    && (config.job.Some? ==> config.job.value in jobs)
  }

  function SaveDefaultJob(rules: Rules, s: State, name: string, job: Job, jobsLand: bool, configLands: bool): Outcome {
    if Trim(name) == "" || !jobsLand then Outcome(s, false)
    else
      var s1 := s.(jobs := s.jobs[name := job]);
      var config := s.config.(job := Some(name));
      match ParseHosts(rules, s.file)
      case Err(_) => Outcome(s1, false)
      case Ok(hosts) =>
        if !ReferencesValid(hosts, config, s1.jobs) then Outcome(s1, false) else Configured(s1, config, configLands)
  }

  function SaveDefaultProcessingJob(rules: Rules, s: State, env: Environment, name: string, collectHost: string,
                                    jobsLand: bool, configLands: bool): Outcome
  {
    match ParseHosts(rules, s.file)
    case Err(_) => Outcome(s, false)
    case Ok(hosts) =>
      if Trim(name) == "" || collectHost !in hosts || Collect !in hosts[collectHost].roles
         || (!env.declared && s.config.output.None?) then Outcome(s, false)
      else
        var destination := if env.declared then EnvironmentOutput else HostOutput(s.config.output.value);
        SaveDefaultJob(rules, s, name, Job(Some(collectHost), Some(destination)), jobsLand, configLands)
  }

  // ----- Runs -----

  datatype Step =
    | StepUser(user: string, lands: bool)
    | StepWorkflow(workflow: Workflow, lands: bool)
    | StepDefer(env: Environment, lands: bool)
    | StepOutput(output: OutputInput, fate: Fate)
    | StepCollect(collect: CollectInput, unlocked: bool, replace: bool, fate: Fate)
    | StepClear(lands: bool)
    | StepJob(name: string, job: Job, jobsLand: bool, lands: bool)
    | StepProcessingJob(env: Environment, name: string, collectHost: string, jobsLand: bool, lands: bool)

  function Next(rules: Rules, s: State, step: Step): Outcome {
    match step
    case StepUser(user, lands) => SaveUser(s, user, lands)
    case StepWorkflow(workflow, lands) => SaveWorkflow(s, workflow, lands)
    case StepDefer(env, lands) => DeferCollection(rules, s, env, lands)
    case StepOutput(input, fate) => SaveOutputDeployment(rules, s, input, fate)
    case StepCollect(input, unlocked, replace, fate) =>
      if replace then ReplaceCollectHost(rules, s, input, unlocked, fate)
      else SaveCollectHost(rules, s, input, unlocked, fate)
    case StepClear(lands) => ClearDeferral(s, lands)
    case StepJob(name, job, jobsLand, lands) => SaveDefaultJob(rules, s, name, job, jobsLand, lands)
    case StepProcessingJob(env, name, host, jobsLand, lands) =>
      SaveDefaultProcessingJob(rules, s, env, name, host, jobsLand, lands)
  }

  function Run(rules: Rules, s: State, steps: seq<Step>): State
    decreases |steps|
  {
    if steps == [] then s else Run(rules, Next(rules, s, steps[0]).state, steps[1..])
  }

  // ----- What every run keeps -----

  predicate NoCollectHost(rules: Rules, file: File) {
    ParseHosts(rules, file).Ok? && !HasCollectHost(ParseHosts(rules, file).value)
  }

  /** A deferral means a configured user, a workflow that collects, and nothing to collect from. */
  predicate DeferralHolds(rules: Rules, s: State) {
    s.config.deferred ==>
      && UserConfigured(s.config)
      && (s.config.workflow == Some(CollectOnly) || s.config.workflow == Some(CollectAndProcess))
      && NoCollectHost(rules, s.file)
  }

  /** What of a host other files rely on. */
  predicate SameRoles(a: Host, b: Host) {
    && a.app == b.app && a.viewer == b.viewer
    && forall role :: role in a.roles <==> role in b.roles
  }

  predicate AllSameRoles(a: Registry, b: Registry) {
    a.Keys == b.Keys && forall name :: name in a ==> SameRoles(a[name], b[name])
  }

  predicate AllHaveRoles(hosts: Registry) {
    forall name :: name in hosts ==> hosts[name].roles != []
  }

  lemma PreparedKeepsRoles(hosts: Registry)
    requires AllPrepared(hosts) && AllHaveRoles(hosts)
    ensures AllSameRoles(Detached(PreparedHosts(hosts)), hosts)
  {
    forall name | name in hosts
      ensures SameRoles(Detached(PreparedHosts(hosts))[name], hosts[name])
    {
      PreparedExactly(name, hosts[name]);
      NormalizedExactly(hosts[name].roles, Normalized(hosts[name].roles));
    }
    assert Detached(PreparedHosts(hosts)).Keys == hosts.Keys;
  }

  /** What is read after a write has the names, applications, viewers and roles that were written. */
  lemma WrittenIsReadBack(rules: Rules, hosts: Registry, file: File)
    requires Writable(rules, hosts, file) && AllCanonical(rules, hosts) && AllHaveRoles(hosts)
    ensures ParseHosts(rules, Written(hosts)).Ok?
    ensures AllSameRoles(ParseHosts(rules, Written(hosts)).value, hosts)
  {
    RoundTripsExactly(rules, hosts, file);
    PreparedKeepsRoles(hosts);
  }

  lemma SameCollectHosts(a: Registry, b: Registry)
    requires AllSameRoles(a, b)
    ensures HasCollectHost(a) <==> HasCollectHost(b)
  {
    if HasCollectHost(a) {
      var name :| name in a && Collect in a[name].roles;
      assert SameRoles(a[name], b[name]) && name in b;
    }
    if HasCollectHost(b) {
      var name :| name in b && Collect in b[name].roles;
      assert name in a && SameRoles(a[name], b[name]);
    }
  }

  lemma ParsedHaveRoles(rules: Rules, file: File)
    requires ParseHosts(rules, file).Ok?
    ensures AllHaveRoles(ParseHosts(rules, file).value)
  {
    if file.Entries? {
      forall name | name in file.wires
        ensures ReadHost(rules, file.wires[name]).value.roles != []
      {
        AlreadyNormalExactly(FromWire(rules, file.wires[name]).value.roles);
      }
    }
  }

  lemma BuiltIsCanonical(rules: Rules, app: Application, url: Url, roles: seq<Role>, secret: Option<string>,
                         viewer: Option<string>)
    ensures var built := Built(rules, app, url, roles, secret, viewer);
            && built.Ok? && Canonical(rules, built.value)
            && built.value.app == Some(app) && built.value.roles == roles && built.value.viewer == viewer
  {
    var credential := if secret.Some? then Keystore(secret.value) else NoCredential;
    FromPartsIsCanonical(rules, Host(false, Some(app), None, roles, credential, viewer, Some(url), None, None));
  }

  // ----- Saving an output keeps the deferral -----

  lemma OutputHostsAre(rules: Rules, hosts: Registry, input: OutputInput)
    requires AllCanonical(rules, hosts) && AllHaveRoles(hosts) && input.outputName != input.viewerName
    ensures Built(rules, Elasticsearch, input.outputUrl, [Send], Some(input.secretId), Some(input.viewerName)).Ok?
    ensures Built(rules, Application.Kibana, input.viewerUrl, [View], Some(input.secretId), None).Ok?
    ensures var after := OutputHosts(rules, hosts, input);
            && AllCanonical(rules, after) && AllHaveRoles(after)
            && after.Keys == hosts.Keys + {input.outputName, input.viewerName}
            && (forall name :: name in hosts && name != input.outputName && name != input.viewerName ==>
                  after[name] == hosts[name])
            && after[input.outputName].app == Some(Elasticsearch) && after[input.outputName].roles == [Send]
            && after[input.outputName].viewer == Some(input.viewerName)
            && after[input.viewerName].app == Some(Application.Kibana) && after[input.viewerName].roles == [View]
  {
    BuiltIsCanonical(rules, Elasticsearch, input.outputUrl, [Send], Some(input.secretId), Some(input.viewerName));
    BuiltIsCanonical(rules, Application.Kibana, input.viewerUrl, [View], Some(input.secretId), None);
  }

  lemma NoCollectAfterOutput(rules: Rules, s: State, input: OutputInput)
    requires NoCollectHost(rules, s.file) && input.outputName != input.viewerName
    ensures Built(rules, Elasticsearch, input.outputUrl, [Send], Some(input.secretId), Some(input.viewerName)).Ok?
    ensures Built(rules, Application.Kibana, input.viewerUrl, [View], Some(input.secretId), None).Ok?
    ensures var after := OutputHosts(rules, ParseHosts(rules, s.file).value, input);
            Writable(rules, after, s.file) ==> NoCollectHost(rules, Written(after))
  {
    var hosts := ParseHosts(rules, s.file).value;
    ParsedIsCanonical(rules, s.file);
    ParsedHaveRoles(rules, s.file);
    OutputHostsAre(rules, hosts, input);
    var after := OutputHosts(rules, hosts, input);
    if Writable(rules, after, s.file) {
      WrittenIsReadBack(rules, after, s.file);
      SameCollectHosts(ParseHosts(rules, Written(after)).value, after);
      NoCollectInOutput(hosts, after, input);
    }
  }

  lemma NoCollectInOutput(hosts: Registry, after: Registry, input: OutputInput)
    requires !HasCollectHost(hosts)
    requires after.Keys == hosts.Keys + {input.outputName, input.viewerName}
    requires forall name :: name in hosts && name != input.outputName && name != input.viewerName ==>
               after[name] == hosts[name]
    requires after[input.outputName].roles == [Send] && after[input.viewerName].roles == [View]
    ensures !HasCollectHost(after)
  {
  }

  lemma OutputKeeps(rules: Rules, s: State, input: OutputInput, fate: Fate)
    requires DeferralHolds(rules, s)
    ensures DeferralHolds(rules, SaveOutputDeployment(rules, s, input, fate).state)
  {
    if s.config.deferred && input.outputName != input.viewerName {
      NoCollectAfterOutput(rules, s, input);
    }
  }

  // ----- Saving a collection host ends it -----

  /** The hosts with one of them changed or added. */
  lemma WithHost(rules: Rules, file: File, name: string, host: Host)
    requires ParseHosts(rules, file).Ok? && Canonical(rules, host) && host.roles != []
    ensures var after := ParseHosts(rules, file).value[name := host];
            && AllHaveRoles(after) && AllCanonical(rules, after)
            && (Writable(rules, after, file) ==>
                  && ParseHosts(rules, Written(after)).Ok?
                  && AllSameRoles(ParseHosts(rules, Written(after)).value, after))
  {
    ParsedIsCanonical(rules, file);
    ParsedHaveRoles(rules, file);
    var after := ParseHosts(rules, file).value[name := host];
    if Writable(rules, after, file) {
      WrittenIsReadBack(rules, after, file);
    }
  }

  lemma WithRoleIsCanonical(rules: Rules, host: Host, role: Role)
    requires Canonical(rules, host)
    ensures Canonical(rules, WithRole(host, role))
    ensures forall r :: r in WithRole(host, role).roles <==> r in host.roles || r == role
  {
    assert FromParts(rules, WithRole(host, role)).value
        == FromParts(rules, host).value.(roles := WithRole(host, role).roles);
  }

  lemma CollectHostIsSaved(rules: Rules, s: State, name: string, host: Host, fate: Fate)
    requires ParseHosts(rules, s.file).Ok? && Canonical(rules, host) && Collect in host.roles
    ensures var hosts := ParseHosts(rules, s.file).value[name := host];
            var out := CollectHostWritten(rules, s, hosts, fate);
            && (DeferralHolds(rules, s) ==>
                  (DeferralHolds(rules, out.state) <==>
                     (s.config.deferred && Writable(rules, hosts, s.file) && fate.hostsLand ==> fate.configLands)))
            && (out.ok ==>
                  && !out.state.config.deferred
                  && ParseHosts(rules, out.state.file).Ok?
                  && AllSameRoles(ParseHosts(rules, out.state.file).value, hosts))
  {
    var hosts := ParseHosts(rules, s.file).value[name := host];
    WithHost(rules, s.file, name, host);
    if Writable(rules, hosts, s.file) {
      var read := ParseHosts(rules, Written(hosts)).value;
      assert SameRoles(read[name], hosts[name]);
      assert HasCollectHost(read);
    }
  }

  /** The hosts that saving or replacing a collection host writes. */
  function CollectHosts(rules: Rules, hosts: Registry, input: CollectInput, replace: bool): Registry {
    hosts[input.name := if !replace && input.name in hosts then WithRole(hosts[input.name], Collect)
                        else BuiltCollectHost(rules, input).value]
  }

  /** Whether the operation gets as far as writing the hosts, from its input and the files as they are. */
  predicate WritesCollectHost(rules: Rules, s: State, hosts: Registry, input: CollectInput, unlocked: bool,
                              replace: bool, fate: Fate)
  {
    && Trim(input.name) != ""
    && ((!replace && input.name in hosts) || (CredentialGiven(input, unlocked) && (input.hasAuth ==> fate.secretLands)))
    && Writable(rules, CollectHosts(rules, hosts, input, replace), s.file) && fate.hostsLand
  }

  /** It does not happen that the hosts are written and clearing a deferral then fails. */
  predicate LeavesNoDeferral(rules: Rules, s: State, input: CollectInput, unlocked: bool, replace: bool, fate: Fate)
    requires ParseHosts(rules, s.file).Ok?
  {
    var hosts := ParseHosts(rules, s.file).value;
    s.config.deferred && WritesCollectHost(rules, s, hosts, input, unlocked, replace, fate) ==> fate.configLands
  }

  lemma ReplaceKeepsExactly(rules: Rules, s: State, input: CollectInput, unlocked: bool, fate: Fate)
    requires DeferralHolds(rules, s) && ParseHosts(rules, s.file).Ok?
    ensures DeferralHolds(rules, ReplaceCollectHost(rules, s, input, unlocked, fate).state) <==>
              LeavesNoDeferral(rules, s, input, unlocked, true, fate)
  {
    BuiltIsCanonical(rules, input.app, input.url, [Collect], input.secretId, None);
    CollectHostIsSaved(rules, CredentialStored(s, input), input.name, BuiltCollectHost(rules, input).value, fate);
  }

  lemma ExistingKeepsExactly(rules: Rules, s: State, input: CollectInput, unlocked: bool, fate: Fate)
    requires DeferralHolds(rules, s) && ParseHosts(rules, s.file).Ok? && input.name in ParseHosts(rules, s.file).value
    ensures DeferralHolds(rules, SaveCollectHost(rules, s, input, unlocked, fate).state) <==>
              LeavesNoDeferral(rules, s, input, unlocked, false, fate)
  {
    var host := ParseHosts(rules, s.file).value[input.name];
    ParsedIsCanonical(rules, s.file);
    WithRoleIsCanonical(rules, host, Collect);
    CollectHostIsSaved(rules, s, input.name, WithRole(host, Collect), fate);
  }

  lemma AddedKeepsExactly(rules: Rules, s: State, input: CollectInput, unlocked: bool, fate: Fate)
    requires DeferralHolds(rules, s) && ParseHosts(rules, s.file).Ok? && input.name !in ParseHosts(rules, s.file).value
    ensures DeferralHolds(rules, SaveCollectHost(rules, s, input, unlocked, fate).state) <==>
              LeavesNoDeferral(rules, s, input, unlocked, false, fate)
  {
    BuiltIsCanonical(rules, input.app, input.url, [Collect], input.secretId, None);
    CollectHostIsSaved(rules, CredentialStored(s, input), input.name, BuiltCollectHost(rules, input).value, fate);
  }

  /**
   * Saving or replacing a collection host keeps a deferral honest exactly unless the host is named, its credential
   * given and stored, the hosts writable and written, and only then the clearing of the deferral fails.
   */
  lemma CollectKeepsExactly(rules: Rules, s: State, input: CollectInput, unlocked: bool, replace: bool, fate: Fate)
    requires DeferralHolds(rules, s) && ParseHosts(rules, s.file).Ok?
    ensures DeferralHolds(rules, if replace then ReplaceCollectHost(rules, s, input, unlocked, fate).state
                                 else SaveCollectHost(rules, s, input, unlocked, fate).state) <==>
              LeavesNoDeferral(rules, s, input, unlocked, replace, fate)
  {
    if replace {
      ReplaceKeepsExactly(rules, s, input, unlocked, fate);
    } else if input.name in ParseHosts(rules, s.file).value {
      ExistingKeepsExactly(rules, s, input, unlocked, fate);
    } else {
      AddedKeepsExactly(rules, s, input, unlocked, fate);
    }
  }

  /** No operation is interrupted between writing a collection host and clearing the deferral. */
  predicate Whole(step: Step) {
    step.StepCollect? && step.fate.hostsLand ==> step.fate.configLands
  }

  lemma NextKeeps(rules: Rules, s: State, step: Step)
    requires DeferralHolds(rules, s) && Whole(step)
    ensures DeferralHolds(rules, Next(rules, s, step).state)
  {
    match step
    case StepUser(user, lands) =>
      TrimTwice(user);
    case StepOutput(input, fate) => OutputKeeps(rules, s, input, fate);
    case StepCollect(input, unlocked, replace, fate) =>
      if ParseHosts(rules, s.file).Ok? {
        CollectKeepsExactly(rules, s, input, unlocked, replace, fate);
      }
    case _ =>
  }

  /** Over every run of whole operations a deferral is honest. */
  lemma {:induction false} RunKeeps(rules: Rules, s: State, steps: seq<Step>)
    requires DeferralHolds(rules, s) && forall k :: 0 <= k < |steps| ==> Whole(steps[k])
    ensures DeferralHolds(rules, Run(rules, s, steps))
    decreases |steps|
  {
    if steps != [] {
      NextKeeps(rules, s, steps[0]);
      RunKeeps(rules, Next(rules, s, steps[0]).state, steps[1..]);
    }
  }

  const NEW_STATE := State(Missing, Config(None, None, false, None, None), map[], false)

  /** So from a new installation no state is ever both deferred and complete. */
  lemma NeverDeferredAndComplete(rules: Rules, steps: seq<Step>, env: Environment)
    requires forall k :: 0 <= k < |steps| ==> Whole(steps[k])
    ensures var r := Inspect(rules, Run(rules, NEW_STATE, steps), env);
            r.Ok? && r.value.collectionDeferred ==> !r.value.IsComplete()
  {
    RunKeeps(rules, NEW_STATE, steps);
  }

  /** A deferral is granted exactly when it, and nothing but it, lets the user into the application. */
  lemma DeferralLetsInExactly(r: Readiness)
    ensures MayDefer(r) <==>
              var deferred := r.(collectionDeferred := true);
              deferred.CanEnterApplication() && !deferred.IsComplete()
  {
  }
}
