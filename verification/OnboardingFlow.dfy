/** The whole of onboarding: following its steps ends with nothing left to configure. */
module OnboardingFlow {
  import opened Text
  import opened Applications
  import opened Roles
  import opened KnownHosts
  import opened Onboarding
  import Credentials

  /** The output stays valid wherever its two hosts keep what they had. */
  lemma OutputStaysSaved(before: Registry, after: Registry, config: Config)
    requires OutputSaved(before, config)
    requires forall name :: name in before ==>
               && name in after && after[name].app == before[name].app && after[name].viewer == before[name].viewer
               && forall role :: role in before[name].roles ==> role in after[name].roles
    ensures OutputSaved(after, config)
  {
  }

  lemma OutputIsSaved(rules: Rules, s: State, input: OutputInput, fate: Fate)
    requires SaveOutputDeployment(rules, s, input, fate).ok
    ensures var out := SaveOutputDeployment(rules, s, input, fate).state;
            && out.config == s.config.(output := Some(input.outputName)) && out.keystore && out.jobs == s.jobs
            && ParseHosts(rules, out.file).Ok? && OutputSaved(ParseHosts(rules, out.file).value, out.config)
  {
    var hosts := ParseHosts(rules, s.file).value;
    ParsedIsCanonical(rules, s.file);
    ParsedHaveRoles(rules, s.file);
    OutputHostsAre(rules, hosts, input);
    var after := OutputHosts(rules, hosts, input);
    WrittenIsReadBack(rules, after, s.file);
    var read := ParseHosts(rules, Written(after)).value;
    LinkedOutput(after, read, input);
  }

  lemma LinkedOutput(after: Registry, read: Registry, input: OutputInput)
    requires AllSameRoles(read, after)
    requires input.outputName in after && input.viewerName in after
    requires after[input.outputName].app == Some(Elasticsearch) && after[input.outputName].roles == [Send]
    requires after[input.outputName].viewer == Some(input.viewerName)
    requires after[input.viewerName].app == Some(Application.Kibana) && after[input.viewerName].roles == [View]
    ensures ValidOutputHost(read, read[input.outputName])
  {
    assert SameRoles(read[input.outputName], after[input.outputName]);
    assert SameRoles(read[input.viewerName], after[input.viewerName]);
  }

  /** What saving a collection host leaves of everything else. */
  predicate CollectSaved(rules: Rules, s: State, out: State, name: string) {
    && ParseHosts(rules, s.file).Ok? && ParseHosts(rules, out.file).Ok?
    && var hosts := ParseHosts(rules, out.file).value;
       && name in hosts && Collect in hosts[name].roles
       && out.config == s.config.(deferred := false) && out.jobs == s.jobs && (s.keystore ==> out.keystore)
       && (OutputSaved(ParseHosts(rules, s.file).value, s.config) ==> OutputSaved(hosts, out.config))
  }

  lemma CollectIsSavedAs(rules: Rules, s: State, s1: State, name: string, host: Host, fate: Fate)
    requires ParseHosts(rules, s.file).Ok? && Canonical(rules, host) && Collect in host.roles
    requires s1.file == s.file && s1.config == s.config && s1.jobs == s.jobs && (s.keystore ==> s1.keystore)
    requires name in ParseHosts(rules, s.file).value ==>
               host == WithRole(ParseHosts(rules, s.file).value[name], Collect)
    requires CollectHostWritten(rules, s1, ParseHosts(rules, s.file).value[name := host], fate).ok
    ensures var hosts := ParseHosts(rules, s.file).value[name := host];
            CollectSaved(rules, s, CollectHostWritten(rules, s1, hosts, fate).state, name)
  {
    var before := ParseHosts(rules, s.file).value;
    CollectHostIsSaved(rules, s1, name, host, fate);
    ReadAfterCollect(before, ParseHosts(rules, Written(before[name := host])).value, name, host, s.config);
  }

  lemma ReadAfterCollect(before: Registry, read: Registry, name: string, host: Host, config: Config)
    requires AllSameRoles(read, before[name := host]) && Collect in host.roles
    requires name in before ==> host == WithRole(before[name], Collect)
    ensures name in read && Collect in read[name].roles
    ensures OutputSaved(before, config) ==> OutputSaved(read, config)
  {
    var hosts := before[name := host];
    assert SameRoles(read[name], hosts[name]);
    if OutputSaved(before, config) {
      forall other | other in before
        ensures other in read && read[other].app == before[other].app && read[other].viewer == before[other].viewer
        ensures forall role :: role in before[other].roles ==> role in read[other].roles
      {
        assert SameRoles(read[other], hosts[other]);
      }
      OutputStaysSaved(before, read, config);
    }
  }

  lemma CollectIsSaved(rules: Rules, s: State, input: CollectInput, unlocked: bool, fate: Fate)
    requires SaveCollectHost(rules, s, input, unlocked, fate).ok
    ensures CollectSaved(rules, s, SaveCollectHost(rules, s, input, unlocked, fate).state, input.name)
  {
    var hosts := ParseHosts(rules, s.file).value;
    if input.name in hosts {
      ParsedIsCanonical(rules, s.file);
      WithRoleIsCanonical(rules, hosts[input.name], Collect);
      CollectIsSavedAs(rules, s, s, input.name, WithRole(hosts[input.name], Collect), fate);
    } else {
      BuiltIsCanonical(rules, input.app, input.url, [Collect], input.secretId, None);
      CollectIsSavedAs(rules, s, CredentialStored(s, input), input.name, BuiltCollectHost(rules, input).value, fate);
    }
  }

  // ----- The flow -----

  /** The answers given to the steps of collecting and processing. */
  datatype Answers = Answers(
    user: string, output: OutputInput, outputFate: Fate, collect: CollectInput, unlocked: bool, collectFate: Fate,
    jobName: string)

  function AfterChoices(s: State, answers: Answers): Outcome {
    SaveWorkflow(SaveUser(s, answers.user, true).state, CollectAndProcess, true)
  }

  function AfterOutput(rules: Rules, s: State, answers: Answers): Outcome {
    SaveOutputDeployment(rules, AfterChoices(s, answers).state, answers.output, answers.outputFate)
  }

  function AfterCollect(rules: Rules, s: State, answers: Answers): Outcome {
    SaveCollectHost(rules, AfterOutput(rules, s, answers).state, answers.collect, answers.unlocked, answers.collectFate)
  }

  function AfterJob(rules: Rules, s: State, answers: Answers, env: Environment): Outcome {
    SaveDefaultProcessingJob(rules, AfterCollect(rules, s, answers).state, env, answers.jobName, answers.collect.name,
                             true, true)
  }

  lemma ChoicesAreSaved(s: State, answers: Answers)
    requires Trim(answers.user) != ""
    ensures var out := AfterChoices(s, answers).state;
            && UserConfigured(out.config) && out.config.workflow == Some(CollectAndProcess) && out.file == s.file
  {
    TrimTwice(answers.user);
  }

  function ProcessingJob(config: Config, env: Environment, collectHost: string): Job
    requires env.declared || config.output.Some?
  {
    Job(Some(collectHost), Some(if env.declared then EnvironmentOutput else HostOutput(config.output.value)))
  }

  function WithJob(s: State, name: string, job: Job): State {
    s.(jobs := s.jobs[name := job], config := s.config.(job := Some(name)))
  }

  lemma ProcessingJobIsSaved(rules: Rules, s: State, env: Environment, name: string, collectHost: string)
    requires SaveDefaultProcessingJob(rules, s, env, name, collectHost, true, true).ok
    ensures ParseHosts(rules, s.file).Ok?
    ensures var hosts := ParseHosts(rules, s.file).value;
            && collectHost in hosts && Collect in hosts[collectHost].roles
            && (env.declared || s.config.output.Some?)
    ensures SaveDefaultProcessingJob(rules, s, env, name, collectHost, true, true).state
         == WithJob(s, name, ProcessingJob(s.config, env, collectHost))
  {
  }

  lemma JobIsSaved(rules: Rules, s: State, env: Environment, name: string, collectHost: string)
    requires SaveDefaultProcessingJob(rules, s, env, name, collectHost, true, true).ok
    requires UserConfigured(s.config) && s.config.workflow == Some(CollectAndProcess) && !s.config.deferred
    requires ParseHosts(rules, s.file).Ok?
    requires s.keystore && OutputSaved(ParseHosts(rules, s.file).value, s.config)
    ensures var r := Inspect(rules, SaveDefaultProcessingJob(rules, s, env, name, collectHost, true, true).state, env);
            && r.Ok? && !r.value.collectionDeferred
            && (r.value.IsComplete() <==> !env.declared || env.resolves)
  {
    ProcessingJobIsSaved(rules, s, env, name, collectHost);
    ReadyAfterJob(s, env, name, collectHost, ParseHosts(rules, s.file).value);
  }

  lemma ReadyAfterJob(s: State, env: Environment, name: string, collectHost: string, hosts: Registry)
    requires UserConfigured(s.config) && s.config.workflow == Some(CollectAndProcess) && !s.config.deferred
    requires s.keystore && OutputSaved(hosts, s.config)
    requires collectHost in hosts && Collect in hosts[collectHost].roles
    ensures var r := ReadinessOf(hosts, WithJob(s, name, ProcessingJob(s.config, env, collectHost)), env);
            !r.collectionDeferred && (r.IsComplete() <==> !env.declared || env.resolves)
  {
    var job := ProcessingJob(s.config, env, collectHost);
    var config := WithJob(s, name, job).config;
    assert HasCollectHost(hosts);
    assert OutputSaved(hosts, config);
    assert JobFits(job, hosts, config, env) <==> !env.declared || env.resolves;
  }

  /**
   * From any state, and with any names, when each step reports success the readiness is complete, exactly
   * unless the environment declares an output that does not resolve; and no deferral is left.
   */
  lemma FlowCompletesExactly(rules: Rules, s: State, answers: Answers, env: Environment)
    requires Trim(answers.user) != "" && AfterOutput(rules, s, answers).ok
    requires AfterCollect(rules, s, answers).ok && AfterJob(rules, s, answers, env).ok
    ensures var r := Inspect(rules, AfterJob(rules, s, answers, env).state, env);
            && r.Ok? && !r.value.collectionDeferred
            && (r.value.IsComplete() <==> !env.declared || env.resolves)
  {
    ChoicesAreSaved(s, answers);
    var s1 := AfterChoices(s, answers).state;
    OutputIsSaved(rules, s1, answers.output, answers.outputFate);
    var s2 := AfterOutput(rules, s, answers).state;
    CollectIsSaved(rules, s2, answers.collect, answers.unlocked, answers.collectFate);
    var s3 := AfterCollect(rules, s, answers).state;
    JobIsSaved(rules, s3, env, answers.jobName, answers.collect.name);
  }

  // ----- What completes onboarding, in terms of the files -----

  /** The chosen output is a host that receives data, and its viewer is a Kibana that shows it. */
  predicate OutputLinked(hosts: Registry, output: Option<string>) {
    && output.Some? && output.value in hosts
    && var host := hosts[output.value];
       && host.app == Some(Elasticsearch) && Send in host.roles
       && host.viewer.Some? && host.viewer.value in hosts
       && hosts[host.viewer.value].app == Some(Application.Kibana) && View in hosts[host.viewer.value].roles
  }

  /** An output that the environment declares counts alone. */
  predicate OutputThere(hosts: Registry, s: State, env: Environment) {
    if env.declared then env.resolves else OutputLinked(hosts, s.config.output)
  }

  /** The default job is saved, and collects from a host that may be collected from. */
  predicate JobCollects(hosts: Registry, s: State) {
    && s.config.job.Some? && s.config.job.value in s.jobs
    && s.jobs[s.config.job.value].collectsFrom.Some?
    && s.jobs[s.config.job.value].collectsFrom.value in hosts
    && Collect in hosts[s.jobs[s.config.job.value].collectsFrom.value].roles
  }

  /** Where it sends what it collects: nowhere, or to the output in force. */
  predicate JobSends(s: State, env: Environment)
    requires s.config.job.Some? && s.config.job.value in s.jobs
  {
    match s.jobs[s.config.job.value].destination
    case None => s.config.workflow == Some(CollectOnly)
    case Some(EnvironmentOutput) => s.config.workflow == Some(CollectAndProcess) && env.declared && env.resolves
    case Some(HostOutput(name)) => s.config.workflow == Some(CollectAndProcess) && s.config.output == Some(name)
    case Some(OtherOutput) => false
  }

  /**
   * Complete, as far as the hosts that were read can tell: a user and, to collect only, a job that collects and sends
   * nothing; to process, an output, with a keystore unless the environment gives it; to do both, a keystore, an output,
   * and a job that collects and sends to it.
   */
  predicate Completed(hosts: Registry, s: State, env: Environment) {
    && s.config.user.Some? && Trim(s.config.user.value) != ""
    && match s.config.workflow
       case None => false
       case Some(CollectOnly) => JobCollects(hosts, s) && JobSends(s, env)
       case Some(ProcessExisting) => OutputThere(hosts, s, env) && (env.declared || s.keystore)
       case Some(CollectAndProcess) =>
         s.keystore && OutputThere(hosts, s, env) && JobCollects(hosts, s) && JobSends(s, env)
  }

  lemma JobExactly(hosts: Registry, s: State, env: Environment)
    ensures DefaultJobFits(hosts, s, env) <==> JobCollects(hosts, s) && JobSends(s, env)
    ensures JobCollects(hosts, s) ==> HasCollectHost(hosts)
  {
    if JobCollects(hosts, s) {
      var job := s.jobs[s.config.job.value];
      if job.destination.Some? {
        match job.destination.value
        case EnvironmentOutput =>
        case HostOutput(_) =>
        case OtherOutput =>
      }
    }
  }

  lemma OutputExactly(hosts: Registry, s: State, env: Environment)
    ensures ReadinessOf(hosts, s, env).outputConfigured <==> OutputThere(hosts, s, env)
    ensures ReadinessOf(hosts, s, env).outputFromEnvironment <==> env.declared && env.resolves
    ensures ReadinessOf(hosts, s, env).outputRequiresKeystore <==>
              && !env.declared && s.config.output.Some? && s.config.output.value in hosts
              && Credentials.SecretReference(hosts[s.config.output.value].credential).Some?
  {
  }

  lemma ReadyExactly(hosts: Registry, s: State, env: Environment)
    ensures ReadinessOf(hosts, s, env).IsComplete() <==> Completed(hosts, s, env)
  {
    JobExactly(hosts, s, env);
    OutputExactly(hosts, s, env);
  }

  lemma CompleteExactly(rules: Rules, s: State, env: Environment)
    ensures var r := Inspect(rules, s, env);
            r.Ok? && r.value.IsComplete() <==>
              ParseHosts(rules, s.file).Ok? && Completed(ParseHosts(rules, s.file).value, s, env)
  {
    if ParseHosts(rules, s.file).Ok? {
      ReadyExactly(ParseHosts(rules, s.file).value, s, env);
    }
  }

  /** Before that, a deferral lets the user in who has nothing to collect from, and, to process, a usable output. */
  lemma EntersExactly(rules: Rules, s: State, env: Environment)
    requires ParseHosts(rules, s.file).Ok?
    ensures var hosts, r := ParseHosts(rules, s.file).value, Inspect(rules, s, env);
            && r.Ok?
            && (r.value.CanEnterApplication() <==>
                  || r.value.IsComplete()
                  || (&& s.config.deferred && s.config.user.Some? && Trim(s.config.user.value) != ""
                      && (forall name :: name in hosts ==> Collect !in hosts[name].roles)
                      && match s.config.workflow
                         case Some(CollectOnly) => true
                         case Some(CollectAndProcess) =>
                           && OutputThere(hosts, s, env)
                           && (|| env.declared || s.keystore
                               || Credentials.SecretReference(hosts[s.config.output.value].credential).None?)
                         case _ => false))
  {
  }

  // ----- The other two workflows -----

  /** Collecting only: a user, a host and a job that sends nothing. */
  function AfterCollectOnly(rules: Rules, s: State, answers: Answers): Outcome {
    SaveCollectHost(rules, SaveWorkflow(SaveUser(s, answers.user, true).state, CollectOnly, true).state,
                    answers.collect, answers.unlocked, answers.collectFate)
  }

  function AfterCollectJob(rules: Rules, s: State, answers: Answers): Outcome {
    SaveDefaultJob(rules, AfterCollectOnly(rules, s, answers).state, answers.jobName,
                   Job(Some(answers.collect.name), None), true, true)
  }

  lemma CollectOnlyCompletes(rules: Rules, s: State, answers: Answers, env: Environment)
    requires Trim(answers.user) != "" && AfterCollectOnly(rules, s, answers).ok
    requires AfterCollectJob(rules, s, answers).ok
    ensures var r := Inspect(rules, AfterCollectJob(rules, s, answers).state, env);
            r.Ok? && r.value.IsComplete() && !r.value.collectionDeferred
    ensures var r := Inspect(rules, AfterCollectOnly(rules, s, answers).state, env);
            s.config.job.None? ==> r.Ok? && !r.value.IsComplete()
  {
    TrimTwice(answers.user);
    var s1 := SaveWorkflow(SaveUser(s, answers.user, true).state, CollectOnly, true).state;
    CollectIsSaved(rules, s1, answers.collect, answers.unlocked, answers.collectFate);
    CompleteExactly(rules, AfterCollectOnly(rules, s, answers).state, env);
    CompleteExactly(rules, AfterCollectJob(rules, s, answers).state, env);
  }

  /** Processing what exists: a user and an output. */
  function AfterProcessing(rules: Rules, s: State, answers: Answers): Outcome {
    SaveOutputDeployment(rules, SaveWorkflow(SaveUser(s, answers.user, true).state, ProcessExisting, true).state,
                         answers.output, answers.outputFate)
  }

  lemma ProcessingCompletesExactly(rules: Rules, s: State, answers: Answers, env: Environment)
    requires Trim(answers.user) != "" && AfterProcessing(rules, s, answers).ok
    ensures var r := Inspect(rules, AfterProcessing(rules, s, answers).state, env);
            r.Ok? && (r.value.IsComplete() <==> !env.declared || env.resolves)
  {
    TrimTwice(answers.user);
    var s1 := SaveWorkflow(SaveUser(s, answers.user, true).state, ProcessExisting, true).state;
    OutputIsSaved(rules, s1, answers.output, answers.outputFate);
    var s2 := AfterProcessing(rules, s, answers).state;
    ProcessedIsReady(s2, env, ParseHosts(rules, s2.file).value);
  }

  lemma ProcessedIsReady(s: State, env: Environment, hosts: Registry)
    requires UserConfigured(s.config) && s.config.workflow == Some(ProcessExisting)
    requires s.keystore && OutputSaved(hosts, s.config)
    ensures ReadinessOf(hosts, s, env).IsComplete() <==> !env.declared || env.resolves
  {
    ReadyExactly(hosts, s, env);
  }

  // ----- What the steps leave in the hosts file -----

  /** What is read back of a host that was written. */
  lemma HostIsReadBack(rules: Rules, hosts: Registry, file: File, name: string)
    requires Writable(rules, hosts, file) && AllCanonical(rules, hosts) && name in hosts
    ensures var read := ParseHosts(rules, Written(hosts));
            && read.Ok? && read.value.Keys == hosts.Keys
            && read.value[name] == hosts[name].(roles := Normalized(hosts[name].roles),
                                                credential := Credentials.Persisted(hosts[name].credential).value,
                                                attachedViewer := None)
  {
    RoundTripsExactly(rules, hosts, file);
    PreparedExactly(name, hosts[name]);
  }

  lemma ExistingIsWritten(rules: Rules, s: State, input: CollectInput, unlocked: bool, fate: Fate)
    requires SaveCollectHost(rules, s, input, unlocked, fate).ok
    requires input.name in ParseHosts(rules, s.file).value
    ensures var hosts := ParseHosts(rules, s.file).value;
            var after := hosts[input.name := WithRole(hosts[input.name], Collect)];
            Writable(rules, after, s.file)
            && SaveCollectHost(rules, s, input, unlocked, fate).state.file == Written(after)
  {
  }

  /** The two hosts are the same but for their roles and how they hold their reference. */
  predicate SameButRoles(a: Host, b: Host) {
    && a.(roles := b.roles, credential := b.credential) == b
    && Credentials.SecretReference(a.credential) == Credentials.SecretReference(b.credential)
  }

  lemma PersistedReference(credential: Credentials.Credential)
    requires Credentials.Persisted(credential).Ok?
    ensures Credentials.SecretReference(Credentials.Persisted(credential).value)
         == Credentials.SecretReference(credential)
  {
  }

  lemma PreparedLooksAlike(host: Host, read: Host)
    requires Credentials.Persisted(host.credential).Ok? && host.attachedViewer.None? && host.roles != []
    requires read == host.(roles := Normalized(host.roles),
                           credential := Credentials.Persisted(host.credential).value, attachedViewer := None)
    ensures SameButRoles(read, host) && forall role :: role in read.roles <==> role in host.roles
  {
    PersistedReference(host.credential);
    NormalizedExactly(host.roles, Normalized(host.roles));
  }

  lemma NothingAttached(rules: Rules, file: File, name: string)
    requires ParseHosts(rules, file).Ok? && name in ParseHosts(rules, file).value
    ensures ParseHosts(rules, file).value[name].attachedViewer.None?
    ensures ParseHosts(rules, file).value[name].roles != []
  {
    ParsedIsCanonical(rules, file);
    ParsedHaveRoles(rules, file);
    var hosts := ParseHosts(rules, file).value;
    assert Detached(hosts)[name] == hosts[name];
  }

  lemma ReadAfterRole(rules: Rules, file: File, name: string, other: string)
    requires ParseHosts(rules, file).Ok? && name in ParseHosts(rules, file).value
    requires other in ParseHosts(rules, file).value
    requires var hosts := ParseHosts(rules, file).value;
             Writable(rules, hosts[name := WithRole(hosts[name], Collect)], file)
    ensures var hosts := ParseHosts(rules, file).value;
            var after := hosts[name := WithRole(hosts[name], Collect)];
            var read := ParseHosts(rules, Written(after));
            && read.Ok? && read.value.Keys == hosts.Keys && SameButRoles(read.value[other], after[other])
            && forall role :: role in read.value[other].roles <==> role in after[other].roles
  {
    var hosts := ParseHosts(rules, file).value;
    ParsedIsCanonical(rules, file);
    NothingAttached(rules, file, other);
    RoleAddedIsCanonical(rules, hosts, name);
    ReadLooksAlike(rules, hosts[name := WithRole(hosts[name], Collect)], file, other);
  }

  lemma RoleAddedIsCanonical(rules: Rules, hosts: Registry, name: string)
    requires AllCanonical(rules, hosts) && name in hosts
    ensures AllCanonical(rules, hosts[name := WithRole(hosts[name], Collect)])
  {
    WithRoleIsCanonical(rules, hosts[name], Collect);
  }

  lemma ReadLooksAlike(rules: Rules, hosts: Registry, file: File, name: string)
    requires Writable(rules, hosts, file) && AllCanonical(rules, hosts) && name in hosts
    requires hosts[name].attachedViewer.None? && hosts[name].roles != []
    ensures var read := ParseHosts(rules, Written(hosts));
            && read.Ok? && read.value.Keys == hosts.Keys && SameButRoles(read.value[name], hosts[name])
            && forall role :: role in read.value[name].roles <==> role in hosts[name].roles
  {
    HostIsReadBack(rules, hosts, file, name);
    PreparedExactly(name, hosts[name]);
    PreparedLooksAlike(hosts[name], ParseHosts(rules, Written(hosts)).value[name]);
  }

  /** A host that is there already only gains the role; every other host stays as it was. */
  lemma ExistingHostGainsRole(rules: Rules, s: State, input: CollectInput, unlocked: bool, fate: Fate, other: string)
    requires SaveCollectHost(rules, s, input, unlocked, fate).ok
    requires input.name in ParseHosts(rules, s.file).value && other in ParseHosts(rules, s.file).value
    ensures var hosts := ParseHosts(rules, s.file).value;
            var read := ParseHosts(rules, SaveCollectHost(rules, s, input, unlocked, fate).state.file);
            && read.Ok? && read.value.Keys == hosts.Keys && SameButRoles(read.value[other], hosts[other])
            && forall role :: role in read.value[other].roles <==>
                 role in hosts[other].roles || (other == input.name && role == Collect)
  {
    var hosts := ParseHosts(rules, s.file).value;
    ExistingIsWritten(rules, s, input, unlocked, fate);
    ReadAfterRole(rules, s.file, input.name, other);
    ParsedIsCanonical(rules, s.file);
    WithRoleIsCanonical(rules, hosts[input.name], Collect);
  }

  /** Where a built host differs from what was given: its cloud is recognized and its proxy path completed. */
  predicate IsAsGiven(host: Host, app: Application, url: Url, role: Role, secret: Option<string>,
                      viewer: Option<string>)
  {
    && host.app == Some(app) && host.roles == [role] && host.viewer == viewer
    && Credentials.SecretReference(host.credential) == secret
    && host.url.Some? && host.url.value.domain == url.domain && host.url.value.scheme == url.scheme
    && host.urlTemplate.None? && !host.acceptInvalidCerts
  }

  lemma BuiltIsAsGiven(rules: Rules, app: Application, url: Url, role: Role, secret: Option<string>,
                       viewer: Option<string>)
    ensures var built := Built(rules, app, url, [role], secret, viewer);
            built.Ok? && IsAsGiven(built.value, app, url, role, secret, viewer) && Canonical(rules, built.value)
  {
    BuiltIsCanonical(rules, app, url, [role], secret, viewer);
  }

  lemma ReadBackIsAsGiven(rules: Rules, hosts: Registry, file: File, name: string, app: Application, url: Url,
                          role: Role, secret: Option<string>, viewer: Option<string>)
    requires Writable(rules, hosts, file) && AllCanonical(rules, hosts) && name in hosts
    requires IsAsGiven(hosts[name], app, url, role, secret, viewer)
    ensures var read := ParseHosts(rules, Written(hosts));
            read.Ok? && name in read.value && IsAsGiven(read.value[name], app, url, role, secret, viewer)
  {
    HostIsReadBack(rules, hosts, file, name);
    PreparedExactly(name, hosts[name]);
    PersistedReference(hosts[name].credential);
    AlreadyNormalExactly([role]);
  }

  lemma NewIsWritten(rules: Rules, s: State, input: CollectInput, unlocked: bool, replace: bool, fate: Fate)
    requires replace || (ParseHosts(rules, s.file).Ok? ==> input.name !in ParseHosts(rules, s.file).value)
    requires (if replace then ReplaceCollectHost(rules, s, input, unlocked, fate)
              else SaveCollectHost(rules, s, input, unlocked, fate)).ok
    ensures ParseHosts(rules, s.file).Ok?
    ensures var after := ParseHosts(rules, s.file).value[input.name := BuiltCollectHost(rules, input).value];
            var out := if replace then ReplaceCollectHost(rules, s, input, unlocked, fate)
                       else SaveCollectHost(rules, s, input, unlocked, fate);
            Writable(rules, after, s.file) && out.state.file == Written(after)
  {
  }

  /** A new or replaced host is what was given, and its credential the secret that was named. */
  lemma NewHostIsAsGiven(rules: Rules, s: State, input: CollectInput, unlocked: bool, replace: bool, fate: Fate)
    requires replace || (ParseHosts(rules, s.file).Ok? ==> input.name !in ParseHosts(rules, s.file).value)
    requires (if replace then ReplaceCollectHost(rules, s, input, unlocked, fate)
              else SaveCollectHost(rules, s, input, unlocked, fate)).ok
    ensures var out := if replace then ReplaceCollectHost(rules, s, input, unlocked, fate)
                       else SaveCollectHost(rules, s, input, unlocked, fate);
            var read := ParseHosts(rules, out.state.file);
            && read.Ok? && input.name in read.value
            && IsAsGiven(read.value[input.name], input.app, input.url, Collect, input.secretId, None)
  {
    NewIsWritten(rules, s, input, unlocked, replace, fate);
    var after := ParseHosts(rules, s.file).value[input.name := BuiltCollectHost(rules, input).value];
    ParsedIsCanonical(rules, s.file);
    BuiltIsAsGiven(rules, input.app, input.url, Collect, input.secretId, None);
    ReadBackIsAsGiven(rules, after, s.file, input.name, input.app, input.url, Collect, input.secretId, None);
  }

  lemma OutputIsWritten(rules: Rules, s: State, input: OutputInput, fate: Fate)
    requires SaveOutputDeployment(rules, s, input, fate).ok
    ensures input.outputName != input.viewerName && ParseHosts(rules, s.file).Ok?
    ensures Built(rules, Elasticsearch, input.outputUrl, [Send], Some(input.secretId), Some(input.viewerName)).Ok?
    ensures Built(rules, Application.Kibana, input.viewerUrl, [View], Some(input.secretId), None).Ok?
    ensures var after := OutputHosts(rules, ParseHosts(rules, s.file).value, input);
            Writable(rules, after, s.file) && SaveOutputDeployment(rules, s, input, fate).state.file == Written(after)
  {
    BuiltIsAsGiven(rules, Elasticsearch, input.outputUrl, Send, Some(input.secretId), Some(input.viewerName));
    BuiltIsAsGiven(rules, Application.Kibana, input.viewerUrl, View, Some(input.secretId), None);
  }

  /** The two hosts of an output are what was given, linked, and share the one secret. */
  lemma OutputHostsAreAsGiven(rules: Rules, s: State, input: OutputInput, fate: Fate)
    requires SaveOutputDeployment(rules, s, input, fate).ok
    ensures var read := ParseHosts(rules, SaveOutputDeployment(rules, s, input, fate).state.file);
            && read.Ok? && input.outputName in read.value && input.viewerName in read.value
            && IsAsGiven(read.value[input.outputName], Elasticsearch, input.outputUrl, Send, Some(input.secretId),
                         Some(input.viewerName))
            && IsAsGiven(read.value[input.viewerName], Application.Kibana, input.viewerUrl, View,
                         Some(input.secretId), None)
  {
    OutputIsWritten(rules, s, input, fate);
    var after := OutputHosts(rules, ParseHosts(rules, s.file).value, input);
    ParsedIsCanonical(rules, s.file);
    var secret := Some(input.secretId);
    BuiltIsAsGiven(rules, Elasticsearch, input.outputUrl, Send, secret, Some(input.viewerName));
    BuiltIsAsGiven(rules, Application.Kibana, input.viewerUrl, View, secret, None);
    ReadBackIsAsGiven(rules, after, s.file, input.outputName, Elasticsearch, input.outputUrl, Send, secret,
                      Some(input.viewerName));
    ReadBackIsAsGiven(rules, after, s.file, input.viewerName, Application.Kibana, input.viewerUrl, View, secret, None);
  }

  // ----- When the steps succeed -----

  /** A user that is not blank is saved trimmed; another workflow ends a deferral, the same one does not. */
  lemma ChoicesExactly(s: State, user: string, workflow: Workflow, lands: bool)
    ensures SaveUser(s, user, lands) ==
            if Trim(user) != "" && lands then Outcome(s.(config := s.config.(user := Some(Trim(user)))), true)
            else Outcome(s, false)
    ensures var saved := SaveWorkflow(s, workflow, lands);
            && (saved.ok <==> lands) && (!lands ==> saved.state == s)
            && (lands ==> saved.state.config == s.config.(workflow := Some(workflow),
                                                          deferred := saved.state.config.deferred)
                          && saved.state == s.(config := saved.state.config)
                          && (saved.state.config.deferred <==>
                                s.config.deferred && s.config.workflow == Some(workflow)))
  {
  }

  /** Collecting may be deferred with a user, nothing to collect from, and, to process as well, a usable output. */
  lemma DeferralExactly(rules: Rules, s: State, env: Environment, lands: bool)
    ensures var deferred := DeferCollection(rules, s, env, lands);
            && (deferred.ok <==>
                  && lands && ParseHosts(rules, s.file).Ok?
                  && s.config.user.Some? && Trim(s.config.user.value) != ""
                  && var hosts := ParseHosts(rules, s.file).value;
                     && (forall name :: name in hosts ==> Collect !in hosts[name].roles)
                     && (|| s.config.workflow == Some(CollectOnly)
                         || (&& s.config.workflow == Some(CollectAndProcess) && OutputThere(hosts, s, env)
                             && (|| env.declared || s.keystore
                                 || Credentials.SecretReference(hosts[s.config.output.value].credential).None?))))
            && deferred.state == (if deferred.ok then s.(config := s.config.(deferred := true)) else s)
  {
    if ParseHosts(rules, s.file).Ok? {
      OutputExactly(ParseHosts(rules, s.file).value, s, env);
    }
  }

  /** An output needs three names, the two of its hosts different; its credential is stored before anything else. */
  lemma OutputRefused(rules: Rules, s: State, input: OutputInput, fate: Fate)
    ensures var saved := SaveOutputDeployment(rules, s, input, fate);
            var refused := || Trim(input.outputName) == "" || Trim(input.viewerName) == "" || Trim(input.secretId) == ""
                           || input.outputName == input.viewerName || !fate.secretLands;
            && (refused ==> saved == Outcome(s, false))
            && (!refused ==> saved.state.keystore)
            && saved.state.jobs == s.jobs
            && (saved.ok ==> saved.state.config == s.config.(output := Some(input.outputName)))
            && (!saved.ok ==> saved.state.config == s.config)
  {
  }

  lemma WrittenLeaves(rules: Rules, s: State, hosts: Registry, fate: Fate)
    ensures var out := CollectHostWritten(rules, s, hosts, fate).state;
            out.keystore == s.keystore && out.jobs == s.jobs
  {
  }

  /** A blank name, or a credential without the name of its secret, without an open keystore, or that is not stored. */
  predicate CannotCollect(input: CollectInput, unlocked: bool, fate: Fate) {
    Trim(input.name) == "" || (input.hasAuth && (input.secretId.None? || !unlocked || !fate.secretLands))
  }

  predicate RefusedOrStored(s: State, saved: Outcome, input: CollectInput, refused: bool) {
    if refused then saved == Outcome(s, false)
    else saved.state.keystore == (s.keystore || input.hasAuth) && saved.state.jobs == s.jobs
  }

  /** Then a new or replaced collection host is refused; else its credential is stored before anything else. */
  lemma CollectRefused(rules: Rules, s: State, input: CollectInput, unlocked: bool, fate: Fate)
    requires ParseHosts(rules, s.file).Ok?
    ensures RefusedOrStored(s, ReplaceCollectHost(rules, s, input, unlocked, fate), input,
                            CannotCollect(input, unlocked, fate))
    ensures input.name !in ParseHosts(rules, s.file).value ==>
              RefusedOrStored(s, SaveCollectHost(rules, s, input, unlocked, fate), input,
                              CannotCollect(input, unlocked, fate))
  {
    var hosts := ParseHosts(rules, s.file).value[input.name := BuiltCollectHost(rules, input).value];
    WrittenLeaves(rules, CredentialStored(s, input), hosts, fate);
  }

  /** The default job is saved before it is chosen, and only chosen when the chosen output is still linked. */
  lemma DefaultJobExactly(rules: Rules, s: State, name: string, job: Job, jobsLand: bool, lands: bool)
    ensures var saved := SaveDefaultJob(rules, s, name, job, jobsLand, lands);
            && (Trim(name) == "" || !jobsLand ==> saved == Outcome(s, false))
            && (Trim(name) != "" && jobsLand ==>
                  && saved.state.jobs == s.jobs[name := job] && saved.state.file == s.file
                  && (saved.ok <==>
                        && ParseHosts(rules, s.file).Ok? && lands
                        && (s.config.output.Some? ==>
                              OutputLinked(ParseHosts(rules, s.file).value, s.config.output)))
                  && saved.state.config == (if saved.ok then s.config.(job := Some(name)) else s.config))
  {
  }

  /** A processing job needs a host that may be collected from, and an output: the environment's or the chosen one. */
  lemma ProcessingJobExactly(rules: Rules, s: State, env: Environment, name: string, collectHost: string,
                             jobsLand: bool, lands: bool)
    requires ParseHosts(rules, s.file).Ok?
    ensures var hosts := ParseHosts(rules, s.file).value;
            SaveDefaultProcessingJob(rules, s, env, name, collectHost, jobsLand, lands) ==
            if Trim(name) != "" && collectHost in hosts && Collect in hosts[collectHost].roles
               && (env.declared || s.config.output.Some?) then
              SaveDefaultJob(rules, s, name,
                             Job(Some(collectHost),
                                 Some(if env.declared then EnvironmentOutput else HostOutput(s.config.output.value))),
                             jobsLand, lands)
            else Outcome(s, false)
  {
  }
}
