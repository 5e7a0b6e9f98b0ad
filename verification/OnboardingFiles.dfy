/** Onboarding's operations as they update the configuration, the hosts and the jobs. */
module OnboardingFiles {
  import opened Text
  import opened Applications
  import opened Credentials
  import opened Roles
  import opened KnownHosts
  import opened Onboarding
  import HostsFile

  class Settings {
    const hostsYml: HostsFile.HostsYml
    var config: Config
    var jobs: map<string, Job>
    var keystore: bool

    constructor (hostsYml: HostsFile.HostsYml, config: Config, jobs: map<string, Job>, keystore: bool)
      ensures this.hostsYml == hostsYml && Current() == State(hostsYml.file, config, jobs, keystore)
    {
      this.hostsYml := hostsYml;
      this.config := config;
      this.jobs := jobs;
      this.keystore := keystore;
    }

    function Current(): State
      reads this, hostsYml
    {
      State(hostsYml.file, config, jobs, keystore)
    }

    method SaveConfig(changed: Config, lands: bool) returns (ok: bool)
      modifies this`config
      ensures Outcome(Current(), ok) == Configured(old(Current()), changed, lands)
    {
      if lands {
        config := changed;
      }
      return lands;
    }

    method SaveUser(user: string, lands: bool) returns (ok: bool)
      modifies this`config
      ensures Outcome(Current(), ok) == Onboarding.SaveUser(old(Current()), user, lands)
    {
      var trimmed := Trim(user);
      if trimmed == "" {
        return false;
      }
      ok := SaveConfig(config.(user := Some(trimmed)), lands);
    }

    method SaveWorkflow(workflow: Workflow, lands: bool) returns (ok: bool)
      modifies this`config
      ensures Outcome(Current(), ok) == Onboarding.SaveWorkflow(old(Current()), workflow, lands)
    {
      var changed := config;
      if changed.workflow != Some(workflow) {
        changed := changed.(deferred := false);
      }
      changed := changed.(workflow := Some(workflow));
      ok := SaveConfig(changed, lands);
    }

    method InspectFiles(env: Environment) returns (r: Result<Readiness, Error>)
      ensures r == Inspect(hostsYml.rules, Current(), env)
    {
      var hosts := hostsYml.ParseHostsYml();
      return if hosts.Err? then Err(hosts.error) else Ok(ReadinessOf(hosts.value, Current(), env));
    }

    method DeferCollection(env: Environment, lands: bool) returns (ok: bool)
      modifies this`config
      ensures Outcome(Current(), ok) == Onboarding.DeferCollection(hostsYml.rules, old(Current()), env, lands)
    {
      var inspected := InspectFiles(env);
      if inspected.Err? {
        return false;
      }
      var r := inspected.value;
      if !r.userConfigured {
        return false;
      }
      match r.workflow {
        case Some(CollectOnly) =>
        case Some(CollectAndProcess) =>
          if !r.OutputUsable() {
            return false;
          }
        case _ => return false;
      }
      if r.collectHostConfigured {
        return false;
      }
      ok := SaveConfig(config.(deferred := true), lands);
    }

    method ClearDeferral(lands: bool) returns (ok: bool)
      modifies this`config
      ensures Outcome(Current(), ok) == Onboarding.ClearDeferral(old(Current()), lands)
    {
      if !config.deferred {
        return true;
      }
      ok := SaveConfig(config.(deferred := false), lands);
    }

    method WriteHosts(hosts: Registry, lands: bool) returns (ok: bool)
      modifies hostsYml`file
      ensures Outcome(Current(), ok) == HostsWritten(hostsYml.rules, old(Current()), hosts, lands)
    {
      var written := hostsYml.WriteHostsYml(hosts, lands);
      return written.Ok?;
    }

    method SaveOutputDeployment(input: OutputInput, fate: Fate) returns (ok: bool)
      modifies this`config, this`keystore, hostsYml`file
      ensures Outcome(Current(), ok) == Onboarding.SaveOutputDeployment(hostsYml.rules, old(Current()), input, fate)
    {
      if Trim(input.outputName) == "" || Trim(input.viewerName) == "" || Trim(input.secretId) == "" {
        return false;
      }
      if input.outputName == input.viewerName || !fate.secretLands {
        return false;
      }
      keystore := true;
      var hosts := hostsYml.ParseHostsYml();
      if hosts.Err? {
        return false;
      }
      ok := WriteHosts(OutputHosts(hostsYml.rules, hosts.value, input), fate.hostsLand);
      if ok {
        ok := SaveConfig(config.(output := Some(input.outputName)), fate.configLands);
      }
    }

    method WriteCollectHost(hosts: Registry, fate: Fate) returns (ok: bool)
      modifies this`config, hostsYml`file
      ensures Outcome(Current(), ok) == CollectHostWritten(hostsYml.rules, old(Current()), hosts, fate)
    {
      ok := WriteHosts(hosts, fate.hostsLand);
      if ok {
        ok := ClearDeferral(fate.configLands);
      }
    }

    method SaveCollectHost(input: CollectInput, unlocked: bool, fate: Fate) returns (ok: bool)
      modifies this`config, this`keystore, hostsYml`file
      ensures Outcome(Current(), ok)
           == Onboarding.SaveCollectHost(hostsYml.rules, old(Current()), input, unlocked, fate)
    {
      if Trim(input.name) == "" {
        return false;
      }
      var parsed := hostsYml.ParseHostsYml();
      if parsed.Err? {
        return false;
      }
      var hosts := parsed.value;
      if input.name in hosts {
        ok := WriteCollectHost(hosts[input.name := WithRole(hosts[input.name], Collect)], fate);
        return;
      }
      if !CredentialGiven(input, unlocked) || (input.hasAuth && !fate.secretLands) {
        return false;
      }
      if input.hasAuth {
        keystore := true;
      }
      var host := BuiltCollectHost(hostsYml.rules, input);
      ok := WriteCollectHost(hosts[input.name := host.value], fate);
    }

    method ReplaceCollectHost(input: CollectInput, unlocked: bool, fate: Fate) returns (ok: bool)
      modifies this`config, this`keystore, hostsYml`file
      ensures Outcome(Current(), ok)
           == Onboarding.ReplaceCollectHost(hostsYml.rules, old(Current()), input, unlocked, fate)
    {
      if Trim(input.name) == "" || !CredentialGiven(input, unlocked) || (input.hasAuth && !fate.secretLands) {
        return false;
      }
      if input.hasAuth {
        keystore := true;
      }
      var host := BuiltCollectHost(hostsYml.rules, input);
      var hosts := hostsYml.ParseHostsYml();
      if hosts.Err? {
        return false;
      }
      ok := WriteCollectHost(hosts.value[input.name := host.value], fate);
    }

    method SaveDefaultJob(name: string, job: Job, jobsLand: bool, configLands: bool) returns (ok: bool)
      modifies this`config, this`jobs
      ensures Outcome(Current(), ok)
           == Onboarding.SaveDefaultJob(hostsYml.rules, old(Current()), name, job, jobsLand, configLands)
    {
      if Trim(name) == "" || !jobsLand {
        return false;
      }
      jobs := jobs[name := job];
      var changed := config.(job := Some(name));
      var hosts := hostsYml.ParseHostsYml();
      if hosts.Err? || !ReferencesValid(hosts.value, changed, jobs) {
        return false;
      }
      ok := SaveConfig(changed, configLands);
    }

    method SaveDefaultProcessingJob(env: Environment, name: string, collectHost: string, jobsLand: bool,
                                    configLands: bool) returns (ok: bool)
      modifies this`config, this`jobs
      ensures Outcome(Current(), ok)
           == Onboarding.SaveDefaultProcessingJob(hostsYml.rules, old(Current()), env, name, collectHost, jobsLand,
                                                  configLands)
    {
      if Trim(name) == "" {
        return false;
      }
      var hosts := hostsYml.ParseHostsYml();
      if hosts.Err? || collectHost !in hosts.value || Collect !in hosts.value[collectHost].roles {
        return false;
      }
      var destination := EnvironmentOutput;
      if !env.declared {
        if config.output.None? {
          return false;
        }
        destination := HostOutput(config.output.value);
      }
      ok := SaveDefaultJob(name, Job(Some(collectHost), Some(destination)), jobsLand, configLands);
    }
  }
}
