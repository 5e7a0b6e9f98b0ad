/** The migration as it works through the hosts file and the keystore. */
module Migrator {
  import opened Text
  import opened Secrets
  import opened Credentials
  import opened Migration
  import Files = HostsFile
  import Hosts = KnownHosts
  import Keys = Keystore
  import Machine = UnlockMachine

  datatype MigrationError = BadHosts(hosts: Hosts.Error) | BackupFailed | BadKeystore(keystore: Secrets.Error)

  /** Which of the three writes land. */
  datatype Fate = Fate(backsUp: bool, keystoreLands: bool, hostsLand: bool)

  class Migrating {
    const hostsYml: Files.HostsYml
    const keystore: Keys.KeystoreFiles
    var backup: Hosts.File

    constructor (hostsYml: Files.HostsYml, keystore: Keys.KeystoreFiles)
      ensures this.hostsYml == hostsYml && this.keystore == keystore && backup == Hosts.Missing
    {
      this.hostsYml := hostsYml;
      this.keystore := keystore;
      backup := Hosts.Missing;
    }

    /** One host of those that wait. */
    method PrepareOne(hosts: Hosts.Registry, ghost waiting: set<string>, name: string, updated: Hosts.Registry,
                      pending: seq<(string, SecretAuth)>, migrated: nat, skipped: nat)
      returns (updated': Hosts.Registry, pending': seq<(string, SecretAuth)>, migrated': nat, skipped': nat)
      requires Underway(hosts, waiting, updated, pending, migrated, skipped) && name in waiting
      ensures Underway(hosts, waiting - {name}, updated', pending', migrated', skipped')
    {
      OneFurther(hosts, waiting, updated, pending, migrated, skipped, name);
      match LegacyAuth(hosts[name].credential) {
        case Some(auth) =>
          return updated[name := MigratedHost(name, hosts[name])], pending + [(name, auth)], migrated + 1, skipped;
        case None =>
          return updated, pending, migrated, skipped + 1;
      }
    }

    /** The hosts with their references, and the batch for the keystore. */
    method Prepare(hosts: Hosts.Registry)
      returns (updated: Hosts.Registry, pending: seq<(string, SecretAuth)>, migrated: nat, skipped: nat)
      ensures updated == MigratedHosts(hosts) && Moves(pending, hosts, LegacyNames(hosts))
      ensures migrated == |pending| == |LegacyNames(hosts)| && migrated + skipped == |hosts|
    {
      updated, pending, migrated, skipped := hosts, [], 0, 0;
      var names := hosts.Keys;
      AtFirst(hosts);
      while names != {}
        invariant Underway(hosts, names, updated, pending, migrated, skipped)
        decreases names
      {
        var name :| name in names;
        updated, pending, migrated, skipped := PrepareOne(hosts, names, name, updated, pending, migrated, skipped);
        names := names - {name};
      }
      AtLast(hosts, updated, pending, migrated, skipped);
    }

    /** Backs up the hosts file and writes the batch to the keystore, if there is anything to move. */
    method Move(hosts: Hosts.Registry, pending: seq<(string, SecretAuth)>, password: string, fate: Fate)
      returns (r: Result<(), MigrationError>)
      requires Moves(pending, hosts, LegacyNames(hosts))
      modifies this`backup, keystore`store
      ensures r.Ok? <==>
                pending == [] ||
                (&& (fate.backsUp || hostsYml.file.Missing?) && fate.keystoreLands
                 && Machine.ReadStore(old(keystore.store), password).Ok?)
      ensures r.Ok? ==>
                && Machine.Entries(keystore.OnDisk()) == MigratedStore(hosts, old(Machine.Entries(keystore.OnDisk())))
                && backup == if pending == [] || hostsYml.file.Missing? then old(backup) else hostsYml.file
      ensures r.Err? || pending == [] ==> keystore.store == old(keystore.store)
    {
      ghost var before := Machine.Entries(keystore.OnDisk());
      BatchIsMigratedStore(hosts, before, pending);
      if pending == [] {
        return Ok(());
      }
      if !hostsYml.file.Missing? {
        if !fate.backsUp {
          return Err(BackupFailed);
        }
        backup := hostsYml.file;
      }
      var moved := keystore.UpsertSecretAuthBatch(pending, password, fate.keystoreLands);
      if moved.Err? {
        return Err(BadKeystore(moved.error));
      }
      return Ok(());
    }

    /**
     * Counts every host once. When it succeeds both files are migrated; when it fails the hosts file is as
     * it was, and the keystore is either as it was or already migrated.
     */
    method MigrateHosts(hosts: Hosts.Registry, password: string, fate: Fate)
      returns (r: Result<(nat, nat), MigrationError>)
      modifies this`backup, hostsYml`file, keystore`store
      ensures var moves := LegacyNames(hosts) != {};
              r.Ok? <==>
                && (moves ==>
                      && (fate.backsUp || old(hostsYml.file).Missing?) && fate.keystoreLands
                      && Machine.ReadStore(old(keystore.store), password).Ok?)
                && Hosts.Writable(hostsYml.rules, MigratedHosts(hosts), old(hostsYml.file)) && fate.hostsLand
      ensures r.Ok? ==>
                && r.value.0 == |LegacyNames(hosts)| && r.value.0 + r.value.1 == |hosts|
                && hostsYml.file == Hosts.Written(MigratedHosts(hosts))
                && Machine.Entries(keystore.OnDisk()) == MigratedStore(hosts, old(Machine.Entries(keystore.OnDisk())))
      ensures r.Ok? && LegacyNames(hosts) != {} && !old(hostsYml.file).Missing? ==> backup == old(hostsYml.file)
      ensures r.Err? ==>
                && hostsYml.file == old(hostsYml.file)
                && (|| keystore.store == old(keystore.store)
                    || Machine.Entries(keystore.OnDisk())
                       == MigratedStore(hosts, old(Machine.Entries(keystore.OnDisk()))))
    {
      var updated, pending, migrated, skipped := Prepare(hosts);
      assert pending == [] <==> LegacyNames(hosts) == {};
      var moved := Move(hosts, pending, password, fate);
      if moved.Err? {
        return Err(moved.error);
      }
      var written := hostsYml.WriteHostsYml(updated, fate.hostsLand);
      if written.Err? {
        return Err(BadHosts(written.error));
      }
      return Ok((migrated, skipped));
    }

    /** Nothing happens to hosts that cannot be read; otherwise they are migrated. */
    method MigrateHostsToKeystore(password: string, fate: Fate)
      returns (hosts: Result<Hosts.Registry, Hosts.Error>, r: Result<(nat, nat), MigrationError>)
      modifies this`backup, hostsYml`file, keystore`store
      ensures hosts == Hosts.ParseHosts(hostsYml.rules, old(hostsYml.file))
      ensures hosts.Err? ==> r.Err? && hostsYml.file == old(hostsYml.file) && keystore.store == old(keystore.store)
      ensures hosts.Ok? && r.Ok? ==>
                && r.value.0 == |LegacyNames(hosts.value)| && r.value.0 + r.value.1 == |hosts.value|
                && Hosts.AllPrepared(MigratedHosts(hosts.value))
                && hostsYml.file == Hosts.Written(MigratedHosts(hosts.value))
                && Machine.Entries(keystore.OnDisk())
                   == MigratedStore(hosts.value, old(Machine.Entries(keystore.OnDisk())))
    {
      hosts := hostsYml.ParseHostsYml();
      if hosts.Err? {
        return hosts, Err(BadHosts(hosts.error));
      }
      r := MigrateHosts(hosts.value, password, fate);
    }
  }
}
