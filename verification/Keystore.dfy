/** The keystore's operations as they read, change and rewrite its two files. */
module Keystore {
  import opened Text
  import opened Secrets
  import opened UnlockMachine
  import Credentials

  /** An API key alone, or a username with its password. */
  predicate IsAuth(username: Option<string>, password: Option<string>, apiKey: Option<string>) {
    if apiKey.Some? then username.None? && password.None? else username.Some? && password.Some?
  }

  /** An entry that holds just what was given, each part in its place. */
  predicate IsEntryOf(entry: SecretEntry, username: Option<string>, password: Option<string>,
                      apiKey: Option<string>)
  {
    && IsAuth(username, password, apiKey)
    && entry.apiKey == apiKey
    && (entry.basic.Some? <==> username.Some?)
    && (entry.basic.Some? ==>
          Some(entry.basic.value.username) == username && Some(entry.basic.value.password) == password)
  }

  class KeystoreFiles {
    var store: StoreFile
    var lease: LeaseFile
    /** The password typed earlier in this process. */
    var prompted: Option<string>

    constructor (disk: Disk)
      ensures OnDisk() == disk && prompted == None
    {
      store, lease := disk.store, disk.lease;
      prompted := None;
    }

    function OnDisk(): Disk
      reads this
    {
      Disk(store, lease)
    }

    // ----- The lease -----

    method ReadUnlockLease(at: Moment) returns (r: Option<(int, string)>)
      modifies this`lease
      ensures r == if Active(old(lease), at) then Some((old(lease).expires, old(lease).password)) else None
      ensures lease == AfterReading(old(lease), at)
    {
      match lease {
        case Lease(context, version, expires, password) =>
          if context != at.context || version != LEASE_VERSION {
            return None;
          }
          if expires <= at.now {
            if at.deletes {
              lease := NoLease;
            }
            return None;
          }
          return Some((expires, password));
        case _ => return None;
      }
    }

    /** The leased password if it opens the keystore; a useless lease is deleted. */
    method TestLease(at: Moment) returns (r: Option<(int, string)>)
      modifies this`lease
      ensures lease == AfterTesting(old(OnDisk()), at)
      ensures match LeasedPassword(old(OnDisk()), at)
              case None => r == None
              case Some(password) => r == Some((old(lease).expires, password))
    {
      var read := ReadUnlockLease(at);
      if read.None? {
        return None;
      }
      if ValidatesExisting(store, read.value.1) {
        return read;
      }
      if at.deletes {
        lease := NoLease;
      }
      return None;
    }

    method GetUnlockStatus(at: Moment) returns (status: Status)
      modifies this`lease
      ensures status.keystoreExists == StoreExists(store)
      ensures status.unlockActive <==> LeasedPassword(old(OnDisk()), at).Some?
      ensures status.expires == if status.unlockActive then Some(old(lease).expires) else None
      ensures lease == AfterTesting(old(OnDisk()), at)
    {
      var tested := TestLease(at);
      return Status(StoreExists(store), tested.Some?, if tested.Some? then Some(tested.value.0) else None);
    }

    method GetKeystorePassword(at: Moment, supply: Supply) returns (r: Result<(Source, string), Error>)
      modifies this`lease, this`prompted
      ensures Answer(r, lease, prompted)
           == KeystorePassword(old(OnDisk()), at, supply.(remembered := old(prompted)))
    {
      if supply.scoped.Some? {
        return Ok((Scoped, supply.scoped.value));
      }
      if supply.environment.Some? {
        return Ok((Environment, supply.environment.value));
      }
      var tested := TestLease(at);
      if tested.Some? {
        return Ok((Leased, tested.value.1));
      }
      if !supply.interactive || !StoreExists(store) {
        return Err(Locked);
      }
      if prompted.Some? {
        return Ok((Remembered, prompted.value));
      }
      if supply.answer.None? {
        return Err(PromptFailed);
      }
      if !ValidatesExisting(store, supply.answer.value) {
        return Err(Unreadable);
      }
      prompted := supply.answer;
      return Ok((Prompted, supply.answer.value));
    }

    method GetCommandPassword(at: Moment, supply: Supply) returns (r: Result<(Source, string), Error>)
      modifies this`lease
      ensures Answer(r, lease, prompted)
           == CommandPassword(old(OnDisk()), at, supply.(remembered := old(prompted)))
    {
      if supply.environment.Some? {
        return Ok((Environment, supply.environment.value));
      }
      var tested := TestLease(at);
      if tested.Some? {
        return Ok((Leased, tested.value.1));
      }
      if !supply.interactive {
        return Err(Locked);
      }
      return if supply.answer.Some? then Ok((Prompted, supply.answer.value)) else Err(PromptFailed);
    }

    method WriteUnlockLease(at: Moment, password: string, ttl: nat, lands: bool)
      modifies this`lease
      ensures OnDisk() == Next(old(OnDisk()), StepGrant(at, password, ttl, lands))
    {
      var seconds := if ttl > MAX_EPOCH then MAX_EPOCH else ttl;
      var end := if at.now + seconds > MAX_EPOCH then MAX_EPOCH else at.now + seconds;
      if lands {
        lease := Lease(at.context, LEASE_VERSION, end, password);
      }
    }

    // ----- The entries -----

    /** Replaces the keystore file by one sealed with the password. */
    method WriteStore(secrets: Store, password: string, lands: bool) returns (r: Result<(), Error>)
      modifies this`store
      ensures r.Ok? <==> lands
      ensures store == if lands then Sealed(password, secrets) else old(store)
    {
      if !lands {
        return Err(NotWritten);
      }
      store := Sealed(password, secrets);
      return Ok(());
    }

    method AddSecret(id: string, username: Option<string>, password: Option<string>, apiKey: Option<string>,
                     keystorePassword: string, lands: bool) returns (r: Result<(), Error>)
      modifies this`store
      ensures var auth := ParseAuth(username, password, apiKey);
              if auth.Ok? then OnDisk() == Next(old(OnDisk()), StepAdd(id, auth.value, keystorePassword, lands))
              else r == Err(InvalidAuth) && OnDisk() == old(OnDisk())
      ensures r.Err? ==> store == old(store)
      ensures r.Ok? ==> id !in Entries(old(OnDisk())) && id in Entries(OnDisk())
      ensures r.Ok? ==> IsEntryOf(Entries(OnDisk())[id], username, password, apiKey)
      ensures !IsAuth(username, password, apiKey) ==> r == Err(InvalidAuth)
    {
      var auth := ParseAuth(username, password, apiKey);
      if auth.Err? {
        return Err(auth.error);
      }
      var read := ReadStore(store, keystorePassword);
      if read.Err? {
        return Err(read.error);
      }
      if id in read.value {
        return Err(AlreadyExists);
      }
      r := WriteStore(read.value[id := NO_ENTRY.Upserted(auth.value)], keystorePassword, lands);
    }

    method UpdateSecret(id: string, username: Option<string>, password: Option<string>, apiKey: Option<string>,
                        keystorePassword: string, lands: bool) returns (r: Result<(), Error>)
      modifies this`store
      ensures var auth := ParseAuth(username, password, apiKey);
              if auth.Ok? then
                && OnDisk() == Next(old(OnDisk()), StepUpdate(id, auth.value, keystorePassword, lands))
                && (r.Ok? ==> ResolveSecret(Entries(OnDisk()), id) == Some(auth.value))
              else r == Err(InvalidAuth) && OnDisk() == old(OnDisk())
      ensures r.Err? ==> store == old(store)
      ensures r.Ok? ==> id in Entries(OnDisk()) && IsEntryOf(Entries(OnDisk())[id], username, password, apiKey)
      ensures !IsAuth(username, password, apiKey) ==> r == Err(InvalidAuth)
    {
      var auth := ParseAuth(username, password, apiKey);
      if auth.Err? {
        return Err(auth.error);
      }
      var read := ReadStore(store, keystorePassword);
      if read.Err? {
        return Err(read.error);
      }
      if id !in read.value {
        return Err(NotFound);
      }
      r := WriteStore(read.value[id := NO_ENTRY.Upserted(auth.value)], keystorePassword, lands);
    }

    /** `hosts` and `jobs` are missing when their files cannot be read; then nothing is removed. */
    method RemoveSecret(id: string, expected: Option<SecretAuth>, hosts: Option<Credentials.Hosts>,
                        jobs: Option<Credentials.Jobs>, keystorePassword: string, lands: bool)
      returns (r: Result<(), Error>)
      modifies this`store
      ensures var referenced := Credentials.MayBeReferenced(hosts, jobs, id);
              OnDisk() == Next(old(OnDisk()), StepRemove(id, expected, referenced, keystorePassword, lands))
      ensures r.Err? ==> store == old(store)
      ensures hosts.None? || jobs.None? ==> r.Err?
      ensures r.Ok? ==> Credentials.ResolveAlike(hosts.value, old(Entries(OnDisk())), Entries(OnDisk()))
    {
      var read := ReadStore(store, keystorePassword);
      if read.Err? {
        return Err(read.error);
      }
      var secrets := read.value;
      if id !in secrets {
        return Err(NotFound);
      }
      if hosts.None? || jobs.None? {
        return Err(ReferencesUnknown);
      }
      if Credentials.IsReferenced(hosts.value, jobs.value, id) {
        return Err(Referenced);
      }
      match expected {
        case Some(auth) =>
          if !secrets[id].Contains(auth) {
            return Err(Mismatch);
          }
          var left := secrets[id].Removed(auth);
          secrets := if left.IsEmpty() then secrets - {id} else secrets[id := left];
        case None =>
          secrets := secrets - {id};
      }
      assert Remove(read.value, id, expected, false) == Ok(secrets);
      forall name | name in hosts.value
        ensures Credentials.Resolve(hosts.value[name], Some(secrets))
             == Credentials.Resolve(hosts.value[name], Some(read.value))
      {
        Credentials.RemovalKeepsEveryHost(read.value, id, expected, hosts.value, jobs.value, name);
      }
      r := WriteStore(secrets, keystorePassword, lands);
    }

    method UpsertSecretAuth(id: string, auth: SecretAuth, keystorePassword: string, lands: bool)
      returns (r: Result<(), Error>)
      modifies this`store
      ensures OnDisk() == Next(old(OnDisk()), StepUpsert(id, auth, keystorePassword, lands))
      ensures r.Err? ==> store == old(store)
    {
      var read := ReadStore(store, keystorePassword);
      if read.Err? {
        return Err(read.error);
      }
      r := WriteStore(Upsert(read.value, id, auth), keystorePassword, lands);
    }

    method UpsertSecretAuthBatch(entries: seq<(string, SecretAuth)>, keystorePassword: string, lands: bool)
      returns (r: Result<nat, Error>)
      modifies this`store
      ensures OnDisk() == Next(old(OnDisk()), StepBatch(entries, keystorePassword, lands))
      ensures r.Ok? ==> r.value == |entries| && ReadStore(store, keystorePassword).Ok?
      ensures r.Ok? <==> ReadStore(old(store), keystorePassword).Ok? && (entries == [] || lands)
      ensures entries == [] ==> store == old(store)
    {
      var read := ReadStore(store, keystorePassword);
      if read.Err? {
        return Err(read.error);
      }
      var secrets := read.value;
      var updated := 0;
      for k := 0 to |entries|
        invariant updated == k
        invariant UpsertAll(secrets, entries[k..]) == UpsertAll(read.value, entries)
      {
        var (id, auth) := entries[k];
        var entry := if id in secrets then secrets[id] else NO_ENTRY;
        assert entries[k..][1..] == entries[k + 1..];
        secrets := secrets[id := entry.Upserted(auth)];
        updated := updated + 1;
      }
      if updated > 0 {
        var written := WriteStore(secrets, keystorePassword, lands);
        if written.Err? {
          return Err(written.error);
        }
      }
      return Ok(updated);
    }

    method CreateKeystore(password: string, lands: bool) returns (r: Result<(), Error>)
      modifies this`store
      ensures OnDisk() == Next(old(OnDisk()), StepCreate(password, lands))
      ensures r.Ok? <==> !StoreExists(old(store)) && lands
      ensures r.Ok? ==> store == Sealed(password, map[])
    {
      if StoreExists(store) {
        return Err(AlreadyExists);
      }
      r := WriteStore(map[], password, lands);
    }

    /** Logging in creates the keystore if there is none, so afterwards the password opens it. */
    method Authenticate(password: string, lands: bool) returns (r: Result<(), Error>)
      modifies this`store
      ensures r.Ok? <==> if StoreExists(old(store)) then ReadStore(old(store), password).Ok? else lands
      ensures r.Ok? ==> Opens(OnDisk(), password)
      ensures Entries(OnDisk()) == old(Entries(OnDisk()))
    {
      if StoreExists(store) {
        return if ValidatesExisting(store, password) then Ok(()) else Err(Unreadable);
      }
      r := CreateKeystore(password, lands);
    }

    method RotatePassword(current: string, next: string, at: Moment, fate: RotationFate)
      returns (r: Result<(), Error>)
      modifies this`store, this`lease
      ensures OnDisk() == Next(old(OnDisk()), StepRotate(at, current, next, fate))
      ensures r.Ok? ==> ReadStore(store, next) == ReadStore(old(store), current)
    {
      var read := ReadStore(store, current);
      if read.Err? {
        return Err(read.error);
      }
      r := WriteStore(read.value, next, fate.storeLands);
      if r.Err? || !fate.readsLease {
        return;
      }
      var held := ReadUnlockLease(at);
      if held.Some? {
        if !fate.leaseLands {
          return Err(NotWritten);
        }
        lease := Lease(at.context, LEASE_VERSION, held.value.0, next);
      }
    }
  }

  // ----- Every run: references -----

  /** A removal is told when the saved hosts or jobs reference the secret. */
  predicate AsksFor(hosts: Credentials.Hosts, jobs: Credentials.Jobs, step: Step) {
    step.StepRemove? && Credentials.IsReferenced(hosts, jobs, step.id) ==> step.referenced
  }

  predicate Resolves(host: Credentials.Credential, disk: Disk) {
    Credentials.Resolve(host, Some(Entries(disk))).Ok?
  }

  lemma StepKeepsResolving(hosts: Credentials.Hosts, jobs: Credentials.Jobs, disk: Disk, step: Step, name: string)
    requires AsksFor(hosts, jobs, step) && name in hosts && Resolves(hosts[name], disk)
    ensures Resolves(hosts[name], Next(disk, step))
  {
    var reference := Credentials.SecretReference(hosts[name]);
    if reference.Some? {
      var id := reference.value;
      assert Credentials.HostReferences(hosts, name, id);
      match step
      case StepBatch(entries, password, lands) =>
        if ReadStore(disk.store, password).Ok? {
          BatchKeepsResolving(Entries(disk), entries, id);
        }
      case _ =>
    }
  }

  lemma {:induction false} BatchKeepsResolving(store: Store, entries: seq<(string, SecretAuth)>, id: string)
    requires ResolveSecret(store, id).Some?
    ensures ResolveSecret(UpsertAll(store, entries), id).Some?
    decreases |entries|
  {
    if entries != [] {
      BatchKeepsResolving(Upsert(store, entries[0].0, entries[0].1), entries[1..], id);
    }
  }

  /** Over every run of the keystore's operations no saved host that resolves is ever left without its secret. */
  lemma {:induction false} NoDanglingReferences(hosts: Credentials.Hosts, jobs: Credentials.Jobs, disk: Disk,
                                                steps: seq<Step>, name: string)
    requires forall k :: 0 <= k < |steps| ==> AsksFor(hosts, jobs, steps[k])
    requires name in hosts && Resolves(hosts[name], disk)
    ensures Resolves(hosts[name], Run(disk, steps))
    decreases |steps|
  {
    if steps != [] {
      StepKeepsResolving(hosts, jobs, disk, steps[0], name);
      NoDanglingReferences(hosts, jobs, Next(disk, steps[0]), steps[1..], name);
    }
  }
}
