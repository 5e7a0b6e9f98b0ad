/** Moving the plaintext credentials of saved hosts into the keystore. */
module Migration {
  import opened Text
  import opened Secrets
  import opened Credentials
  import opened KnownHosts
  import Roles

  // ----- What migration makes of hosts and entries -----

  predicate IsLegacy(hosts: Registry, name: string) {
    name in hosts && hosts[name].credential.Legacy?
  }

  function LegacyNames(hosts: Registry): set<string> {
    set name | name in hosts && IsLegacy(hosts, name)
  }

  /** Each legacy host comes to reference the secret of its own name. */
  function MigratedHost(name: string, host: Host): Host {
    if host.credential.Legacy? then host.(credential := Keystore(name)) else host
  }

  function MigratedHosts(hosts: Registry): Registry {
    map name | name in hosts :: MigratedHost(name, hosts[name])
  }

  function MigratedEntry(hosts: Registry, store: Store, id: string): SecretEntry {
    if IsLegacy(hosts, id) then EntryOf(store, id).Upserted(hosts[id].credential.auth) else EntryOf(store, id)
  }

  function MigratedStore(hosts: Registry, store: Store): Store {
    map id | id in store.Keys + LegacyNames(hosts) :: MigratedEntry(hosts, store, id)
  }

  /** Each of the names is in the batch once, with its host's plaintext. */
  predicate Moves(batch: seq<(string, SecretAuth)>, hosts: Registry, names: set<string>) {
    && Distinct(batch)
    && (forall k :: 0 <= k < |batch| ==>
          batch[k].0 in names && IsLegacy(hosts, batch[k].0) && hosts[batch[k].0].credential.auth == batch[k].1)
    && (forall name :: name in names ==> exists k :: 0 <= k < |batch| && batch[k].0 == name)
  }

  lemma MovesOneMore(batch: seq<(string, SecretAuth)>, hosts: Registry, names: set<string>, name: string)
    requires Moves(batch, hosts, names) && IsLegacy(hosts, name) && name !in names
    ensures Moves(batch + [(name, hosts[name].credential.auth)], hosts, names + {name})
  {
    var longer := batch + [(name, hosts[name].credential.auth)];
    assert longer[|batch|].0 == name;
    forall other | other in names + {name}
      ensures exists k :: 0 <= k < |longer| && longer[k].0 == other
    {
      if other != name {
        var k :| 0 <= k < |batch| && batch[k].0 == other;
        assert longer[k].0 == other;
      }
    }
  }

  /** The legacy hosts that no longer wait. */
  function Moved(hosts: Registry, waiting: set<string>): set<string> {
    LegacyNames(hosts) - waiting
  }

  lemma MovesNext(batch: seq<(string, SecretAuth)>, hosts: Registry, waiting: set<string>, name: string)
    requires Moves(batch, hosts, Moved(hosts, waiting)) && name in waiting && name in hosts
    ensures hosts[name].credential.Legacy? ==>
              && Moves(batch + [(name, hosts[name].credential.auth)], hosts, Moved(hosts, waiting - {name}))
              && |Moved(hosts, waiting - {name})| == |Moved(hosts, waiting)| + 1
    ensures !hosts[name].credential.Legacy? ==> Moved(hosts, waiting - {name}) == Moved(hosts, waiting)
  {
    if hosts[name].credential.Legacy? {
      MovesOneMore(batch, hosts, Moved(hosts, waiting), name);
      assert Moved(hosts, waiting - {name}) == Moved(hosts, waiting) + {name};
    } else {
      assert Moved(hosts, waiting - {name}) == Moved(hosts, waiting);
    }
  }

  /** The hosts not among `waiting` have their references. */
  predicate PartlyMigrated(hosts: Registry, updated: Registry, waiting: set<string>) {
    && updated.Keys == hosts.Keys
    && forall name :: name in hosts ==>
         updated[name] == if name in waiting then hosts[name] else MigratedHost(name, hosts[name])
  }

  lemma OneMoreMigrated(hosts: Registry, updated: Registry, waiting: set<string>, name: string)
    requires PartlyMigrated(hosts, updated, waiting) && name in waiting && waiting <= hosts.Keys
    ensures PartlyMigrated(hosts, updated[name := MigratedHost(name, hosts[name])], waiting - {name})
    ensures MigratedHost(name, hosts[name]) == hosts[name] ==> PartlyMigrated(hosts, updated, waiting - {name})
  {
  }

  /** Where the migration stands while some hosts still wait. */
  predicate Underway(hosts: Registry, waiting: set<string>, updated: Registry, pending: seq<(string, SecretAuth)>,
                     migrated: nat, skipped: nat)
  {
    && waiting <= hosts.Keys && PartlyMigrated(hosts, updated, waiting)
    && Moves(pending, hosts, Moved(hosts, waiting))
    && migrated == |pending| == |Moved(hosts, waiting)|
    && migrated + skipped == |hosts| - |waiting|
  }

  lemma AtFirst(hosts: Registry)
    ensures Underway(hosts, hosts.Keys, hosts, [], 0, 0)
  {
    assert Moved(hosts, hosts.Keys) == {};
    assert |hosts| == |hosts.Keys|;
  }

  lemma OneFurther(hosts: Registry, waiting: set<string>, updated: Registry, pending: seq<(string, SecretAuth)>,
                   migrated: nat, skipped: nat, name: string)
    requires Underway(hosts, waiting, updated, pending, migrated, skipped) && name in waiting
    ensures hosts[name].credential.Legacy? ==>
              Underway(hosts, waiting - {name}, updated[name := MigratedHost(name, hosts[name])],
                       pending + [(name, hosts[name].credential.auth)], migrated + 1, skipped)
    ensures !hosts[name].credential.Legacy? ==>
              Underway(hosts, waiting - {name}, updated, pending, migrated, skipped + 1)
  {
    MovesNext(pending, hosts, waiting, name);
    OneMoreMigrated(hosts, updated, waiting, name);
    assert |waiting - {name}| == |waiting| - 1;
  }

  lemma AtLast(hosts: Registry, updated: Registry, pending: seq<(string, SecretAuth)>, migrated: nat, skipped: nat)
    requires Underway(hosts, {}, updated, pending, migrated, skipped)
    ensures updated == MigratedHosts(hosts) && Moves(pending, hosts, LegacyNames(hosts))
    ensures migrated == |pending| == |LegacyNames(hosts)| && migrated + skipped == |hosts|
  {
    assert Moved(hosts, {}) == LegacyNames(hosts);
  }

  lemma BatchIsMigratedStore(hosts: Registry, store: Store, pending: seq<(string, SecretAuth)>)
    requires Moves(pending, hosts, LegacyNames(hosts))
    ensures UpsertAll(store, pending) == MigratedStore(hosts, store)
  {
    var after := UpsertAll(store, pending);
    forall id
      ensures id in after <==> id in store || IsLegacy(hosts, id)
      ensures id in after ==> after[id] == MigratedEntry(hosts, store, id)
    {
      assert IsLegacy(hosts, id) <==> id in LegacyNames(hosts);
      BatchAt(store, pending, id);
    }
    assert after.Keys == MigratedStore(hosts, store).Keys;
  }

  lemma MigratedEntryAt(hosts: Registry, store: Store, id: string)
    ensures EntryOf(MigratedStore(hosts, store), id) == MigratedEntry(hosts, store, id)
  {
  }

  // ----- Which hosts resolve as before -----

  /** What the entry of a migrated host resolves to: an API key that is there already wins over a password. */
  function Winner(store: Store, name: string, auth: SecretAuth): SecretAuth {
    match EntryOf(store, name).apiKey
    case Some(key) => if auth.Basic? then ApiKey(key) else auth
    case None => auth
  }

  lemma WinnerResolves(store: Store, name: string, auth: SecretAuth)
    ensures EntryOf(store, name).Upserted(auth).ResolveAuth() == Some(Winner(store, name, auth))
  {
  }

  /** Nothing is moved under `id`, or what is moved there leaves it resolving as it did. */
  predicate EntryKept(hosts: Registry, store: Store, id: string) {
    IsLegacy(hosts, id) ==> ResolveSecret(store, id) == Some(Winner(store, id, hosts[id].credential.auth))
  }

  /** When a host resolves after migration as before it. */
  predicate HostKept(hosts: Registry, store: Store, name: string)
    requires name in hosts
  {
    match hosts[name].credential
    case Keystore(id) => EntryKept(hosts, store, id)
    case Legacy(auth, None) => Winner(store, name, auth) == auth
    case Legacy(auth, Some(id)) => ResolveSecret(store, id) == Some(Winner(store, name, auth))
    case _ => true
  }

  /** The host resolves to the same before and after. */
  predicate ResolvesAlike(hosts: Registry, store: Store, hostsAfter: Registry, storeAfter: Store, name: string) {
    && name in hosts && name in hostsAfter
    && Resolve(hostsAfter[name].credential, Some(storeAfter)) == Resolve(hosts[name].credential, Some(store))
  }

  lemma EntryKeptExactly(hosts: Registry, store: Store, id: string)
    ensures ResolveReference(Some(MigratedStore(hosts, store)), id) == ResolveReference(Some(store), id) <==>
              EntryKept(hosts, store, id)
  {
    MigratedEntryAt(hosts, store, id);
    if IsLegacy(hosts, id) {
      var auth := hosts[id].credential.auth;
      WinnerResolves(store, id, auth);
      if ResolveSecret(store, id).Some? {
        AsAuthIsInjective(ResolveSecret(store, id).value, Winner(store, id, auth));
      }
    }
  }

  /**
   * A host resolves after migration as before it exactly when: it has no credential or one given at run time;
   * or the entry it references keeps its meaning; or it held plaintext without a reference and no API key of its
   * own name wins over it; or the entry that it referenced, which did win over the plaintext, resolved to the same.
   */
  lemma MigrationKeepsExactly(hosts: Registry, store: Store, name: string)
    requires name in hosts
    ensures ResolvesAlike(hosts, store, MigratedHosts(hosts), MigratedStore(hosts, store), name) <==>
              HostKept(hosts, store, name)
  {
    match hosts[name].credential
    case Keystore(id) => EntryKeptExactly(hosts, store, id);
    case Legacy(auth, secret) =>
      MigratedEntryAt(hosts, store, name);
      WinnerResolves(store, name, auth);
      AsAuthIsInjective(Winner(store, name, auth), auth);
      if secret.Some? && ResolveSecret(store, secret.value).Some? {
        AsAuthIsInjective(Winner(store, name, auth), ResolveSecret(store, secret.value).value);
      }
    case _ =>
  }

  /** Between the keystore's write and the hosts' write, exactly the entries that are referenced matter. */
  lemma InterruptedKeepsExactly(hosts: Registry, store: Store, name: string)
    requires name in hosts
    ensures ResolvesAlike(hosts, store, hosts, MigratedStore(hosts, store), name) <==>
              (SecretReference(hosts[name].credential).Some? ==>
                 EntryKept(hosts, store, SecretReference(hosts[name].credential).value))
  {
    var reference := SecretReference(hosts[name].credential);
    if reference.Some? {
      EntryKeptExactly(hosts, store, reference.value);
    }
  }

  /** What a user can make sure of before migrating. */
  predicate Straightforward(hosts: Registry, store: Store) {
    forall name :: name in hosts ==>
      && (hosts[name].credential.Legacy? ==>
            && hosts[name].credential.secret.None?
            && (hosts[name].credential.auth.Basic? ==> EntryOf(store, name).apiKey.None?))
      && (SecretReference(hosts[name].credential).Some? ==>
            !IsLegacy(hosts, SecretReference(hosts[name].credential).value))
  }

  /** Then every host resolves as before, both when the migration completes and when it stops between its writes. */
  lemma StraightforwardKeepsAll(hosts: Registry, store: Store, name: string)
    requires Straightforward(hosts, store) && name in hosts
    ensures ResolvesAlike(hosts, store, hosts, MigratedStore(hosts, store), name)
    ensures ResolvesAlike(hosts, store, MigratedHosts(hosts), MigratedStore(hosts, store), name)
  {
    InterruptedKeepsExactly(hosts, store, name);
    MigrationKeepsExactly(hosts, store, name);
  }

  // ----- The hosts file afterwards -----

  /** Migrated hosts can be written exactly when every template's name is one; all else was checked on reading. */
  lemma MigratedIsWritableExactly(rules: Rules, hosts: Registry, file: File)
    requires ParseHosts(rules, file) == Ok(hosts)
    ensures Writable(rules, MigratedHosts(hosts), file) <==>
              forall name :: name in hosts && IsTemplate(hosts[name]) ==> IsTemplateName(name)
  {
    var migrated := MigratedHosts(hosts);
    forall name | name in hosts
      ensures Acceptable(name, migrated[name]) <==> (IsTemplate(hosts[name]) ==> IsTemplateName(name))
    {
      ParsedIsNormal(rules, file, name);
    }
    ParsedIsClosed(rules, file);
    MigratedLinks(hosts);
    WritableExactly(rules, migrated, file);
    if Writable(rules, migrated, file) {
      forall name | name in hosts && IsTemplate(hosts[name])
        ensures IsTemplateName(name)
      {
        assert Acceptable(name, migrated[name]);
      }
    }
  }

  lemma ParsedIsNormal(rules: Rules, file: File, name: string)
    requires ParseHosts(rules, file).Ok? && name in ParseHosts(rules, file).value
    ensures var host := ParseHosts(rules, file).value[name];
            && Roles.AllAllowed(host.app, IsTemplate(host), host.roles)
            && Roles.Normalized(host.roles) == host.roles
            && !host.credential.Runtime?
  {
    var wire := file.wires[name];
    Roles.AlreadyNormalExactly(FromWire(rules, wire).value.roles);
  }

  lemma ParsedIsClosed(rules: Rules, file: File)
    requires ParseHosts(rules, file).Ok?
    ensures ClosedViewers(ParseHosts(rules, file).value)
  {
  }

  lemma MigratedLinks(hosts: Registry)
    requires ClosedViewers(hosts)
    ensures LinksAcceptable(MigratedHosts(hosts))
  {
    forall name | name in hosts && hosts[name].viewer.Some?
      ensures Roles.Send in hosts[name].roles && hosts[name].viewer.value in hosts
      ensures Roles.View in hosts[hosts[name].viewer.value].roles
    {
      assert HasViewer(hosts, hosts[name]);
    }
  }

  lemma MigratedIsCanonical(rules: Rules, hosts: Registry)
    requires AllCanonical(rules, hosts)
    ensures AllCanonical(rules, MigratedHosts(hosts))
  {
    forall name | name in hosts
      ensures Canonical(rules, MigratedHost(name, hosts[name]))
    {
      var host := hosts[name];
      assert Canonical(rules, host);
      assert FromParts(rules, MigratedHost(name, host)).value
          == FromParts(rules, host).value.(credential := MigratedHost(name, host).credential);
    }
  }

  lemma NothingToMigrate(hosts: Registry, store: Store)
    requires AllClean(hosts)
    ensures LegacyNames(hosts) == {} && MigratedHosts(hosts) == hosts && MigratedStore(hosts, store) == store
  {
  }

  /** A second migration finds nothing to move, and leaves the file and the keystore as they are. */
  lemma SecondMigrationIsIdentity(rules: Rules, file: File, store: Store)
    requires ParseHosts(rules, file).Ok?
    requires Writable(rules, MigratedHosts(ParseHosts(rules, file).value), file)
    ensures var written := Written(MigratedHosts(ParseHosts(rules, file).value));
            && ParseHosts(rules, written).Ok?
            && var hosts := ParseHosts(rules, written).value;
               && LegacyNames(hosts) == {} && MigratedStore(hosts, store) == store
               && Writable(rules, MigratedHosts(hosts), written)
               && Written(MigratedHosts(hosts)) == written
  {
    var migrated := MigratedHosts(ParseHosts(rules, file).value);
    ParsedIsCanonical(rules, file);
    MigratedIsCanonical(rules, ParseHosts(rules, file).value);
    RoundTripsExactly(rules, migrated, file);
    RewritingIsIdentity(rules, migrated, file);
    PreparedHostsAreClean(rules, migrated);
    DetachedIsClean(PreparedHosts(migrated));
    NothingToMigrate(Detached(PreparedHosts(migrated)), store);
  }

  /** What is read back of a migrated host resolves as the migrated host does. */
  lemma ReadBackResolves(rules: Rules, file: File, keystore: Unlocked, name: string)
    requires ParseHosts(rules, file).Ok? && name in ParseHosts(rules, file).value
    requires Writable(rules, MigratedHosts(ParseHosts(rules, file).value), file)
    ensures var migrated := MigratedHosts(ParseHosts(rules, file).value);
            var read := ParseHosts(rules, Written(migrated));
            && read.Ok? && name in read.value
            && Resolve(read.value[name].credential, keystore) == Resolve(migrated[name].credential, keystore)
  {
    var migrated := MigratedHosts(ParseHosts(rules, file).value);
    ParsedIsCanonical(rules, file);
    MigratedIsCanonical(rules, ParseHosts(rules, file).value);
    RoundTripsExactly(rules, migrated, file);
    PreparedExactly(name, migrated[name]);
    PersistedResolvesTheSame(migrated[name].credential, keystore);
  }

  /**
   * From file to file: a host that is read from the migrated file resolves with the migrated keystore as it did
   * before the migration with the old file and keystore, exactly under the condition for its kind of credential.
   */
  lemma MigratedFilesKeepExactly(rules: Rules, file: File, store: Store, name: string)
    requires ParseHosts(rules, file).Ok? && name in ParseHosts(rules, file).value
    requires Writable(rules, MigratedHosts(ParseHosts(rules, file).value), file)
    ensures var hosts := ParseHosts(rules, file).value;
            var read := ParseHosts(rules, Written(MigratedHosts(hosts)));
            && read.Ok?
            && (ResolvesAlike(hosts, store, read.value, MigratedStore(hosts, store), name) <==>
                  HostKept(hosts, store, name))
  {
    var hosts := ParseHosts(rules, file).value;
    ReadBackResolves(rules, file, Some(MigratedStore(hosts, store)), name);
    MigrationKeepsExactly(hosts, store, name);
  }

  // ----- Plaintext entries, from file to file -----

  /** What the file and the keystore hold for an entry after the migration of a file. */
  predicate MigratesTo(rules: Rules, wires: map<string, Wire>, store: Store, name: string, auth: Auth) {
    && ParseHosts(rules, Entries(wires)).Ok?
    && var hosts := ParseHosts(rules, Entries(wires)).value;
       && AllPrepared(MigratedHosts(hosts))
       && var read := ParseHosts(rules, Written(MigratedHosts(hosts)));
          && read.Ok? && name in read.value
          && SecretReference(read.value[name].credential) == Some(name)
          && Resolve(read.value[name].credential, Some(MigratedStore(hosts, store))) == Ok(auth)
  }

  lemma LegacyReads(rules: Rules, wires: map<string, Wire>, name: string, auth: SecretAuth)
    requires name in wires && ParseHosts(rules, Entries(wires)).Ok?
    requires PlaintextIs(wires[name], AsAuth(auth))
    ensures var hosts := ParseHosts(rules, Entries(wires)).value;
            name in hosts && hosts[name].credential == Legacy(auth, wires[name].secret)
  {
    ReadUnder(rules, wires, name);
    ReadCredential(rules, wires[name]);
  }

  lemma MigratedReads(rules: Rules, wires: map<string, Wire>, store: Store, name: string, auth: SecretAuth)
    requires name in wires && ParseHosts(rules, Entries(wires)).Ok?
    requires PlaintextIs(wires[name], AsAuth(auth))
    requires Writable(rules, MigratedHosts(ParseHosts(rules, Entries(wires)).value), Entries(wires))
    ensures MigratesTo(rules, wires, store, name, AsAuth(Winner(store, name, auth)))
  {
    var hosts := ParseHosts(rules, Entries(wires)).value;
    LegacyReads(rules, wires, name, auth);
    ReadBackResolves(rules, Entries(wires), Some(MigratedStore(hosts, store)), name);
    ReadBackReferences(rules, Entries(wires), name);
    MigratedEntryAt(hosts, store, name);
    WinnerResolves(store, name, auth);
  }

  lemma ReadBackReferences(rules: Rules, file: File, name: string)
    requires ParseHosts(rules, file).Ok? && name in ParseHosts(rules, file).value
    requires Writable(rules, MigratedHosts(ParseHosts(rules, file).value), file)
    ensures var migrated := MigratedHosts(ParseHosts(rules, file).value);
            var read := ParseHosts(rules, Written(migrated));
            && read.Ok? && name in read.value
            && SecretReference(read.value[name].credential) == SecretReference(migrated[name].credential)
  {
    var migrated := MigratedHosts(ParseHosts(rules, file).value);
    ParsedIsCanonical(rules, file);
    MigratedIsCanonical(rules, ParseHosts(rules, file).value);
    RoundTripsExactly(rules, migrated, file);
    PreparedExactly(name, migrated[name]);
  }

  /**
   * A username and a password in plaintext are, after the migration, what the entry resolves to through the keystore,
   * in their order, unless the keystore already held an API key of its name, which then wins.
   */
  lemma PlainPasswordMigrates(rules: Rules, wires: map<string, Wire>, store: Store, name: string, username: string,
                              password: string)
    requires name in wires && ParseHosts(rules, Entries(wires)).Ok?
    requires wires[name].apiKey.None?
    requires wires[name].username == Some(username) && wires[name].password == Some(password)
    requires Writable(rules, MigratedHosts(ParseHosts(rules, Entries(wires)).value), Entries(wires))
    ensures MigratesTo(rules, wires, store, name,
                       if name in store && store[name].apiKey.Some? then ApiKeyAuth(store[name].apiKey.value)
                       else BasicAuth(username, password))
  {
    MigratedReads(rules, wires, store, name, Basic(username, password));
  }

  /** An API key in plaintext always is. */
  lemma PlainKeyMigrates(rules: Rules, wires: map<string, Wire>, store: Store, name: string, key: string)
    requires name in wires && ParseHosts(rules, Entries(wires)).Ok?
    requires wires[name].apiKey == Some(key) && wires[name].username.None? && wires[name].password.None?
    requires Writable(rules, MigratedHosts(ParseHosts(rules, Entries(wires)).value), Entries(wires))
    ensures MigratesTo(rules, wires, store, name, ApiKeyAuth(key))
  {
    MigratedReads(rules, wires, store, name, ApiKey(key));
  }

  /** Everything but the credential of a host is as it was, in the file that is written. */
  lemma OnlyCredentialsMigrate(rules: Rules, file: File, name: string)
    requires ParseHosts(rules, file).Ok? && name in ParseHosts(rules, file).value
    requires Writable(rules, MigratedHosts(ParseHosts(rules, file).value), file)
    ensures var hosts := ParseHosts(rules, file).value;
            var read := ParseHosts(rules, Written(MigratedHosts(hosts)));
            && read.Ok? && read.value.Keys == hosts.Keys
            && read.value[name] == hosts[name].(credential := read.value[name].credential)
  {
    var hosts := ParseHosts(rules, file).value;
    var migrated := MigratedHosts(hosts);
    ParsedIsCanonical(rules, file);
    ParsedIsNormal(rules, file, name);
    MigratedIsCanonical(rules, hosts);
    RoundTripsExactly(rules, migrated, file);
    PreparedExactly(name, migrated[name]);
    assert Detached(hosts)[name] == hosts[name];
  }
}
