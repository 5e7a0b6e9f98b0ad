/** Where a host's credential comes from, and what it resolves to. */
module Credentials {
  import opened Text
  import opened Secrets

  /** Credential material; `None` in the sources' terms is no authentication. */
  datatype Auth = NoAuth | ApiKeyAuth(key: string) | BasicAuth(username: string, password: string)

  datatype Credential =
    | NoCredential
    | Keystore(id: string)
    | Runtime(auth: SecretAuth)
    | Legacy(auth: SecretAuth, secret: Option<string>)

  function AsAuth(auth: SecretAuth): Auth {
    match auth
    case ApiKey(key) => ApiKeyAuth(key)
    case Basic(username, password) => BasicAuth(username, password)
  }

  function FromRuntime(auth: Auth): Credential {
    match auth
    case NoAuth => NoCredential
    case ApiKeyAuth(key) => Runtime(ApiKey(key))
    case BasicAuth(username, password) => Runtime(Basic(username, password))
  }

  /** The credential fields of a `hosts.yml` entry. */
  function FromHostsYml(secret: Option<string>, auth: Auth): Credential {
    match FromRuntime(auth)
    case Runtime(a) => Legacy(a, secret)
    case _ => if secret.Some? then Keystore(secret.value) else NoCredential
  }

  datatype PartsError = KeyWithBasic | HalfBasic

  /** Authentication given in parts. */
  function AuthFromParts(apiKey: Option<string>, username: Option<string>, password: Option<string>)
    : Result<Auth, PartsError>
  {
    match (apiKey, username, password)
    case (Some(key), None, None) => Ok(ApiKeyAuth(key))
    case (None, Some(u), Some(p)) => Ok(BasicAuth(u, p))
    case (None, None, None) => Ok(NoAuth)
    case (Some(_), _, _) => Err(KeyWithBasic)
    case _ => Err(HalfBasic)
  }

  function SecretReference(credential: Credential): Option<string> {
    match credential
    case Keystore(id) => Some(id)
    case Legacy(_, secret) => secret
    case _ => None
  }

  function LegacyAuth(credential: Credential): Option<SecretAuth> {
    match credential
    case Legacy(auth, _) => Some(auth)
    case _ => None
  }

  datatype PersistError = PlaintextLegacy | PlaintextRuntime

  /** What of a credential may be written to `hosts.yml`. */
  function Persisted(credential: Credential): Result<Credential, PersistError> {
    match credential
    case Legacy(_, Some(id)) => Ok(Keystore(id))
    case Legacy(_, None) => Err(PlaintextLegacy)
    case Runtime(_) => Err(PlaintextRuntime)
    case _ => Ok(credential)
  }

  /** An unlocked keystore answers with its entries; a locked one with nothing. */
  type Unlocked = Option<Store>

  function ResolveReference(keystore: Unlocked, id: string): Result<Auth, Error> {
    match keystore
    case None => Err(Locked)
    case Some(store) =>
      match ResolveSecret(store, id)
      case Some(auth) => Ok(AsAuth(auth))
      case None => Err(NotFound)
  }

  function Resolve(credential: Credential, keystore: Unlocked): Result<Auth, Error> {
    match credential
    case NoCredential => Ok(NoAuth)
    case Keystore(id) => ResolveReference(keystore, id)
    case Runtime(auth) => Ok(AsAuth(auth))
    case Legacy(_, Some(id)) => ResolveReference(keystore, id)
    case Legacy(auth, None) => Ok(AsAuth(auth))
  }

  /** What a secret of the keystore stands for: its API key, or else its username and password. */
  predicate StandsFor(store: Store, id: string, auth: Auth) {
    && id in store
    && match store[id].apiKey
       case Some(key) => auth == ApiKeyAuth(key)
       case None =>
         store[id].basic.Some? && auth == BasicAuth(store[id].basic.value.username, store[id].basic.value.password)
  }

  lemma SecretExactly(store: Store, id: string, auth: Auth)
    ensures ResolveReference(Some(store), id) == Ok(auth) <==> StandsFor(store, id, auth)
  {
  }

  lemma AsAuthIsInjective(a: SecretAuth, b: SecretAuth)
    ensures AsAuth(a) == AsAuth(b) <==> a == b
  {
  }

  /** What is written never holds plaintext, and resolves to the same whenever anything may be written. */
  lemma PersistedResolvesTheSame(credential: Credential, keystore: Unlocked)
    ensures Persisted(credential).Ok? <==> SecretReference(credential).Some? || credential.NoCredential?
    ensures Persisted(credential).Ok? ==>
              var persisted := Persisted(credential).value;
              && (persisted.NoCredential? || persisted.Keystore?)
              && Resolve(persisted, keystore) == Resolve(credential, keystore)
              && FromHostsYml(SecretReference(persisted), NoAuth) == persisted
  {
  }

  /** A credential resolves through the one entry it references. */
  lemma ResolvesThroughItsReference(credential: Credential, before: Store, after: Store)
    requires SecretReference(credential).Some? ==>
               EntryOf(before, SecretReference(credential).value) == EntryOf(after, SecretReference(credential).value)
    ensures Resolve(credential, Some(before)) == Resolve(credential, Some(after))
  {
  }

  // ----- Removing a secret that hosts may reference -----

  type Hosts = map<string, Credential>

  /** The saved jobs, each with the names of the hosts it references. */
  type Jobs = map<string, seq<string>>

  predicate HostReferences(hosts: Hosts, name: string, id: string) {
    name in hosts && SecretReference(hosts[name]) == Some(id)
  }

  predicate JobReferences(jobs: Jobs, job: string, hosts: Hosts, id: string) {
    job in jobs && exists k :: 0 <= k < |jobs[job]| && HostReferences(hosts, jobs[job][k], id)
  }

  predicate IsReferenced(hosts: Hosts, jobs: Jobs, id: string) {
    || (exists name :: name in hosts && HostReferences(hosts, name, id))
    || (exists job :: job in jobs && JobReferences(jobs, job, hosts, id))
  }

  /** Files that cannot be read may reference anything. */
  predicate MayBeReferenced(hosts: Option<Hosts>, jobs: Option<Jobs>, id: string) {
    hosts.None? || jobs.None? || IsReferenced(hosts.value, jobs.value, id)
  }

  /** A job can only reference a secret through a saved host that does. */
  lemma ReferencedByHosts(hosts: Hosts, jobs: Jobs, id: string)
    ensures IsReferenced(hosts, jobs, id) <==> exists name :: name in hosts && HostReferences(hosts, name, id)
  {
    if job :| job in jobs && JobReferences(jobs, job, hosts, id) {
      var k :| 0 <= k < |jobs[job]| && HostReferences(hosts, jobs[job][k], id);
      assert jobs[job][k] in hosts;
    }
  }

  /** Every saved host resolves to the same with either store. */
  predicate ResolveAlike(hosts: Hosts, before: Store, after: Store) {
    forall name :: name in hosts ==> Resolve(hosts[name], Some(after)) == Resolve(hosts[name], Some(before))
  }

  /** A removal that succeeds changes nothing that a saved host resolves to. */
  lemma RemovalKeepsEveryHost(store: Store, id: string, expected: Option<SecretAuth>, hosts: Hosts, jobs: Jobs,
                              name: string)
    requires name in hosts
    requires Remove(store, id, expected, IsReferenced(hosts, jobs, id)).Ok?
    ensures var left := Remove(store, id, expected, IsReferenced(hosts, jobs, id)).value;
            Resolve(hosts[name], Some(left)) == Resolve(hosts[name], Some(store))
  {
    ReferencedByHosts(hosts, jobs, id);
    RemoveExactly(store, id, expected, false);
    var left := Remove(store, id, expected, IsReferenced(hosts, jobs, id)).value;
    assert !HostReferences(hosts, name, id);
    ResolvesThroughItsReference(hosts[name], store, left);
  }
}
