/** The entries of the keystore: each holds at most one API key and at most one username and password. */
module Secrets {
  import opened Text

  datatype SecretAuth = ApiKey(key: string) | Basic(username: string, password: string)

  datatype BasicSecret = BasicSecret(username: string, password: string)

  datatype SecretEntry = SecretEntry(apiKey: Option<string>, basic: Option<BasicSecret>) {
    predicate IsEmpty() {
      apiKey.None? && basic.None?
    }

    /** Puts `auth` in its half of the entry. */
    function Upserted(auth: SecretAuth): SecretEntry {
      match auth
      case ApiKey(key) => this.(apiKey := Some(key))
      case Basic(username, password) => this.(basic := Some(BasicSecret(username, password)))
    }

    function Removed(auth: SecretAuth): SecretEntry {
      match auth
      case ApiKey(_) => this.(apiKey := None)
      case Basic(_, _) => this.(basic := None)
    }

    /** An API key wins over a username and password. */
    function ResolveAuth(): Option<SecretAuth> {
      match apiKey
      case Some(key) => Some(ApiKey(key))
      case None =>
        match basic
        case Some(BasicSecret(username, password)) => Some(Basic(username, password))
        case None => None
    }

    predicate Contains(auth: SecretAuth) {
      match auth
      case ApiKey(key) => apiKey == Some(key)
      case Basic(username, password) => basic == Some(BasicSecret(username, password))
    }
  }

  const NO_ENTRY := SecretEntry(None, None)

  type Store = map<string, SecretEntry>

  function EntryOf(store: Store, id: string): SecretEntry {
    if id in store then store[id] else NO_ENTRY
  }

  function ResolveSecret(store: Store, id: string): Option<SecretAuth> {
    EntryOf(store, id).ResolveAuth()
  }

  // ----- What the operations make of a store -----

  datatype Error =
    | InvalidAuth
    | Unreadable
    | AlreadyExists
    | NotFound
    | Referenced
    | ReferencesUnknown
    | Mismatch
    | NotWritten
    | Locked
    | PromptFailed

  function ParseAuth(username: Option<string>, password: Option<string>, apiKey: Option<string>)
    : Result<SecretAuth, Error>
  {
    match (apiKey, username, password)
    case (Some(key), None, None) => Ok(ApiKey(key))
    case (None, Some(u), Some(p)) => Ok(Basic(u, p))
    case _ => Err(InvalidAuth)
  }

  function Upsert(store: Store, id: string, auth: SecretAuth): Store {
    store[id := EntryOf(store, id).Upserted(auth)]
  }

  function UpsertAll(store: Store, entries: seq<(string, SecretAuth)>): Store
    decreases |entries|
  {
    if entries == [] then store
    else UpsertAll(Upsert(store, entries[0].0, entries[0].1), entries[1..])
  }

  function Add(store: Store, id: string, auth: SecretAuth): Result<Store, Error> {
    if id in store then Err(AlreadyExists) else Ok(Upsert(store, id, auth))
  }

  function Update(store: Store, id: string, auth: SecretAuth): Result<Store, Error> {
    if id !in store then Err(NotFound) else Ok(store[id := NO_ENTRY.Upserted(auth)])
  }

  function Remove(store: Store, id: string, expected: Option<SecretAuth>, referenced: bool): Result<Store, Error> {
    if id !in store then Err(NotFound)
    else if referenced then Err(Referenced)
    else
      match expected
      case None => Ok(store - {id})
      case Some(auth) =>
        if !store[id].Contains(auth) then Err(Mismatch)
        else if store[id].Removed(auth).IsEmpty() then Ok(store - {id})
        else Ok(store[id := store[id].Removed(auth)])
  }

  /** The stores agree on everything but `id`. */
  ghost predicate SameBut(id: string, before: Store, after: Store) {
    forall other :: other != id ==>
      (other in after <==> other in before) && EntryOf(after, other) == EntryOf(before, other)
  }

  // ----- What the entries then resolve to -----

  /** What was put in is what comes out exactly when it is an API key or none is there to win; the other half stays. */
  lemma UpsertResolvesExactly(store: Store, id: string, auth: SecretAuth)
    ensures ResolveSecret(Upsert(store, id, auth), id) == Some(auth) <==>
              auth.ApiKey? || EntryOf(store, id).apiKey.None?
    ensures Upsert(store, id, auth)[id].Contains(auth)
    ensures Upsert(store, id, auth)[id].Removed(auth) == EntryOf(store, id).Removed(auth)
    ensures SameBut(id, store, Upsert(store, id, auth))
  {
  }

  /** An update leaves nothing of the old entry. */
  lemma UpdateResolves(store: Store, id: string, auth: SecretAuth)
    ensures Update(store, id, auth).Ok? <==> id in store
    ensures Update(store, id, auth).Ok? ==>
              && ResolveSecret(Update(store, id, auth).value, id) == Some(auth)
              && SameBut(id, store, Update(store, id, auth).value)
  {
  }

  /** An addition succeeds exactly for new names, and a removal undoes it. */
  lemma RemoveUndoesAdd(store: Store, id: string, auth: SecretAuth, expected: Option<SecretAuth>)
    requires expected.Some? ==> expected.value == auth
    ensures Add(store, id, auth).Ok? <==> id !in store
    ensures Add(store, id, auth).Ok? ==>
              && ResolveSecret(Add(store, id, auth).value, id) == Some(auth)
              && SameBut(id, store, Add(store, id, auth).value)
              && Remove(Add(store, id, auth).value, id, expected, false) == Ok(store)
  {
    if id !in store {
      var added := Add(store, id, auth).value;
      assert added - {id} == store;
    }
  }

  /**
   * A removal succeeds exactly for an unreferenced entry that holds the expected half; the other half stays,
   * and what is left still resolves exactly when there is one.
   */
  lemma RemoveExactly(store: Store, id: string, expected: Option<SecretAuth>, referenced: bool)
    ensures Remove(store, id, expected, referenced).Ok? <==>
              id in store && !referenced && (expected.Some? ==> store[id].Contains(expected.value))
    ensures Remove(store, id, expected, referenced).Ok? ==>
              && SameBut(id, store, Remove(store, id, expected, referenced).value)
              && EntryOf(Remove(store, id, expected, referenced).value, id)
              == (if expected.Some? then store[id].Removed(expected.value) else NO_ENTRY)
              && (ResolveSecret(Remove(store, id, expected, referenced).value, id).Some? <==>
                    expected.Some? && !store[id].Removed(expected.value).IsEmpty())
  {
  }

  /** With an expected half, a removal succeeds exactly when the entry holds that very half. */
  lemma RemoveHalfExactly(store: Store, id: string, key: string, username: string, password: string)
    ensures Remove(store, id, Some(ApiKey(key)), false).Ok? <==> id in store && store[id].apiKey == Some(key)
    ensures Remove(store, id, Some(Basic(username, password)), false).Ok? <==>
              id in store && store[id].basic == Some(BasicSecret(username, password))
    ensures id in store ==> Remove(store, id, None, false) == Ok(store - {id})
  {
  }

  /** No two entries of a batch have the same name. */
  predicate Distinct(entries: seq<(string, SecretAuth)>) {
    forall i, j :: 0 <= i < j < |entries| ==> entries[i].0 != entries[j].0
  }

  /** A batch puts each of its entries in and leaves every other entry alone. */
  lemma {:induction false} BatchAt(store: Store, entries: seq<(string, SecretAuth)>, id: string)
    requires Distinct(entries)
    ensures (forall k :: 0 <= k < |entries| ==> entries[k].0 != id) ==>
              && (id in UpsertAll(store, entries) <==> id in store)
              && EntryOf(UpsertAll(store, entries), id) == EntryOf(store, id)
    ensures forall k :: 0 <= k < |entries| && entries[k].0 == id ==>
              && id in UpsertAll(store, entries)
              && EntryOf(UpsertAll(store, entries), id) == EntryOf(store, id).Upserted(entries[k].1)
    decreases |entries|
  {
    if entries != [] {
      var rest := entries[1..];
      assert forall k :: 0 < k < |entries| ==> entries[k] == rest[k - 1];
      BatchAt(Upsert(store, entries[0].0, entries[0].1), rest, id);
    }
  }
}
