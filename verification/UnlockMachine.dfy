/** The sealed keystore file and the time-limited lease file that carries its password. */
module UnlockMachine {
  import opened Text
  import opened Secrets

  // ----- The two files -----

  /** A keystore seals its entries: only the password it was written with opens it. */
  datatype StoreFile = NoStore | BadStore | Sealed(password: string, secrets: Store)

  /** A lease seals a keystore password for one machine context. */
  datatype LeaseFile = NoLease | BadLease | Lease(context: string, version: nat, expires: int, password: string)

  datatype Disk = Disk(store: StoreFile, lease: LeaseFile)

  /** When and where a command runs, and whether deleting a file works there. */
  datatype Moment = Moment(now: int, context: string, deletes: bool)

  const MAX_EPOCH: int := 0x7fff_ffff_ffff_ffff
  const LEASE_VERSION := 1

  // ----- Reading -----

  /** A missing keystore reads as an empty one under every password. */
  function ReadStore(store: StoreFile, password: string): Result<Store, Error> {
    match store
    case NoStore => Ok(map[])
    case BadStore => Err(Unreadable)
    case Sealed(p, secrets) => if p == password then Ok(secrets) else Err(Unreadable)
  }

  predicate StoreExists(store: StoreFile) {
    !store.NoStore?
  }

  predicate ValidatesExisting(store: StoreFile, password: string) {
    StoreExists(store) && ReadStore(store, password).Ok?
  }

  predicate Decrypts(lease: LeaseFile, at: Moment) {
    lease.Lease? && lease.context == at.context && lease.version == LEASE_VERSION
  }

  predicate Active(lease: LeaseFile, at: Moment) {
    Decrypts(lease, at) && lease.expires > at.now
  }

  function Deleted(lease: LeaseFile, at: Moment): LeaseFile {
    if at.deletes then NoLease else lease
  }

  /** An expired lease is deleted when it is read; one that cannot be decrypted stays. */
  function AfterReading(lease: LeaseFile, at: Moment): LeaseFile {
    if Decrypts(lease, at) && !Active(lease, at) then Deleted(lease, at) else lease
  }

  /** The password of a lease that opens the keystore of this moment. */
  function LeasedPassword(disk: Disk, at: Moment): Option<string> {
    if Active(disk.lease, at) && ValidatesExisting(disk.store, disk.lease.password) then Some(disk.lease.password)
    else None
  }

  /** The lease file after both getters' test of the lease. */
  function AfterTesting(disk: Disk, at: Moment): LeaseFile {
    if Active(disk.lease, at) && !ValidatesExisting(disk.store, disk.lease.password) then Deleted(disk.lease, at)
    else AfterReading(disk.lease, at)
  }

  // ----- The getters -----

  datatype Source = Scoped | Environment | Leased | Remembered | Prompted

  /** What can supply a password besides the lease. */
  datatype Supply = Supply(
    scoped: Option<string>, environment: Option<string>, interactive: bool, remembered: Option<string>,
    answer: Option<string>)

  datatype Answer = Answer(result: Result<(Source, string), Error>, lease: LeaseFile, remembered: Option<string>)

  /** The getter for host secrets. */
  function KeystorePassword(disk: Disk, at: Moment, supply: Supply): Answer {
    if supply.scoped.Some? then Answer(Ok((Scoped, supply.scoped.value)), disk.lease, supply.remembered)
    else if supply.environment.Some? then
      Answer(Ok((Environment, supply.environment.value)), disk.lease, supply.remembered)
    else
      var lease := AfterTesting(disk, at);
      match LeasedPassword(disk, at)
      case Some(password) => Answer(Ok((Leased, password)), lease, supply.remembered)
      case None =>
        if !supply.interactive || !StoreExists(disk.store) then Answer(Err(Locked), lease, supply.remembered)
        else if supply.remembered.Some? then
          Answer(Ok((Remembered, supply.remembered.value)), lease, supply.remembered)
        else if supply.answer.None? then Answer(Err(PromptFailed), lease, None)
        else if !ValidatesExisting(disk.store, supply.answer.value) then Answer(Err(Unreadable), lease, None)
        else Answer(Ok((Prompted, supply.answer.value)), lease, supply.answer)
  }

  /** The getter for the secret commands, which does not validate what is typed. */
  function CommandPassword(disk: Disk, at: Moment, supply: Supply): Answer {
    if supply.environment.Some? then
      Answer(Ok((Environment, supply.environment.value)), disk.lease, supply.remembered)
    else
      var lease := AfterTesting(disk, at);
      match LeasedPassword(disk, at)
      case Some(password) => Answer(Ok((Leased, password)), lease, supply.remembered)
      case None =>
        if supply.interactive && supply.answer.Some? then
          Answer(Ok((Prompted, supply.answer.value)), lease, supply.remembered)
        else Answer(Err(if supply.interactive then PromptFailed else Locked), lease, supply.remembered)
  }

  datatype Status = Status(keystoreExists: bool, unlockActive: bool, expires: Option<int>)

  // ----- Changing the files -----

  function Saturated(n: int): int {
    if n > MAX_EPOCH then MAX_EPOCH else n
  }

  /** When a grant given now for `ttl` seconds ends. */
  function GrantEnd(at: Moment, ttl: nat): int {
    Saturated(at.now + Saturated(ttl))
  }

  function Granted(at: Moment, password: string, ttl: nat): LeaseFile {
    Lease(at.context, LEASE_VERSION, GrantEnd(at, ttl), password)
  }

  /** An edit of the entries under a password; `lands` is the outcome of the atomic replacement of the file. */
  function Edited(disk: Disk, password: string, edited: Result<Store, Error>, lands: bool): Disk {
    if ReadStore(disk.store, password).Ok? && edited.Ok? && lands then
      disk.(store := Sealed(password, edited.value))
    else disk
  }

  /** A batch without entries writes nothing. */
  function Batched(disk: Disk, entries: seq<(string, SecretAuth)>, password: string, lands: bool): Disk {
    match ReadStore(disk.store, password)
    case Err(_) => disk
    case Ok(secrets) =>
      if entries == [] || !lands then disk else disk.(store := Sealed(password, UpsertAll(secrets, entries)))
  }

  function Created(disk: Disk, password: string, lands: bool): Disk {
    if StoreExists(disk.store) || !lands then disk else disk.(store := Sealed(password, map[]))
  }

  /** How far a rotation gets: it writes the keystore, reads the lease, and writes the lease. */
  datatype RotationFate = RotationFate(storeLands: bool, readsLease: bool, leaseLands: bool)

  function Rotated(disk: Disk, current: string, next: string, at: Moment, fate: RotationFate): Disk {
    match ReadStore(disk.store, current)
    case Err(_) => disk
    case Ok(secrets) =>
      if !fate.storeLands then disk
      else
        var lease :=
          if !fate.readsLease then disk.lease
          else if !Active(disk.lease, at) then AfterReading(disk.lease, at)
          else if !fate.leaseLands then disk.lease
          else Lease(at.context, LEASE_VERSION, disk.lease.expires, next);
        Disk(Sealed(next, secrets), lease)
  }

  const COMPLETE := RotationFate(true, true, true)

  // ----- Runs -----

  datatype Step =
    | StepAdd(id: string, auth: SecretAuth, password: string, lands: bool)
    | StepUpdate(id: string, auth: SecretAuth, password: string, lands: bool)
    | StepRemove(id: string, expected: Option<SecretAuth>, referenced: bool, password: string, lands: bool)
    | StepUpsert(id: string, auth: SecretAuth, password: string, lands: bool)
    | StepBatch(entries: seq<(string, SecretAuth)>, password: string, lands: bool)
    | StepCreate(password: string, lands: bool)
    | StepGrant(at: Moment, password: string, ttl: nat, lands: bool)
    | StepClear(removes: bool)
    | StepRotate(at: Moment, current: string, next: string, fate: RotationFate)
    | StepTest(at: Moment)

  function Next(disk: Disk, step: Step): Disk {
    match step
    case StepAdd(id, auth, password, lands) =>
      Edited(disk, password, Add(Entries(disk), id, auth), lands)
    case StepUpdate(id, auth, password, lands) =>
      Edited(disk, password, Update(Entries(disk), id, auth), lands)
    case StepRemove(id, expected, referenced, password, lands) =>
      Edited(disk, password, Remove(Entries(disk), id, expected, referenced), lands)
    case StepUpsert(id, auth, password, lands) =>
      Edited(disk, password, Ok(Upsert(Entries(disk), id, auth)), lands)
    case StepBatch(entries, password, lands) => Batched(disk, entries, password, lands)
    case StepCreate(password, lands) => Created(disk, password, lands)
    case StepGrant(at, password, ttl, lands) => if lands then disk.(lease := Granted(at, password, ttl)) else disk
    case StepClear(removes) => if removes then disk.(lease := NoLease) else disk
    case StepRotate(at, current, next, fate) => Rotated(disk, current, next, at, fate)
    case StepTest(at) => disk.(lease := AfterTesting(disk, at))
  }

  function Run(disk: Disk, steps: seq<Step>): Disk
    decreases |steps|
  {
    if steps == [] then disk else Run(Next(disk, steps[0]), steps[1..])
  }

  /** The entries in the keystore file, whoever may open it. */
  function Entries(disk: Disk): Store {
    if disk.store.Sealed? then disk.store.secrets else map[]
  }

  // ----- The lease branch -----

  predicate NoOtherSupply(supply: Supply) {
    supply.scoped.None? && supply.environment.None?
  }

  predicate Opens(disk: Disk, password: string) {
    disk.store.Sealed? && disk.store.password == password
  }

  predicate OpenLease(disk: Disk, at: Moment, password: string) {
    Active(disk.lease, at) && disk.lease.password == password && Opens(disk, password)
  }

  /**
   * Both getters answer with a leased password exactly when an unexpired lease of this machine carries the
   * password that opens the keystore of this moment, and nothing given explicitly comes first.
   */
  lemma LeasedExactly(disk: Disk, at: Moment, supply: Supply, password: string)
    ensures KeystorePassword(disk, at, supply).result == Ok((Leased, password)) <==>
              NoOtherSupply(supply) && OpenLease(disk, at, password)
    ensures CommandPassword(disk, at, supply).result == Ok((Leased, password)) <==>
              supply.environment.None? && OpenLease(disk, at, password)
  {
  }

  /** A tested lease is gone exactly when it could be decrypted but opens nothing any more, if deleting works. */
  lemma UselessLeasesGoExactly(disk: Disk, at: Moment, supply: Supply)
    requires at.deletes && NoOtherSupply(supply)
    ensures KeystorePassword(disk, at, supply).lease == CommandPassword(disk, at, supply).lease
    ensures KeystorePassword(disk, at, supply).lease == disk.lease <==>
              disk.lease.NoLease? || (Decrypts(disk.lease, at) ==> OpenLease(disk, at, disk.lease.password))
    ensures KeystorePassword(disk, at, supply).lease != disk.lease ==>
              KeystorePassword(disk, at, supply).lease == NoLease
  {
  }

  /** A grant works on the same machine exactly until its duration has passed, or the clock's last second comes. */
  lemma GrantWorksExactly(disk: Disk, at: Moment, password: string, ttl: nat, later: Moment)
    requires Opens(disk, password) && at.now >= 0
    ensures LeasedPassword(Next(disk, StepGrant(at, password, ttl, true)), later).Some? <==>
              later.context == at.context && later.now < at.now + ttl && later.now < 0x7fff_ffff_ffff_ffff
  {
  }

  // ----- The other sources -----

  /** Neither a password given explicitly nor an open lease. */
  predicate NothingAtHand(disk: Disk, at: Moment, supply: Supply) {
    supply.environment.None? && !(disk.lease.Lease? && OpenLease(disk, at, disk.lease.password))
  }

  /**
   * A scoped password wins over the environment's and both over the lease; then the one remembered, and last the one
   * typed, which must open the keystore of this moment.
   */
  lemma KeystorePasswordExactly(disk: Disk, at: Moment, supply: Supply, password: string)
    ensures var result := KeystorePassword(disk, at, supply).result;
            var asks := supply.scoped.None? && NothingAtHand(disk, at, supply);
            var may := asks && supply.interactive && !disk.store.NoStore?;
            && (result == Ok((Scoped, password)) <==> supply.scoped == Some(password))
            && (result == Ok((Environment, password)) <==>
                  supply.scoped.None? && supply.environment == Some(password))
            && (result == Ok((Remembered, password)) <==> may && supply.remembered == Some(password))
            && (result == Ok((Prompted, password)) <==>
                  may && supply.remembered.None? && supply.answer == Some(password) && Opens(disk, password))
            && (result == Err(Locked) <==> asks && !may)
            && (result == Err(PromptFailed) <==> may && supply.remembered.None? && supply.answer.None?)
            && (result == Err(Unreadable) <==>
                  may && supply.remembered.None? && supply.answer.Some? && !Opens(disk, supply.answer.value))
  {
  }

  /** Only a typed password that opens the keystore is remembered, and nothing that was is forgotten. */
  lemma RememberedExactly(disk: Disk, at: Moment, supply: Supply)
    ensures var answer := KeystorePassword(disk, at, supply);
            answer.remembered ==
            if answer.result.Ok? && answer.result.value.0 == Prompted then Some(answer.result.value.1)
            else supply.remembered
  {
  }

  /** For the secret commands the environment wins over the lease, and what is typed is taken as it is. */
  lemma CommandPasswordExactly(disk: Disk, at: Moment, supply: Supply, password: string)
    ensures var answer := CommandPassword(disk, at, supply);
            var asks := NothingAtHand(disk, at, supply);
            && (answer.result == Ok((Environment, password)) <==> supply.environment == Some(password))
            && (answer.result == Ok((Prompted, password)) <==>
                  asks && supply.interactive && supply.answer == Some(password))
            && (answer.result == Err(PromptFailed) <==> asks && supply.interactive && supply.answer.None?)
            && (answer.result == Err(Locked) <==> asks && !supply.interactive)
            && (answer.result.Ok? ==> answer.result.value.0 != Scoped && answer.result.value.0 != Remembered)
            && answer.remembered == supply.remembered
  {
  }

  /** Calls of the getter in one process, which hands on what it remembers and the lease it leaves. */
  function Asked(disk: Disk, remembered: Option<string>, calls: seq<(Moment, Supply)>): (Disk, Option<string>)
    decreases |calls|
  {
    if calls == [] then (disk, remembered)
    else
      var answer := KeystorePassword(disk, calls[0].0, calls[0].1.(remembered := remembered));
      Asked(disk.(lease := answer.lease), answer.remembered, calls[1..])
  }

  /** Over every run of calls a password that is remembered opens the keystore, as long as that stays as it is. */
  lemma {:induction false} RememberedOpens(disk: Disk, remembered: Option<string>, calls: seq<(Moment, Supply)>)
    requires remembered.Some? ==> Opens(disk, remembered.value)
    ensures var (after, held) := Asked(disk, remembered, calls);
            after.store == disk.store && (held.Some? ==> Opens(disk, held.value))
    decreases |calls|
  {
    if calls != [] {
      var at, supply := calls[0].0, calls[0].1.(remembered := remembered);
      var answer := KeystorePassword(disk, at, supply);
      RememberedExactly(disk, at, supply);
      if answer.result.Ok? {
        KeystorePasswordExactly(disk, at, supply, answer.result.value.1);
      }
      RememberedOpens(disk.(lease := answer.lease), answer.remembered, calls[1..]);
    }
  }

  // ----- Rotation -----

  /** The keystore after a completed rotation opens with the new password alone, to the same entries. */
  lemma RotationKeepsEntries(disk: Disk, current: string, next: string, at: Moment, fate: RotationFate)
    requires ReadStore(disk.store, current).Ok? && fate.storeLands
    ensures var after := Rotated(disk, current, next, at, fate);
            && ReadStore(after.store, next) == ReadStore(disk.store, current)
            && (forall other :: ReadStore(after.store, other).Ok? <==> other == next)
  {
  }

  /**
   * After a completed rotation a lease works at a later moment exactly when it was unexpired during the
   * rotation and still is, and then it carries the new password and ends when it always would have.
   */
  lemma RotationRenewsExactly(disk: Disk, current: string, next: string, at: Moment, later: Moment)
    requires ReadStore(disk.store, current).Ok? && later.context == at.context && at.now <= later.now
    ensures var after := Rotated(disk, current, next, at, COMPLETE);
            && (LeasedPassword(after, later).Some? <==> Active(disk.lease, at) && later.now < disk.lease.expires)
            && (LeasedPassword(after, later).Some? ==> LeasedPassword(after, later) == Some(next))
            && (Active(disk.lease, at) ==> after.lease.Lease? && after.lease.expires == disk.lease.expires)
  {
  }

  /** Without a wrong password or a failed write a rotation deletes an expired lease, and leaves another machine's. */
  lemma RotationLeavesNoExpiredLease(disk: Disk, current: string, next: string, at: Moment, fate: RotationFate)
    ensures var after := Rotated(disk, current, next, at, fate);
            && (ReadStore(disk.store, current).Err? || !fate.storeLands ==> after == disk)
            && (ReadStore(disk.store, current).Ok? && fate.storeLands && fate.readsLease ==>
                  && (Decrypts(disk.lease, at) && disk.lease.expires <= at.now && at.deletes ==> after.lease == NoLease)
                  && (!Decrypts(disk.lease, at) ==> after.lease == disk.lease))
  {
  }

  /** A rotation also renews a lease that no longer opened the keystore, which any getter would have deleted. */
  lemma RotationRevives(disk: Disk, current: string, next: string, at: Moment)
    requires ReadStore(disk.store, current).Ok? && Active(disk.lease, at) && LeasedPassword(disk, at).None?
    ensures LeasedPassword(Rotated(disk, current, next, at, COMPLETE), at) == Some(next)
    ensures at.deletes ==>
              LeasedPassword(Rotated(Next(disk, StepTest(at)), current, next, at, COMPLETE), at).None?
  {
  }

  /**
   * A rotation that stops between its two writes leaves a lease that opens nothing, unless it happens to
   * carry the new password already; the next test deletes it.
   */
  lemma InterruptedRotationIsSafe(disk: Disk, current: string, next: string, at: Moment, fate: RotationFate,
                                  later: Moment)
    requires ReadStore(disk.store, current).Ok? && fate.storeLands && !(fate.readsLease && fate.leaseLands)
    ensures var after := Rotated(disk, current, next, at, fate);
            && (LeasedPassword(after, later).Some? <==>
                  OpenLease(disk.(store := after.store), later, next) && after.lease == disk.lease)
            && (later.deletes && Decrypts(after.lease, later) && LeasedPassword(after, later).None? ==>
                  AfterTesting(after, later) == NoLease)
  {
  }

  // ----- Every run: the entries -----

  /** The first entry makes the keystore, under whatever password comes with it; no entries make none. */
  lemma FirstEntryMakesTheKeystore(lease: LeaseFile, id: string, auth: SecretAuth, password: string)
    ensures var after := Next(Disk(NoStore, lease), StepAdd(id, auth, password, true));
            && Opens(after, password) && Entries(after).Keys == {id} && ResolveSecret(Entries(after), id) == Some(auth)
            && after.lease == lease
    ensures Next(Disk(NoStore, lease), StepBatch([], password, true)) == Disk(NoStore, lease)
    ensures Next(Disk(NoStore, lease), StepCreate(password, true)) == Disk(Sealed(password, map[]), lease)
  {
  }

  predicate Names(step: Step, id: string) {
    match step
    case StepBatch(entries, _, _) => exists k :: 0 <= k < |entries| && entries[k].0 == id
    case StepAdd(i, _, _, _) => i == id
    case StepUpdate(i, _, _, _) => i == id
    case StepRemove(i, _, _, _, _) => i == id
    case StepUpsert(i, _, _, _) => i == id
    case _ => false
  }

  /** A step changes no entry that it does not name. */
  lemma StepTouchesOnly(disk: Disk, step: Step, id: string)
    requires !Names(step, id)
    ensures id in Entries(Next(disk, step)) <==> id in Entries(disk)
    ensures EntryOf(Entries(Next(disk, step)), id) == EntryOf(Entries(disk), id)
  {
    match step
    case StepBatch(entries, password, lands) =>
      if ReadStore(disk.store, password).Ok? {
        BatchMisses(Entries(disk), entries, id);
      }
    case _ =>
  }

  lemma {:induction false} BatchMisses(store: Store, entries: seq<(string, SecretAuth)>, id: string)
    requires forall k :: 0 <= k < |entries| ==> entries[k].0 != id
    ensures id in UpsertAll(store, entries) <==> id in store
    ensures EntryOf(UpsertAll(store, entries), id) == EntryOf(store, id)
    decreases |entries|
  {
    if entries != [] {
      BatchMisses(Upsert(store, entries[0].0, entries[0].1), entries[1..], id);
    }
  }

  /** Over every run, rotations and interruptions included, an entry changes only by steps that name it. */
  lemma {:induction false} RunTouchesOnly(disk: Disk, steps: seq<Step>, id: string)
    requires forall k :: 0 <= k < |steps| ==> !Names(steps[k], id)
    ensures id in Entries(Run(disk, steps)) <==> id in Entries(disk)
    ensures EntryOf(Entries(Run(disk, steps)), id) == EntryOf(Entries(disk), id)
    decreases |steps|
  {
    if steps != [] {
      StepTouchesOnly(disk, steps[0], id);
      RunTouchesOnly(Next(disk, steps[0]), steps[1..], id);
    }
  }

  /** The password of a keystore changes only by a rotation that was given the old one. */
  lemma OnlyRotationsReseal(disk: Disk, step: Step)
    requires disk.store.Sealed?
    ensures Next(disk, step).store.Sealed?
    ensures Next(disk, step).store.password != disk.store.password ==>
              && step.StepRotate? && step.current == disk.store.password
              && Opens(Next(disk, step), step.next) && Entries(Next(disk, step)) == Entries(disk)
  {
  }

  // ----- Every run: the lease -----

  /** The machine and the end of the lease that was granted last and not cleared since. */
  function Standing(lease: LeaseFile, steps: seq<Step>): Option<(string, int)>
    decreases |steps|
  {
    if steps == [] then if lease.Lease? then Some((lease.context, lease.expires)) else None
    else
      var last := steps[|steps| - 1];
      if last.StepGrant? && last.lands then Some((last.at.context, GrantEnd(last.at, last.ttl)))
      else if last.StepClear? && last.removes then None
      else Standing(lease, steps[..|steps| - 1])
  }

  lemma {:induction false} RunOfLast(disk: Disk, steps: seq<Step>, step: Step)
    ensures Run(disk, steps + [step]) == Next(Run(disk, steps), step)
    decreases |steps|
  {
    if steps == [] {
      assert steps + [step] == [step] && [step][1..] == [];
    } else {
      assert (steps + [step])[1..] == steps[1..] + [step];
      RunOfLast(Next(disk, steps[0]), steps[1..], step);
    }
  }

  lemma StepKeepsEnd(disk: Disk, step: Step)
    ensures var lease := Next(disk, step).lease;
            lease.Lease? ==>
              if step.StepGrant? && step.lands then
                (lease.context, lease.expires) == (step.at.context, GrantEnd(step.at, step.ttl))
              else && disk.lease.Lease? && !(step.StepClear? && step.removes)
                   && lease.context == disk.lease.context && lease.expires == disk.lease.expires
  {
  }

  /**
   * Over every run a lease ends when its last grant said: no rotation, however interrupted, no getter and no
   * edit moves the end, and nothing brings a cleared lease back.
   */
  lemma {:induction false} LeaseEndsAsGranted(disk: Disk, steps: seq<Step>)
    ensures var lease := Run(disk, steps).lease;
            lease.Lease? ==> Standing(disk.lease, steps) == Some((lease.context, lease.expires))
    decreases |steps|
  {
    if steps != [] {
      var n := |steps| - 1;
      assert steps == steps[..n] + [steps[n]];
      RunOfLast(disk, steps[..n], steps[n]);
      StepKeepsEnd(Run(disk, steps[..n]), steps[n]);
      LeaseEndsAsGranted(disk, steps[..n]);
    }
  }

  /** So no getter answers with a leased password on another machine or after the last grant has ended. */
  lemma NoPasswordPastItsGrant(disk: Disk, steps: seq<Step>, at: Moment)
    ensures var final := Run(disk, steps);
            LeasedPassword(final, at).Some? ==>
              && Opens(final, LeasedPassword(final, at).value)
              && Standing(disk.lease, steps).Some?
              && Standing(disk.lease, steps).value.0 == at.context
              && at.now < Standing(disk.lease, steps).value.1
  {
    LeaseEndsAsGranted(disk, steps);
  }

  /** A step that does not grant or clear, leaves no rotation half done, and reads the lease only before its end. */
  predicate Harmless(step: Step, lease: LeaseFile)
    requires lease.Lease?
  {
    match step
    case StepGrant(_, _, _, lands) => !lands
    case StepClear(removes) => !removes
    case StepRotate(at, _, _, fate) => Active(lease, at) && (fate.storeLands ==> fate == COMPLETE)
    case StepTest(at) => at.context == lease.context ==> at.now < lease.expires
    case _ => true
  }

  lemma HarmlessStep(disk: Disk, step: Step, at: Moment, password: string)
    requires OpenLease(disk, at, password) && Harmless(step, disk.lease)
    ensures var after := Next(disk, step);
            && after.store.Sealed? && OpenLease(after, at, after.store.password)
            && after.lease == disk.lease.(password := after.store.password)
  {
  }

  /** An open lease stays open, to whatever the password has become, through every run of such steps. */
  lemma {:induction false} OpenLeaseLasts(disk: Disk, steps: seq<Step>, at: Moment, password: string)
    requires OpenLease(disk, at, password)
    requires forall k :: 0 <= k < |steps| ==> Harmless(steps[k], disk.lease)
    ensures var final := Run(disk, steps);
            final.store.Sealed? && LeasedPassword(final, at) == Some(final.store.password)
    decreases |steps|
  {
    if steps != [] {
      assert Harmless(steps[0], disk.lease);
      HarmlessStep(disk, steps[0], at, password);
      var after := Next(disk, steps[0]);
      forall k | 0 <= k < |steps[1..]|
        ensures Harmless(steps[1..][k], after.lease)
      {
        assert Harmless(steps[k + 1], disk.lease);
      }
      OpenLeaseLasts(after, steps[1..], at, after.store.password);
    }
  }
}
