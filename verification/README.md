# ESDiag: verified models of its stateful and algorithmic code

This project models eight parts of the ESDiag command-line tool in Dafny and proves what they promise.
Code that changes state in place is modelled by classes and methods; each method is proved against a
specification function, and the results are lemmas about those functions, over every input or every run.
`dafny verify dfyconfig.toml` checks the whole project.

## What is modelled

- **Project id** (`Cksum`). The container project is named by the `cksum` of its state directory's path
  (POSIX.1-2017, Shell and Utilities, section 4, utility `cksum`). The register loop over `bv32` is proved to
  compute the complement of the unique remainder of M(x)·x³² modulo the generator over GF(2), M being the
  bytes followed by the fewest little-endian octets of their number. From that follow the affine law and that
  paths of equal length that differ within four bytes have different ids.
- **Agent turns** (`SseDecoding`, `SseLines`, `SseStandard`, `AgentTurn`, `Links`). The incremental decoder, the
  event loop over a stream that arrives in chunks and may break, and the rewriting of links in the answer. The
  decoder is related to the model of WHATWG HTML, sections 9.2.5 and 9.2.6, in both directions: exactly where
  they agree, and concrete streams for each place where the code departs.
- **Keystore** (`Secrets`, `Credentials`, `UnlockMachine`, `Keystore`, `AtomicFile`, `UnlockTtl`). The sealed
  store, the lease that carries its password for a time, rotation with its interruptions, and atomic
  replacement. Encryption is ideal: a seal opens with the password it was made with and no other.
- **Hosts** (`Roles`, `KnownHosts`, `HostsFile`, `Migration`, `Migrator`, `UrlTemplate`). Roles, viewer links,
  the persisted form, URL templates, and the move of plaintext credentials into the keystore.
- **Local stack** (`LocalStack`, `LocalCommands`, `SetupImage`, `EnvFile`). `up`, `upgrade`, `setup`, `restart`
  and `reset` by binaries of any versions under any container runtime, where every write, pull, start and wait
  may fail or be the last thing that happens. The world records which versions opened each data volume.
- **Kibana spaces** (`KibanaSpace`). Edits of a path's segments; the edited path is printed and read again, with
  the separators, encoding and dot segments of URLs (WHATWG URL, sections 4.4 and 4.5), before the next edit.
- **Elastic CLI contexts** (`ElasticContext`, `Applications`, `ConfigCache`). The reference syntax, its printer,
  usable output names, and the configuration cache keyed by content fingerprints.
- **Onboarding** (`Onboarding`, `OnboardingFlow`, `OnboardingFiles`). The deferral of a diagnostic source across
  `esdiag.yml` and `hosts.yml`, on top of the hosts model: what one operation writes the next one parses.

`Text` holds strings and optional values as the Rust standard library offers them.

## What the proofs found

- `reset` uses whichever runtime it detects, not the recorded one. If a stack was started with one runtime and
  reset under another, the first one's volume survives, `.env` is gone, and an older binary can then start an
  older Elasticsearch on it (`LocalStack.SwitchedRuntimeDowngrades`). `LocalStack.ResetIsSafeExactly` gives the
  exact condition.
- The core mode's compose file does not declare the `esdiag-data` volume, so a `reset` in core mode leaves it
  behind if the stack was in full mode before. Every further `up` is then refused, and no further `reset` helps
  (`LocalStack.UpAfterResetExactly`, `LocalStack.FullThenCoreIsStuck`).
- `restart` accepts the name of the setup service and takes the compose file as it is. After an upgrade that failed to
  pull (the settings are restored, the compose file is not), or that stopped between its two writes, `restart setup`
  runs the command of one image in the other (`LocalStack.SetupMisfits`). `LocalStack.SetupsMatchExactly` and
  `LocalStack.FitsAfterExactly` say over every run when setups are right.
- The configuration cache fingerprints the file under HOME, else USERPROFILE; on Windows the library then reads the one
  under USERPROFILE. With both variables set to different directories an edit goes unseen, whatever the hash
  (`ConfigCache.WindowsReadsStale`).
- Rotating the keystore password also renews an unexpired lease that no longer opened the keystore and that
  every getter would have deleted (`UnlockMachine.RotationRevives`).
- `retry_safe` is documented as "without risking a duplicate turn". Failures reported by the agent or caused by
  malformed events count as safe even when a conversation is known: retrying is unsafe exactly in the cases of
  `AgentTurn.UnsafeRetriesExactly`. The model follows the code.
- Migrating a host changes what it resolves to when an API key of the host's name exists, when the plaintext was
  shadowed by a referenced secret, or when another host references the name
  (`Migration.MigrationKeepsExactly` has the exact condition of each kind of credential).
- An unlock duration that ends in a character outside ASCII panics instead of being refused
  (`UnlockTtl.AcceptedExactly`).
- The Kibana space laws hold on every path exactly for the spaces that the URL library reads as one segment
  other than `s` (`KibanaSpace.SafeSpacesExactly`). A space with a slash is accepted, splits, and grows with each
  selection (`KibanaSpace.SlashAccumulates`); the space `..` removes the marker it was put behind
  (`KibanaSpace.DotsTakeTheMarkerAway`).
- A host's identifier in a URL template that forms `{product}`, alone or between two copies of itself, is replaced
  again (`UrlTemplate.RenderedExactly`).
- A host whose URL has a cloud and ends in the bare proxy path does not survive being written and read: the path
  is completed (`KnownHosts.BareProxyIsCompleted`). This concerns callers of the library only: `KnownHost::from_url`
  (src/data/known_host.rs:1187) builds such hosts, and the program does not call it.
- Resolving an answer's links twice is not resolving them once when a link's path holds `](` and the viewer's path a
  closing parenthesis (`Links.OpeningsMultiply`).
- A `.env` value that ends in a carriage return loses it on the next read (`EnvFile.RoundTripsExactly`).

## Model

| member | source | states |
|---|---|---|
| Cksum.PosixCksum | src/local.rs:1462-1480 | the nested loops over bytes, length octets and bits leave the register that the recursive checksum describes |
| Cksum.LengthSuffix | src/local.rs:1464-1468 | the successors chain yields the length's octets, least significant first, and none for an empty input |
| Cksum.ChecksumIsComplementedRemainder | src/local.rs:1462-1480 | for every byte sequence the result is the complement of a register that is the one and only remainder of M(x)·x^32 modulo G(x), as the cksum utility defines it |
| Cksum.FeedDivides | src/local.rs:1470-1477 | dividend = quotient · generator + register after every prefix of the stream, with an explicit quotient |
| Cksum.RemainderIsUnique | src/local.rs:1470-1477 | two polynomials of degree below 32 that differ by a multiple of the generator are equal |
| Cksum.PolyOfShift | src/local.rs:1472-1476 | one round multiplies the register's polynomial by x and adds the generator exactly when bit 31 was set |
| Cksum.LengthOctetsEncodeTheLength | src/local.rs:1464-1468 | the appended octets are minimal and read back as the length |
| Cksum.MinimalOctetsAreUnique | src/local.rs:1464-1468 | no other minimal octets encode that length |
| Cksum.EmptyMessageNeedsNoOctet | src/local.rs:1464-1465 | the zero octet that the standard appends to an empty message would change nothing |
| Cksum.UnshiftUndoesShift | src/local.rs:1472-1476 | a round can be undone |
| Cksum.ShiftUndoesUnshift | src/local.rs:1472-1476 | every register is reached by a round: it is a bijection |
| Cksum.ChecksumIsAffine | src/local.rs:1458-1480 | for equal lengths the checksums of three messages combine as the messages do |
| Cksum.WindowChangesTheChecksum | src/local.rs:1458-1480 | paths of equal length that differ only within at most four consecutive bytes have different ids |
| SseDecoding.SseDecoder.Push | src/agent/builder.rs:437-452 | draining complete lines from the buffer is feeding a byte-wise machine, whatever was buffered |
| SseDecoding.SseDecoder.Finish | src/agent/builder.rs:454-465 | what is left at the end of the stream becomes at most one event |
| SseDecoding.SseDecoder.Line | src/agent/builder.rs:467-480 | how one line changes the current block |
| SseDecoding.SseDecoder.Dispatch | src/agent/builder.rs:482-488 | data makes an event and takes the name with it; without data the name stays |
| SseDecoding.FeedConcat | src/agent/builder.rs:437-452 | a stream can be cut anywhere: feeding the parts is feeding the whole |
| SseDecoding.DecodeChunks | src/agent/builder.rs:270-281 | the events of successive pushes and finish are those of one push of everything, for every split |
| SseDecoding.FinishActsLikeTwoNewlines | src/agent/builder.rs:454-465 | finishing is pushing two newlines, and gives at most one event |
| SseLines.DecodeOfEncoded | src/agent/builder.rs:437-488 | any events written as event and data lines are decoded in order, each as the stream can carry it |
| SseLines.RoundTripExactlyWhenClean | src/agent/builder.rs:437-488 | they come back unchanged exactly when no name or data line starts with white space or ends in a carriage return |
| SseStandard.StreamBytesEncodeStreamText | src/agent/builder.rs:437-448 | the bytes the decoder reads are the UTF-8 of the text the standard reads |
| SseStandard.SameReadingExactlyWhenRegular | src/agent/builder.rs:467-480 | a line means the same to both exactly when it is regular: at most one leading space, a name that is not empty, no bare field name |
| SseStandard.DecoderAgreesExactly | src/agent/builder.rs:437-488 | on LF or CRLF streams of regular lines the decoder gives the events of WHATWG HTML 9.2.6 exactly when every dispatched block has the same name in both (no empty name, none from before the last blank line, unless it is `message`) and no data is left open at the end |
| SseStandard.NameSurvivesEmptyBlock | src/agent/builder.rs:482-488 | a departure: the name of a block without data names the next event |
| SseStandard.NameForgottenByStandard | src/agent/builder.rs:482-488 | the standard forgets that name |
| SseStandard.UnfinishedBlockIsAnEvent | src/agent/builder.rs:454-465 | a departure: an unfinished last block is an event |
| SseStandard.UnfinishedBlockIsDiscarded | src/agent/builder.rs:454-465 | the standard discards it |
| SseStandard.FurtherSpacesAreLost | src/agent/builder.rs:474-478 | a departure: every leading space is stripped, where the standard strips one |
| AgentTurn.StreamState.Consume | src/agent/builder.rs:297-360 | one event changes the turn's state, shows progress or fails; a failure changes nothing |
| AgentTurn.StreamState.ConsumeEach | src/agent/builder.rs:277-279 | events are consumed until one fails |
| AgentTurn.ConsumeConcat | src/agent/builder.rs:275-283 | consuming is a run that can be split anywhere before its first failure |
| AgentTurn.ChunksDoNotMatter | src/agent/builder.rs:270-283 | the loop over chunks gives the outcome and progress of the concatenated stream, broken or not |
| AgentTurn.Ask | src/agent/builder.rs:239-295 | a whole turn returns what its bytes determine, for every split into chunks |
| AgentTurn.KindsByName | src/agent/builder.rs:301-360 | each kind of event has its one name, and every name but the eight is unknown |
| AgentTurn.FailsExactly | src/agent/builder.rs:297-360 | an event fails exactly when its name is one of the eight and its data is no JSON, or its name is `error`; and which failure that is |
| AgentTurn.LastCarriedExactly | src/agent/builder.rs:319-351 | the text taken from a list of events is that of the last one of its name that carries one that is not empty, and else what was known before |
| AgentTurn.UnknownEventsDoNothing | src/agent/builder.rs:301-313 | events of other names can be added or removed anywhere |
| AgentTurn.FirstFailure | src/agent/builder.rs:314-316 | the failure of a turn is that of its first event to fail |
| AgentTurn.CompletesExactly | src/agent/builder.rs:239-295 | a turn completes exactly when no event fails, a `message_complete` brought a message and the conversation is known, and then reports the last of each |
| AgentTurn.ReportsExactly | src/agent/builder.rs:297-388 | its usage is that of the last `round_complete`, each count under its own name, and its progress what the four progress events carry, in order |
| AgentTurn.ProgressBeforeFailure | src/agent/builder.rs:277-279 | a turn that fails showed the progress of the events before, and no more |
| AgentTurn.UnsafeRetriesExactly | src/agent/builder.rs:162-172 | a failure is not retry-safe exactly when no event failed, a conversation is known, and the stream broke (even after its message had arrived) or brought no message |
| Links.ResolveRelativeLinks | src/agent/builder.rs:390-414 | the loop terminates, replaces the targets whose path starts with a slash and copies all other text in order |
| Links.FirstLinkResolved | src/agent/builder.rs:393-409 | a target that is a path, in angle brackets or not, becomes what the path resolves to; any other target and all text stays |
| Links.NothingToResolve | src/agent/builder.rs:393-397 | a message without `](`, or without a closing parenthesis, stays as it is |
| Links.ParsedIsTheMessage | src/agent/builder.rs:390-414 | reading a message as text and links loses nothing |
| Links.ParsingInvertsPrinting | src/agent/builder.rs:393-397 | there is one reading of a message as text and links |
| Links.ResolvingTwiceExactly | src/agent/builder.rs:390-414 | for any set of paths whose links bring no opening of their own: resolving is idempotent on all messages with these paths exactly when what is read back of each link is left alone |
| Links.AbsoluteLinksSettle | src/agent/builder.rs:390-414 | links that start with neither a slash nor an angle bracket are left alone, with parentheses in them or not |
| Links.PlainLinksSettle | src/agent/builder.rs:390-414 | absolute links without `](`: resolving a message twice is resolving it once |
| Links.ViewerLinksSettle | src/agent/builder.rs:91-105 | so it is behind any viewer, parentheses in its path or not, for messages whose relative links hold no `](` |
| Links.OpeningsMultiply | src/agent/builder.rs:393-409 | a path with `](` behind a viewer with a closing parenthesis brings a link more, and the law fails |
| Secrets.UpsertResolvesExactly | src/data/keystore.rs:121-145 | what was put into an entry is what it resolves to exactly when it is an API key or none is there to win; the other half stays |
| Secrets.UpdateResolves | src/data/keystore.rs:785-802 | an update succeeds exactly for existing entries, leaves nothing of the old one, and touches no other |
| Secrets.RemoveUndoesAdd | src/data/keystore.rs:761-783 | an addition succeeds exactly for new names, and removing undoes it |
| Secrets.RemoveExactly | src/data/keystore.rs:804-831 | when a removal succeeds, what stays of the entry, and that no other entry changes |
| Secrets.RemoveHalfExactly | src/data/keystore.rs:804-831 | a removal of one half succeeds exactly when the entry holds that very key, or that very username and password |
| Secrets.BatchAt | src/data/keystore.rs:890-907 | a batch puts in each of its entries and leaves the rest alone |
| Credentials.PersistedResolvesTheSame | src/data/credential.rs:68-79 | a credential may be written exactly when it is none or references a secret; what is written holds no plaintext and resolves to the same |
| Credentials.ResolvesThroughItsReference | src/data/credential.rs:110-126 | resolution depends on the referenced entry alone |
| Credentials.SecretExactly | src/data/keystore.rs:121-145 | a reference resolves to the API key of its entry, or else to its username and password, each in its place |
| Credentials.ReferencedByHosts | src/data/keystore.rs:833-868 | saved jobs reference a secret only through saved hosts, so the job check never refuses more |
| Credentials.RemovalKeepsEveryHost | src/data/keystore.rs:804-868 | a removal that succeeds changes nothing that a saved host resolves to |
| Keystore.KeystoreFiles.ReadUnlockLease | src/data/keystore.rs:532-575 | an unexpired lease of this machine is returned; an expired one is deleted; one that cannot be decrypted stays |
| Keystore.KeystoreFiles.TestLease | src/data/keystore.rs:669-678 | the lease branch of both getters: a password that opens the keystore, or a useless lease deleted |
| Keystore.KeystoreFiles.GetUnlockStatus | src/data/keystore.rs:605-632 | the status agrees with the getters, and leaves the lease as they do |
| Keystore.KeystoreFiles.GetKeystorePassword | src/data/keystore.rs:655-695 | scoped, environment, leased, remembered, prompted and validated, in that order |
| Keystore.KeystoreFiles.GetCommandPassword | src/data/keystore.rs:709-735 | environment, leased, prompted and not validated |
| UnlockMachine.KeystorePasswordExactly | src/data/keystore.rs:655-695 | for each source and each refusal exactly when it is the answer: scoped over environment over lease over remembered over typed, and a typed password only when it opens the keystore of this moment |
| UnlockMachine.RememberedExactly | src/data/keystore.rs:684-695 | exactly the password that was typed and accepted is remembered |
| UnlockMachine.RememberedOpens | src/data/keystore.rs:655-695 | over every run of calls a remembered password opens the keystore, while that stays as it is |
| UnlockMachine.CommandPasswordExactly | src/data/keystore.rs:709-735 | the same for the secret commands: environment over lease over what is typed |
| Keystore.KeystoreFiles.WriteUnlockLease | src/data/keystore.rs:577-594 | a grant ends now plus its duration, saturated |
| Keystore.KeystoreFiles.AddSecret | src/data/keystore.rs:761-783 | the entry holds just what was given, each part in its place; other shapes are refused; a failure leaves the file alone |
| Keystore.KeystoreFiles.UpdateSecret | src/data/keystore.rs:785-802 | the same for an existing entry, of which nothing old is left |
| Keystore.KeystoreFiles.RemoveSecret | src/data/keystore.rs:804-868 | a removal is refused when the hosts or saved jobs cannot be read; a successful one leaves every saved host resolving as before |
| Keystore.KeystoreFiles.UpsertSecretAuth | src/data/keystore.rs:879-888 | one entry upserted and the file resealed with the same password |
| Keystore.KeystoreFiles.UpsertSecretAuthBatch | src/data/keystore.rs:890-907 | the loop adds every entry, one write for all, none for an empty batch |
| Keystore.KeystoreFiles.CreateKeystore | src/data/keystore.rs:929-938 | an empty keystore, only where there is none |
| Keystore.KeystoreFiles.Authenticate | src/data/keystore.rs:914-920 | after success the password opens the keystore, whose entries are unchanged |
| Keystore.KeystoreFiles.RotatePassword | src/data/keystore.rs:940-947 | the store, then the lease; each stop in between |
| UnlockMachine.LeasedExactly | src/data/keystore.rs:655-695 | both getters answer with a leased password exactly when an unexpired lease of this machine carries the password that opens the keystore of this moment |
| UnlockMachine.UselessLeasesGoExactly | src/data/keystore.rs:669-678 | a tested lease is deleted exactly when it can be decrypted but opens nothing any more |
| UnlockMachine.GrantWorksExactly | src/data/keystore.rs:577-594 | a grant works on the same machine exactly until its duration has passed, saturation included |
| UnlockMachine.RotationKeepsEntries | src/data/keystore.rs:940-947 | after the store's write the new password, and it alone, opens the same entries |
| UnlockMachine.RotationRenewsExactly | src/data/keystore.rs:940-947 | after a completed rotation a lease works exactly if it was active then and has not ended, with its old end and the new password |
| UnlockMachine.RotationLeavesNoExpiredLease | src/data/keystore.rs:940-947 | a rotation deletes an expired lease, leaves one it cannot decrypt, and with a wrong password or a failed write leaves everything |
| UnlockMachine.RotationRevives | src/data/keystore.rs:943-945 | a rotation makes a stale lease work again that a test before it would have deleted |
| UnlockMachine.InterruptedRotationIsSafe | src/data/keystore.rs:940-947 | between the two writes the lease opens nothing, unless it carries the new password already, and the next test deletes it |
| UnlockMachine.StepTouchesOnly | src/data/keystore.rs:761-947 | no operation changes an entry that it does not name |
| UnlockMachine.RunTouchesOnly | src/data/keystore.rs:761-947 | over every run, with rotations and interruptions, an entry changes only by operations that name it |
| Keystore.NoDanglingReferences | src/data/keystore.rs:804-868 | over every run of keystore operations no saved host that resolves is left without its secret |
| UnlockMachine.OnlyRotationsReseal | src/data/keystore.rs:940-947 | the password of a keystore changes only by a rotation that was given the old one |
| UnlockMachine.FirstEntryMakesTheKeystore | src/data/keystore.rs:761-783 | the first entry makes the keystore under the password that comes with it; an empty batch makes none |
| UnlockMachine.LeaseEndsAsGranted | src/data/keystore.rs:532-603 | over every run a lease ends when its last grant said; nothing moves the end or brings a cleared lease back |
| UnlockMachine.NoPasswordPastItsGrant | src/data/keystore.rs:655-735 | over every run no leased password is returned after the last grant has ended, on another machine, or for another keystore |
| UnlockMachine.OpenLeaseLasts | src/data/keystore.rs:655-947 | an open lease stays open, to whatever the password has become, through all edits, tests and completed rotations until it ends |
| AtomicFile.WriteAtomic | src/data/keystore.rs:349-363 | at every stop the file is as it was or wholly replaced, and no other file but the temporary one is touched |
| UnlockTtl.AcceptedExactly | src/data/keystore.rs:389-416 | a duration is accepted exactly for a number and a unit that make 1 second to 30 days, saturation playing no part; and exactly which inputs panic |
| UnlockTtl.DurationExactly | src/data/keystore.rs:389-416 | digits with `m`, `h` or `d` are that many times 60, 3600 or 86400 seconds, refused at 0 and above thirty days |
| UnlockTtl.MalformedExactly | src/data/keystore.rs:389-416 | no digits, or another unit, are malformed |
| Roles.NormalizedExactly | src/data/known_host.rs:1308-1321 | normal roles are the one strictly ordered list of the roles given, or of collect for none |
| Roles.NormalOrder | src/data/known_host.rs:1308-1321 | collect comes first, then send, then view |
| Roles.AlreadyNormalExactly | src/data/known_host.rs:1308-1321 | exactly the nonempty strictly ordered lists are normal, so normalizing twice is normalizing once |
| Roles.AllowedExactly | src/data/known_host.rs:1308-1342 | sorting and deduplicating neither hides nor adds a role that the application may not have |
| KnownHosts.WritableExactly | src/data/known_host.rs:1272-1298 | hosts are written exactly when each is acceptable, viewer links hold and no reserved name is new, in terms of the hosts as given |
| KnownHosts.AcceptableExactly | src/data/known_host.rs:1272-1342 | a host may be written exactly with the roles of its application, a template name where it is a template, and no plaintext without a reference |
| KnownHosts.ReservedExactly | src/data/host_reference.rs:54-60 | the reserved names are exactly those that start with a dot and read as a reference to a context, or as one with a flaw |
| KnownHosts.NamesAllowedExactly | src/data/known_host.rs:1460-1478 | a reserved name may be written exactly when the file, which can be read, has it already |
| KnownHosts.WrittenIsClean | src/data/known_host.rs:1272-1298 | what is written has ordered roles fit for its application, closed viewer links and no plaintext, and resolves as before under any keystore |
| KnownHosts.FromPartsIsCanonical | src/data/known_host.rs:672-715 | a host built from parts is rebuilt from its own parts unchanged, with an explicit cloud kept and the proxy path completed once |
| KnownHosts.RoundTripsExactly | src/data/known_host.rs:1251-1298 | parsing what was written returns exactly the normalized hosts without run-time viewers, exactly when each host is canonical |
| KnownHosts.CanonicalExactly | src/data/known_host.rs:672-715 | a host is canonical exactly when it has one of a URL and an accepted template, no cloud without a URL, a cloud whenever its domain is one, and no path that ends in the bare proxy of a cloud |
| KnownHosts.BareProxyIsCompleted | src/data/known_host.rs:672-715 | a cloud host with the bare proxy path, which only callers of the library can build, is not canonical: reading it back completes the path |
| KnownHosts.ParsedIsCanonical | src/data/known_host.rs:1251-1270 | hosts that were parsed always are |
| KnownHosts.RewritingIsIdentity | src/data/known_host.rs:1251-1298 | writing what was read back is allowed and writes the same file |
| HostsFile.HostsYml.ParseHostsYml | src/data/known_host.rs:1251-1270 | the loop over entries normalizes each host and checks viewers |
| KnownHosts.ParsesExactly | src/data/known_host.rs:1251-1270 | a missing file holds no hosts; any other is read exactly when each entry is sound in its fields and each viewer that is named may be viewed |
| KnownHosts.EntryResolvesExactly | src/data/known_host.rs:1612-1620 | for every shape of an entry: what its host resolves to under a keystore, field by field, and which shapes refuse the file |
| KnownHosts.CloudExactly | src/data/known_host.rs:158-172 | an entry has the cloud it names, or else the one of its domain |
| KnownHosts.PathExactly | src/data/known_host.rs:672-715 | exactly a cloud's bare proxy path is completed |
| KnownHosts.FieldsAreRead | src/data/known_host.rs:1251-1270 | all other fields are read as they are, or have their defaults |
| KnownHosts.ApplicationExactly | src/data/known_host.rs:121-137 | the names that an application goes by in a file, and what means none |
| HostsFile.HostsYml.WriteHostsYml | src/data/known_host.rs:1272-1298 | the loop prepares every host; the file changes only if all of them may be written |
| Migration.BatchIsMigratedStore | src/data/keystore.rs:890-907 | the batch of all legacy hosts, in any order, makes the migrated keystore |
| Migration.MigrationKeepsExactly | src/data/known_host.rs:1108-1156 | for each kind of credential, exactly when a host resolves after migration as before |
| Migration.InterruptedKeepsExactly | src/data/known_host.rs:1142-1154 | exactly when it does between the keystore's write and the hosts' write |
| Migration.StraightforwardKeepsAll | src/data/known_host.rs:1108-1156 | without prior references, same-named API keys under passwords, or references to migrated names, every host resolves as before at both points |
| Migration.MigratedIsWritableExactly | src/data/known_host.rs:1154 | after the keystore's write the hosts' write is refused exactly for a template with a name that no template may have |
| Migration.MigratedFilesKeepExactly | src/data/known_host.rs:1108-1156 | from file to file: what is read from the migrated hosts file resolves with the migrated keystore as before exactly under those conditions |
| Migration.PlainPasswordMigrates | src/data/known_host.rs:1108-1156 | a plaintext username and password resolve through the keystore afterwards, in their order, unless an API key of that name was there to win |
| Migration.PlainKeyMigrates | src/data/known_host.rs:1108-1156 | a plaintext API key always does |
| Migration.OnlyCredentialsMigrate | src/data/known_host.rs:1108-1156 | nothing of a host but its credential changes in the file |
| Migration.SecondMigrationIsIdentity | src/data/known_host.rs:1108-1156 | a second migration finds nothing and leaves the file and the keystore as they are |
| Migrator.Migrating.Prepare | src/data/known_host.rs:1117-1140 | the loop gives every legacy host its reference, once into the batch, and counts every host once |
| Migrator.Migrating.MigrateHosts | src/data/known_host.rs:1108-1156 | when it succeeds, what both files hold, the backup and the counts; when it fails, that the hosts file is as it was and the keystore old or wholly migrated |
| Migrator.Migrating.MigrateHostsToKeystore | src/data/known_host.rs:1108-1156 | the same from the file; hosts that cannot be read change nothing |
| UrlTemplate.ScanPlaceholders | src/data/known_host.rs:1567-1594 | the scanner's loop collects the placeholders that the grammar gives |
| UrlTemplate.CheckPlaceholders | src/data/known_host.rs:1595-1606 | accepted exactly with an id and no unknown placeholder |
| UrlTemplate.ValidateUrlTemplate | src/data/known_host.rs:1567-1610 | accepts exactly the texts of the grammar with an id, known names and a rendering that is a URL |
| UrlTemplate.ScanInvertsText | src/data/known_host.rs:1568-1594 | a template has one reading as letters and placeholders |
| UrlTemplate.LiteralTemplate | src/data/known_host.rs:1567-1626 | a template with `{id}` and `{product}` in it has these two placeholders, and renders to its pieces around the identifier and the product |
| UrlTemplate.RenderedIsSubstituted | src/data/known_host.rs:1623-1626 | the two replacements in turn are one simultaneous substitution unless the identifier forms the second placeholder; with arguments free of braces no brace is left |
| UrlTemplate.RenderedExactly | src/data/known_host.rs:1623-1626 | for all identifiers and products: they are so on every template exactly when the product is the placeholder itself or the identifier neither holds it nor begins it at its end and completes it at its start |
| UrlTemplate.AcceptedRenderedExactly | src/data/known_host.rs:1567-1626 | exactly the same arguments over the templates alone that validation accepts |
| UrlTemplate.BracesInArgumentsAreReplacedAgain | src/data/known_host.rs:1624 | the identifier `{product}` is replaced again |
| LocalCommands.LocalState.Initialize | src/local.rs:550-585 | only missing settings are filled in, the runtime apart, and the compose file is rewritten |
| LocalCommands.LocalState.RecordCurrentVersions | src/local.rs:473-483 | versions and images move together |
| LocalCommands.LocalState.Up | src/local.rs:257-349 | where `up` stops for every combination of failures, and what it leaves |
| LocalStack.UpSucceedsExactly | src/local.rs:271-349 | exactly when `up` succeeds: its mode is known, no volumes are misplaced, and every write, pull, start and wait works |
| LocalStack.UpRecords | src/local.rs:271-349 | what it records, setting by setting, and the compose file it leaves |
| LocalStack.UpStarts | src/local.rs:311-338 | what it does to the machine: the volumes, one start of the recorded Elasticsearch, one setup run in full mode |
| LocalStack.UpOverwritesNothing | src/local.rs:550-585 | wherever it stops, recorded versions and images stay, and missing ones are the binary's |
| LocalStack.MisplacedIsRefusedExactly | src/local.rs:511-547 | `up` and `setup` refuse, whatever happens, exactly when a keyed stack lost the volume of Elasticsearch or Kibana, or volumes are there without a stack |
| LocalCommands.LocalState.Upgrade | src/local.rs:353-422 | the refusals, the writes, the restored settings of a failed pull and the restart of a running stack |
| LocalStack.UpgradeStartsExactly | src/local.rs:353-392 | when an upgrade is refused before anything happens, and when it has nothing to do |
| LocalStack.LostVolumesStopUpgradesExactly | src/local.rs:511-547 | an upgrade with something to do refuses, whatever happens, exactly when a keyed stack lost its volumes |
| LocalStack.StoppedUpgradeStartsNothing | src/local.rs:393-421 | an upgrade of a stopped stack succeeds exactly under its conditions, leaves both versions and all three images the binary's, and starts nothing |
| LocalStack.RunningUpgradeStartsOnce | src/local.rs:393-421 | that of a running stack also starts the binary's Elasticsearch once |
| LocalCommands.LocalState.SetUp | src/local.rs:85-90 | an existing stack's compose file is refreshed before its setup runs |
| LocalStack.SetUpExactly | src/local.rs:85-90 | when `setup` succeeds, the compose file it leaves for the mode and image, and the one setup run in full mode |
| LocalCommands.LocalState.Restart | src/local.rs:961-977 | services by any name, the setup service among them, are restarted in order until one fails or is not declared; the compose file is not refreshed |
| LocalStack.RestartOneExactly | src/local.rs:961-977 | what restarting each service does, in each mode |
| LocalStack.RestartRecordsLevel | src/local.rs:76-82 | a log level is recorded first, and nothing else is |
| LocalCommands.LocalState.Reset | src/local.rs:1007-1019 | the volumes that the compose file declares first, then the directory |
| LocalStack.ResetExactly | src/local.rs:1007-1019 | nothing without `--force`; else the declared volumes and both files go |
| LocalStack.EveryRunIsSafe | src/local.rs:257-422 | over every run with clean resets no start of Elasticsearch is older than one that opened its volume |
| LocalStack.SetupsMatchExactly | src/local.rs:665-689 | over every run each setup run uses its image's command exactly when no restart started the setup service while the compose file did not suit the image |
| LocalStack.FitsAfterExactly | src/local.rs:353-422 | for every command and every stop, exactly when the compose file suits the image afterwards: once `up` or `setup` wrote it, until an upgrade stops between its writes or fails to pull with another command |
| LocalStack.SettledRunsMatch | src/local.rs:257-422 | so every setup run, restarts included, is right on runs whose upgrades leave compose file and image in accord |
| LocalStack.CompletedFits | src/local.rs:257-422 | every completed `up`, `setup` of an existing stack, and upgrade that had something to do leaves them in accord |
| LocalStack.RestartOfSetupExactly | src/local.rs:961-977 | `restart setup` runs the image's command exactly when the compose file suits that image |
| LocalStack.SetupMisfits | src/local.rs:390-405 | the concrete runs: full mode, an upgrade that fails to pull or stops between its writes, `restart setup` |
| LocalStack.RecordedNeverDecreases | src/local.rs:353-483 | between resets the recorded version never decreases, wherever commands stop |
| LocalStack.OnlyUpgradesMove | src/local.rs:353-483 | only a confirmed upgrade moves a recorded version, and only to its binary's |
| LocalStack.ResetKeepsExactly | src/local.rs:1007-1019 | a reset keeps the safety invariant exactly when it leaves `.env` or no other runtime's volume was opened |
| LocalStack.ResetIsSafeExactly | src/local.rs:1007-1019 | after a reset all later commands are safe exactly under that condition |
| LocalStack.SwitchedRuntimeDowngrades | src/local.rs:1011-1018 | the concrete run: Docker, a reset under Podman, an older binary |
| LocalStack.UpCanBeRepeated | src/local.rs:271-349 | after a successful `up` the state is recorded with its API key, fits the volumes and selects the same mode again |
| LocalStack.UpAfterResetExactly | src/local.rs:511-547 | after a completed reset every further `up` is refused exactly when the web service had a volume and the compose file, that of the core mode, did not declare it; no further reset changes that |
| LocalStack.FullThenCoreIsStuck | src/local.rs:597-607 | the concrete run: `up` in full mode, `up` in core mode, `reset`; no `up` is accepted any more |
| LocalStack.FailedPullRestores | src/local.rs:397-405 | a failed pull restores the settings and volumes; the compose file suits them exactly when both images take the same setup command |
| LocalStack.NextKeeps | src/local.rs:257-422 | each command keeps the volume invariant at every point where it can stop |
| LocalStack.StartKeeps | src/local.rs:311-314 | the image in `.env` is never older than what opened any volume |
| LocalStack.NextAddsExactly | src/local.rs:665-689 | at every point where a command can stop, its setup runs used their image's command, except in a restart of the setup service with a compose file that does not suit |
| SetupImage.BareSetupExactly | src/local.rs:1279-1289 | the bare command is chosen exactly for images tagged with a version before 0.18, with or without digest |
| SetupImage.PortIsNotATag | src/local.rs:1281-1284 | the port of a registry is not taken for a tag |
| EnvFile.RoundTripsExactly | src/local.rs:587-595 | what is written is parsed back exactly for keys without `=`, line feed or leading `#` and values without line feed or final carriage return |
| EnvFile.LaterEntryWins | src/local.rs:1439-1446 | an entry appended to a file replaces the earlier entry of its key and no other |
| EnvFile.RereadExactly | src/local.rs:1439-1446 | what was parsed survives being written and parsed again exactly without final carriage returns |
| EnvFile.LinesWithoutEntry | src/local.rs:1439-1446 | blank lines and comments are skipped, and a line that is neither and has no `=` spoils the file |
| EnvFile.CommentsAreSkipped | src/local.rs:1439-1446 | comments are skipped whatever they hold |
| KibanaSpace.EditIn | src/env.rs:116-131 | the in-place edits of the segments, case by case |
| KibanaSpace.KibanaUrlWithSpace | src/env.rs:106-163 | the edited path printed and read back by the URL library; texts that are no such URL get a suffix |
| KibanaSpace.SelectedExactly | src/env.rs:88-110 | the spaces that a setting selects, and the default of one that is not declared |
| KibanaSpace.SpaceGoesBeforeApplication | src/env.rs:124-133 | without a marker the space goes behind one, in front of the first application segment or at the end, and every segment stays where it is |
| KibanaSpace.SpaceReplacesTheLast | src/env.rs:120-121 | with a marker only the segment after the last one that has any changes |
| KibanaSpace.SpaceFollowsALoneMarker | src/env.rs:122-123 | a marker at the end gets its space |
| KibanaSpace.DefaultTakesTheLastAway | src/env.rs:137-161 | the default space takes the last marker and its space away, a marker at the end, or nothing |
| KibanaSpace.ReadOfSelect | src/env.rs:112-133 | what is read after a selection: the segments before the space, those the space became, and those after it |
| KibanaSpace.ReadOfDeselect | src/env.rs:137-161 | what is read after going back: the path without the last marker and its space |
| KibanaSpace.SelectingTwiceExactly | src/env.rs:112-133 | selecting twice leaves the segments of selecting once exactly when the space became one segment that is no marker, or one with which the marker changes nothing |
| KibanaSpace.DeselectUndoesExactly | src/env.rs:137-161 | returning to the default space after a selection leaves what returning at once would, in exactly those cases |
| KibanaSpace.DeselectRestoresExactly | src/env.rs:106-163 | a path without a space comes back exactly then |
| KibanaSpace.LaterWinsExactly | src/env.rs:112-133 | every later space replaces the first one exactly when that became one segment and no marker followed by another segment |
| KibanaSpace.SafeSpacesExactly | src/env.rs:106-163 | each of the three laws holds on every path exactly for the spaces that are read as one segment other than the marker |
| KibanaSpace.SameUrlTwice | src/env.rs:112-133 | for a space without separators that is neither the marker nor dots, selecting twice gives the very same URL |
| KibanaSpace.SlashAccumulates | src/env.rs:120-132 | the space `a/b` grows to `a/b/b`, and going back leaves `b` |
| KibanaSpace.DotsTakeTheMarkerAway | src/env.rs:120-132 | the space `..` removes its marker, and with each selection another part of the path |
| KibanaSpace.OtherTextsAccumulate | src/env.rs:135 | a text that is no URL with a path, and does not become one by its first space as `http:` does, grows with each selection and does not come back |
| KibanaSpace.SelectionIsStable | src/env.rs:88-100 | a normalized setting selects the same space |
| ElasticContext.ParseExactly | src/data/elastic_context.rs:116-175 | the texts that parse to a target are exactly its spellings |
| ElasticContext.DisplayRoundTrips | src/data/elastic_context.rs:249-271 | every target that parsing returns, cloud targets included, is parsed back from its display |
| ElasticContext.OutputAcceptedExactly | src/data/elastic_context.rs:53-83 | an output context is accepted exactly when it is not blank, does not start with a dot and has no slash or backslash, and its reference selects it |
| ConfigCache.Loader.Load | src/data/elastic_context.rs:542-586 | what a load returns and leaves in the cache, failures included; the fingerprinted path and the one that the library discovers by itself are kept apart |
| ConfigCache.UncachedExactly | crates/elasticrc/src/lib.rs:132-144 | what a load without cache reads: the argument's path, the environment's, or what is found in the library's directory |
| ConfigCache.DiscoveredExactly | crates/elasticrc/src/lib.rs:642-648 | which of several files is found |
| ConfigCache.FailuresKeepTheCache | src/data/elastic_context.rs:567-585 | a failed load keeps what was cached, one that finds nothing forgets its own entry, and no load touches another |
| ConfigCache.LoadsWhatIsFingerprinted | crates/elasticrc/src/lib.rs:132-144 | with an explicit path, or a directory of its own that is the fingerprinted one, the library reads what was fingerprinted |
| ConfigCache.NeverNoticedExactly | src/data/elastic_context.rs:510-599 | over every interleaving of loads, edits and changes among any environments the cache is invisible exactly when the hash separates contents that load differently and, on Windows, HOME and USERPROFILE name the same directory wherever both are set and no file is |
| ConfigCache.UnixNeverNoticedExactly | crates/elasticrc/src/lib.rs:687-693 | on the other platforms exactly when the hash separates, whatever the environments |
| ConfigCache.WindowsReadsStale | src/data/elastic_context.rs:552-567 | the concrete run: with different directories an edited or removed file under USERPROFILE leaves the old configuration, whatever the hash |
| OnboardingFiles.Settings.SaveWorkflow | src/onboarding.rs:189-197 | another workflow clears the deferral |
| OnboardingFiles.Settings.DeferCollection | src/onboarding.rs:199-230 | granted or refused, from the files as they are |
| OnboardingFiles.Settings.SaveOutputDeployment | src/onboarding.rs:234-264 | keystore, hosts, configuration, and each stop in between |
| OnboardingFiles.Settings.SaveCollectHost | src/onboarding.rs:266-299 | an existing host gains the role, a new one is built; then the deferral is cleared |
| OnboardingFiles.Settings.ReplaceCollectHost | src/onboarding.rs:303-328 | the host is replaced; then the deferral is cleared |
| OnboardingFiles.Settings.SaveDefaultProcessingJob | src/onboarding.rs:339-362 | a job for the collection host and the output in force |
| Onboarding.RunKeeps | src/onboarding.rs:178-375 | over every run of whole operations a deferral means a configured user, a collecting workflow and no collection host |
| Onboarding.NeverDeferredAndComplete | src/onboarding.rs:29-61 | so no state is both deferred and complete |
| Onboarding.CollectKeepsExactly | src/onboarding.rs:266-337 | a collection host breaks that exactly when a source is deferred, the host is named, its credential given and stored, the hosts writable and written, and the clearing then fails |
| Onboarding.DeferralLetsInExactly | src/onboarding.rs:44-61 | a deferral is granted exactly when it, and nothing but it, lets the user in |
| OnboardingFlow.FlowCompletesExactly | src/onboarding.rs:92-135 | following all steps with success makes the readiness complete, exactly unless the environment declares an output that does not resolve |
| OnboardingFlow.CompleteExactly | src/onboarding.rs:29-61 | exactly when onboarding is complete, workflow by workflow, in terms of the files |
| OnboardingFlow.EntersExactly | src/onboarding.rs:44-61 | exactly when the user is let in before that |
| OnboardingFlow.CollectOnlyCompletes | src/onboarding.rs:266-375 | the flow of collecting only completes with its job and not before |
| OnboardingFlow.ProcessingCompletesExactly | src/onboarding.rs:234-264 | the flow of processing completes exactly unless the environment declares an output that does not resolve |
| OnboardingFlow.ChoicesExactly | src/onboarding.rs:178-197 | what saving a user and a workflow leaves |
| OnboardingFlow.DeferralExactly | src/onboarding.rs:199-230 | exactly when a deferral is granted, in terms of the files |
| OnboardingFlow.OutputRefused | src/onboarding.rs:234-264 | which outputs are refused, and what is left when a later write fails |
| OnboardingFlow.OutputHostsAreAsGiven | src/onboarding.rs:234-264 | the two hosts that are read back are those given, linked, with the one secret |
| OnboardingFlow.CollectRefused | src/onboarding.rs:266-328 | which collection hosts are refused |
| OnboardingFlow.ExistingHostGainsRole | src/onboarding.rs:266-299 | a host that is there only gains the role, and every other host stays |
| OnboardingFlow.NewHostIsAsGiven | src/onboarding.rs:266-328 | a new or replaced host is read back as it was given |
| OnboardingFlow.DefaultJobExactly | src/onboarding.rs:364-375 | when a default job is saved and chosen |
| OnboardingFlow.ProcessingJobExactly | src/onboarding.rs:339-362 | which job is built, from what host to what output |
| OnboardingFlow.OutputIsSaved | src/onboarding.rs:234-264 | a saved output is valid when its file is read back |

## Left out

- HTTP, processes, containers, readiness polling, browsers, clipboards and prompts: their outcomes are inputs.
- Cryptography, key derivation parameters, YAML and JSON texts, and the `url` and `semver` crates: an ideal seal,
  records for parsed files, path segments, and a parameter that reads versions and orders them (SemVer 2.0.0, section 11).
- Torn writes of `hosts.yml`, `.env` and `compose.yml`, which are written in place: a write lands or does not.
- Several processes at once: every command runs alone.
- The Windows branch of the file replacement, process ids of the native service, file modes and debug redaction.
- `get_active_unlock_keystore_password`: its result is not validated against the keystore.
- Legacy tagged entries of `hosts.yml` and host updates from the command line: they reach the same constructor.
- The rewriting of Elastic Cloud deployment pages in the host builder: the builder's final URL is an input.
- Elastic CLI output contexts in `esdiag.yml` and the resolution of an output from the environment: one bit says whether it resolves.
- Settings of `.env` that decide nothing about versions: ports, passwords, the Kibana space and its URL; the generated secrets.
- Output deployments, uploads, terminal projections and error texts: branch tables and I/O.
- LocalStack.EveryRunIsSafe: takes the answers of the container runtime about volumes as truthful, and assumes that the
  process environment exports no image variable: Compose prefers it over `.env` (src/local.rs:1072-1073); so does
  `LocalStack.SetupsMatchExactly`.
- ConfigCache.NeverNoticedExactly: a load reads the file once, so an edit between fingerprint and load is not modelled; two
  spellings of a path are one path.
- KibanaSpace.KibanaUrlWithSpace: starts from a URL whose trailing slashes are trimmed; encoding is a parameter, of which
  only its fixed words and its idempotence are used.
- KibanaSpace.SafeSpacesExactly: not for spaces with a piece of dots, which depend on the whole path; one of them is in
  `KibanaSpace.DotsTakeTheMarkerAway`.
- SseDecoding.FinishActsLikeTwoNewlines: lossy UTF-8 decoding is a parameter, of which only its value on no bytes is used.
- SseStandard.DecoderAgreesExactly: streams of regular lines ended by LF or CR LF, without a byte order mark at their start.
- Links.ResolvingTwiceExactly: not for paths whose links hold `](` behind a closing parenthesis; `Links.OpeningsMultiply`
  shows that the law fails there.
- Links.ViewerLinksSettle: the viewer and the path are joined as they are; percent-encoding and fragments are left out.
- Migrator.Migrating.MigrateHosts: a failed backup copy that truncated an older backup is not modelled.
- AtomicFile.WriteAtomic: a temporary name is the path of no other file that matters, as its process id and time make it.
