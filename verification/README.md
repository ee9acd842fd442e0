# Verified model of the sagy account manager

This project models the parts of `sagy` in which a mistake loses or corrupts an
account, and proves what those parts promise. `dafny verify dfyconfig.toml`
checks all of it.

## What is modelled

**The journaled document store** (`AtomicIo`, `StoreProtocol`, `AtomicStore`,
`Adoption`, `Inspection`, `CasRegister`, `TornReads`). One directory holds a document, a fixed
lock, a fixed journal and stages. Every file primitive is applied, not applied,
or uncertain. A directory change is visible at once but survives a crash for
certain only after the directory was synchronised: an `Image` is the visible
directory together with every directory a crash may bring back, and unflushed
contents may come back as anything. `OwnedRoot.log` records every image the disk
ever showed, so a contract speaks about a crash at any point of a method. Any call
may fail (`Faults`); `OwnedRoot.faults` bounds how many calls are still going to, and
each that does lowers it, so that contracts speak about progress too: what is certain
without a fault, and what still is with one. The other classes have a constant
`reliable` for that.
`StoreProtocol.Next` lists the only ways an operation may change the register
that an image stands for, and every method of `AtomicStore` is proved to show
only such steps. `CasRegister` puts any number of processes on one store, lets
each die and the machine crash between any two images, and proves that together
they are an atomic register with compare-and-swap. `TornReads` is about readers,
who take no lock and so see different moments of it.
SHA-256 is an injective constructor and transaction ids are fresh names.

**The state document** (`StateModel`, `StateWire`, `StateCodec`,
`LegacyState`, `StateTxn`, `StateStore`, `AuditChain`). Revisions, sessions, one-time migration, coordinated
commits whose evidence must cover every change of a credential reference or of
the active profile, and the wire encoding that regroups accounts and references.
`AuditChain` proves revision order, absence of recurrence, one effective commit
for each revision, the defeat of everybody else who holds it, and a complete audit
trail over every behaviour of `CasRegister` whose commits come from the
transaction layer.

**Removing a profile** (`ProfileRegistry`, `ProfileRemoval`, `PoolCrashes`,
`RemovalRuns`, `PoolRoot`): the registry with the validity that every read and
write of it insists on, the write-ahead manifest, the quota barrier, the move into
the archive, the registry entry and the manifest's removal. The files of the root
and the profile trees are synchronised separately, and a machine crash brings each
back as anything it was since its own last sync. A run is proved to converge over
any number of recoveries that are cut short anywhere, machine crashes, and quota
merges of other processes, under a condition on the recoveries that is exact.

**The quota cache** (`QuotaCache`, and `QuotaOrder` on the generic `Folding`): the
timestamped fold with reset barriers, against a declarative specification, and
exactly when the order of arrival matters.

**The log scanner** (`LineScan`, `LogHeader`, `LogScanner`, `NativeLines`): the cursor
parser against a grammar, the streaming scanner against a line-by-line specification
for every way of cutting the stream, and which real lines it finds.

**Health, eligibility, selection and rotation** (`Int64`, `Health`, `HealthRuns`,
`StringOrder`, `Policy`, `Rotation`, `Failover`): the clock-driven reducer with saturating 64-bit
arithmetic, account selection, the fair rotation of profiles through the recorded
last selection, and the session loop that fails over at a limit.

## Where the code does not do what one would expect

- A directory in which the document was just replaced cannot be opened:
  `inspect_recovery_from_normalized` asks for the stage that the rename consumed.
  Recovery would finish that commit, but it runs only inside a transaction, and a
  transaction reads first. `StateStore.Stranded` gives the case,
  `StateStore.ReadableExactly` the exact condition under which a session can
  start, and `StateStore.StateStore.Begin` that nothing changes when it cannot.
- A line of 1024 bytes or more whose first 1024 bytes end at the native header,
  or at the header and a carriage return, counts or not depending on how the log
  arrives: `LogScanner.TruncatedWitness` is such a line.
  `LogScanner.ScannerIsChunkIndependent` is an equivalence: every way of cutting a
  log gives the same verdict exactly if no such line could decide it.
- A rejected credential observed during an active cooldown leaves a snapshot that
  the state validator refuses: `Health.ClosureWitness`. `Health.ReducerClosure`
  states exactly when the reducer's result is valid, and
  `Health.ProbeGuardSuffices` that the guard in `probe_decision` rules the
  exception out.
- If a process dies between the rename of a profile and the syncs of `profiles` and
  `archive`, the next recovery finds nothing to rename and does not repeat them, so
  it works on a move that is not durable. If the machine crashes after that recovery
  completed, the tree is back in its slot, unregistered and without a manifest
  (`PoolCrashes.UnsyncedMoveIsLost`). If it crashes before the manifest's removal is
  durable, the tree is back in its slot, unregistered, and the manifest is still
  there: it is refused because of the occupied slot, and with it every later attempt
  to take the registry lock (`RemovalRuns.UnsyncedMoveIsStuck`). The condition is
  exact: a machine crash at any moment of a recovery is harmless if and only if that
  recovery makes the move itself or began with settled trees
  (`PoolCrashes.CrashDuringRecovery`), and so it stays on the way to the one end if
  and only if it is durable in this sense (`RemovalRuns.DurableExactly`).
- A reader without a lock may report a recovery conflict on a store that has none:
  it reads the document, and then the journal of a later commit
  (`TornReads.FalseConflict`). `TornReads.ConflictExactly` says when, and
  `TornReads.TornReadIsSafe` that then somebody else's commit became certain in
  between, and that a successful look always returns what was the document.
- The age of the last use is subtracted in plain 64-bit arithmetic. Exactly where it
  does not fit, which takes a time before 1970, an account unused for ages counts as
  used today, or the program stops in a build with overflow checks:
  `Policy.FreshExactly` and `Policy.FreshWitness`.
- The quota cache keeps the later arrival of two measurements with one start time
  (`QuotaOrder.TieWitness`). Two updates commute exactly if neither their samples nor
  their results clash (`QuotaOrder.CommuteExactly`), and a whole history gives the
  same snapshot in every order exactly if for each profile the attempts that start
  last agree on the result and the measurements that start last on the values
  (`QuotaOrder.SnapshotOrderMattersExactly`).

## Model

| member | source | states |
|---|---|---|
| `AtomicIo.OwnedRoot.CreateNew` | src/core/atomic_io.rs:1781-1799 | A new file appears only where no entry was, unflushed; a failure shows no new image |
| `AtomicIo.OwnedRoot.SyncParent` | src/core/atomic_io.rs:2016-2052 | Success leaves the visible directory as the only one a crash can bring back; failure shows no new image |
| `AtomicIo.OwnedRoot.SyncFile` | src/core/atomic_io.rs:1967-1983 | Success makes exactly this file's present contents durable, and nothing else changes |
| `AtomicIo.OwnedRoot.Replace` | src/core/atomic_io.rs:2061-2143 | Three outcomes: done is the rename made visible and then durable; not applied shows no new image; uncertain is either nothing or the rename without durability |
| `AtomicIo.OwnedRoot.Remove` | src/core/atomic_io.rs:1986-2013 | The same three outcomes for unlinking, and a success that found nothing |
| `StoreProtocol.CrashKeeps` | src/core/atomic_store.rs:1032-1060 | Whatever directory a crash brings back is sound again: its journal explains its document, which is the old or the new one |
| `StoreProtocol.PublishStep` | src/core/atomic_store.rs:1086-1113 | Publishing the journal keeps the register, and on every crash image the journal names the present document |
| `StoreProtocol.ReplaceStep` | src/core/atomic_store.rs:913-939 | Renaming the stage over the document is a legal write when journal and stage are durable on every crash image |
| `StoreProtocol.DropJournalStep` | src/core/atomic_store.rs:1115-1139 | Dropping the journal is legal once no crash can undo the document and the named stage is gone |
| `StoreProtocol.NoJournalAgrees` | src/core/atomic_store.rs:1032-1038 | Without a journal every crash image holds the visible document |
| `AtomicStore.AtomicStore.RemoveIfPresent` | src/core/atomic_store.rs:1131-1139 | Only this entry may go, never one that is not a file; success means it is gone; every image shown is a legal step |
| `AtomicStore.AtomicStore.CleanupJournal` | src/core/atomic_store.rs:1115-1129 | The stage goes before the journal; a foreign entry at the stage name stops it without a change |
| `AtomicStore.AtomicStore.RecoverLocked` | src/core/atomic_store.rs:1032-1060 | The outcome is the one the preview predicts; the document never changes; a completed recovery leaves neither journal nor named stage; a conflict changes nothing; without a fault only a conflict or an entry that is not a readable file prevents success |
| `AtomicStore.AtomicStore.WriteStaged` | src/core/atomic_store.rs:1062-1084 | Success leaves the flushed stage; failure is reported as not applied and touches neither document nor journal |
| `AtomicStore.AtomicStore.PublishJournal` | src/core/atomic_store.rs:1086-1113 | Success makes the journal durable; not applied leaves none; any journal present is this one; document stages are kept |
| `AtomicStore.AtomicStore.HandlePrejournalFailure` | src/core/atomic_store.rs:1141-1155 | Reports not applied only if the old document is settled, otherwise reconcile; without a further fault it is not applied and the stage is gone |
| `AtomicStore.AtomicStore.RollbackAfterNotApplied` | src/core/atomic_store.rs:1157-1168 | Keeps the document and reports not applied only if the journal is gone, which without a further fault it is |
| `AtomicStore.AtomicStore.ResolveWithoutJournal` | src/core/atomic_store.rs:1233-1267 | Its verdict is truthful; after an uncertain target mutation it leaves an unreferenced stage as evidence; without a fault the live document decides |
| `AtomicStore.AtomicStore.ReconcileUncertain` | src/core/atomic_store.rs:1170-1231 | Whatever the uncertain primitive did, the verdict is truthful and never a conflict; without a further fault it is decided: success if the document is the new one, else not applied where a journal says so, and reconcile only where none is left; the journal is gone then, and the stage too unless it is kept as evidence; one more fault in the cleanup of a replaced document is retried |
| `AtomicStore.AtomicStore.ReplaceTarget` | src/core/atomic_store.rs:913-939 | From a durable journal, all three outcomes of the rename lead to truthful verdicts, and success leaves no stage; without a fault it succeeds, and with one the verdict still tells which document is live and nothing is left behind |
| `AtomicStore.AtomicStore.CommitLocked` | src/core/atomic_store.rs:869-939 | Over any combination of outcomes: success means the live document is the receipt's and settled, conflict and not applied that the old one is settled, reconcile that it is the old or the new one; every image shown is a legal step. Without a fault a commit succeeds that finds what it expects and fresh names, and one that does not reports the conflict; with a single fault anywhere, uncertain renames included, an error still means that the old document is live, and a directory without a journal is left with neither journal nor stage |
| `AtomicStore.AtomicStore.AcquireLock` | src/core/atomic_store.rs:941-956 | Success means the lock is held on a regular lock file, and no other entry moved; every mutating method requires it |
| `AtomicStore.AtomicStore.LockExact` | src/core/atomic_store.rs:850-867 | A granted lock stands on a settled document with the expected digest; a conflict reports the live digest; without a fault the digest alone decides between the two |
| `Adoption.ClassifyInventory` | src/core/atomic_store.rs:1482-1552 | The orphans are exactly the regular stage files the journal does not name; all of them are stages, and the stage that the journal names is never one |
| `Adoption.LockedAtomicStore.PreflightExisting` | src/core/atomic_store.rs:692-722 | What is reported is what the directory holds; its orphans are exactly the removable ones and spare the stage the journal names; without a fault only an unreadable document or journal prevents it |
| `Adoption.LockedAtomicStore.CleanupOrphans` | src/core/atomic_store.rs:650-661 | Only classified orphans go, and all of them on success |
| `Adoption.LockedAtomicStore.AdoptExisting` | src/core/atomic_store.rs:755-811 | Only the lock may appear and only regular stages may go, and the stage that the journal names stays as it is; a rejected or changed preflight changes nothing but the lock; success leaves no regular stage but that one and means that nothing moved since the unlocked look; without a fault what was looked at and did not move is adopted |
| `Adoption.LockedAtomicStore.AdoptAndRecover` | src/core/state_store.rs:1272-1286 | Document, lock, foreign and ordinary entries stay; on success no journal and no regular stage file is left; without a fault it succeeds on what was looked at, did not move and can be recovered |
| `Inspection.ReadableIff` | src/core/atomic_store.rs:1347-1396 | On every directory whatever, inspection succeeds exactly if the document, if there is one, is a file, and the journal, if there is one, can be read, does not conflict and still has its intact stage |
| `Inspection.ConflictIff` | src/core/atomic_store.rs:1362-1368 | A conflict is reported exactly if recovery would see one, with the same three digests |
| `Inspection.SoundReadableIff` | src/core/atomic_store.rs:1347-1396 | On what the protocol leaves behind there is never a conflict, and only a consumed or damaged stage stops inspection |
| `Inspection.InspectionPredicts` | src/core/atomic_store.rs:1461-1480 | What an inspection reports is what recovery will do, on which document and which stage |
| `Inspection.UnreadableAfterReplace` | src/core/atomic_store.rs:1369-1380 | After the rename over the document, recovery would finalize and inspection fails |
| `Inspection.UnreadableWitness` | src/core/atomic_store.rs:1369-1380 | A concrete directory in which the two disagree |
| `CasRegister.StepKeeps` | src/core/atomic_store.rs:838-867 | Every step of every process, and every crash, keeps the invariant and only extends the history |
| `CasRegister.Reaches` | src/core/atomic_store.rs:838-939 | The invariant holds in every reachable state, so every process finds a sound image |
| `CasRegister.AtomicRegister` | src/core/atomic_store.rs:838-939 | The values form one chain in which each was written by a commit whose expectation matched the one before; a reader sees the last or the single write that may follow |
| `CasRegister.CrashAtomicity` | src/core/atomic_store.rs:869-939 | A crash at any point of any behaviour leaves the old or the new document, and recovery finds no conflict |
| `CasRegister.RefusalIsVoid` | src/core/atomic_store.rs:869-939 | A commit that ends in conflict or not applied leaves nothing that could still take effect |
| `CasRegister.ReceiptsAreFinal` | src/core/atomic_store.rs:85-89 | A receipt's value stays in the chain whatever happens later, crashes included |
| `CasRegister.NoLostUpdate` | src/core/atomic_store.rs:838-867 | Two effective commits that expected one digest found it at two different places of the chain |
| `TornReads.ConflictExactly` | src/core/atomic_store.rs:1347-1368 | Reading document and journal at two moments, a conflict is reported exactly if the journal knows nothing of the document that was read |
| `TornReads.UntornIsOneLook` | src/core/atomic_store.rs:1347-1396 | Unless the document or the stage changes meanwhile, the look is that at one directory |
| `TornReads.TornReadIsSafe` | src/core/atomic_store.rs:1347-1396 | Over every behaviour in which the machine runs on, what a reader returns was the document when it read it, and a conflict it reports is never real and means that a value became certain in between |
| `TornReads.FalseConflict` | src/core/atomic_store.rs:1347-1368 | Two sound images of which the document of one and the journal of the other give a conflict |
| `StateModel.CheckAccounts` | src/core/state.rs:238-273 | One pass accepts exactly the lists of valid accounts with distinct ids, and collects their ids |
| `StateModel.ValidateStateInvariants` | src/core/state.rs:233-348 | The validator accepts exactly the states that satisfy the invariants stated over the whole state |
| `StateModel.ReferencesFit` | src/core/state.rs:238-273 | In a valid state the credential of an account is of the kinds its type allows, with a prefixed fingerprint, and in version 2 there is one |
| `StateModel.OnlyKnownAccounts` | src/core/state.rs:233-348 | Snapshots, references, the current account and the active profile are those of listed accounts, and the profile has the fingerprint of its account |
| `StateModel.SlotsFit` | src/core/state.rs:387-438 | The active home holds exactly the slot that belongs to the kind of the credential |
| `StateModel.IdShapes` | src/core/state.rs:199-213 | Accepted ids have at most 64 lower-case letters, digits, underscores and dashes, and begin with a letter or digit |
| `StateModel.DigestShapes` | src/core/state.rs:215-231 | Digests have 64 lower-case hexadecimal digits, and a fingerprint is one with its prefix |
| `StateModel.LineShapes` | src/core/state.rs:440-447 | Accepted texts have no control characters and at most 16384 characters |
| `StateCodec.ReadAccounts` | src/core/state_store.rs:2932-2959 | The reader's loop splits the wire list into records and the reference map, the later of two equal ids winning |
| `StateCodec.MigratedUsageIsValid` | src/core/state_store.rs:2853-2916 | Whatever a version 1 file says, the migrated snapshot is valid and a failed probe stays non-ready without quota |
| `LegacyState.MigratedWords` | src/core/state_store.rs:2853-2885 | Whatever its case and the blanks around it, which status word of version 1 becomes which health, both directions |
| `LegacyState.MigratedFailures` | src/core/state_store.rs:2853-2862 | A needed login, and then an error, count before any status |
| `LegacyState.MigratedNumbers` | src/core/state_store.rs:2853-2916 | Quota, clamped to a percentage, only for accounts that can serve; times, window and error by health, both directions |
| `LegacyState.MigratedAccountKeeps` | src/core/state_store.rs:2985-3004 | Migrated and written, an account has the public fields it had, field by field, and its secrets stay where they were |
| `LegacyState.MigratedDocument` | src/core/state_store.rs:2793-2851 | Every real account with its snapshot is in the migrated state, and of one left behind nothing is |
| `LegacyState.KeptExactly` | src/core/state_store.rs:2786-2791 | The accounts kept are exactly those that are not an old leftover, in order |
| `LegacyState.DerivedExactly` | src/core/state_store.rs:3006-3025 | A reference is there exactly for the ids of which some account yields one, and it is that of the last such account |
| `StateCodec.RevisionNamesDocument` | src/core/state_store.rs:2745-2782 | A revision carries the digest of exactly the parsed document and the number inside it |
| `StateCodec.WriteThenRead` | src/core/state_store.rs:3027-3088 | Whatever the writer accepts the reader accepts, with the same state, in-memory secrets blanked, the written revision and the same reference map |
| `StateCodec.ReadThenWrite` | src/core/state_store.rs:2918-2983 | Writing what was read reproduces the wire record that was read |
| `StateCodec.BlankingTakesSecrets` | src/core/state_store.rs:3027-3081 | What blanking takes is exactly the secrets, paths and the in-memory fingerprint |
| `StateCodec.DocumentsAreBounded` | src/core/state_store.rs:3027-3088 | A document that is written is within the limits of the reader, and a valid state is refused only for exceeding one |
| `StateTxn.LockedStateTxn.Snapshot` | src/core/state_store.rs:1580-1586 | What is returned is the parse of the live document |
| `StateTxn.LockedStateTxn.ValidateCoordinatedProofs` | src/core/state_store.rs:1676-1751 | Accepts exactly the proof sets that fit revision, durable journals, old and new references, repeat nothing and cover every change; the transitions explain the change |
| `StateTxn.LockedStateTxn.ValidateActiveHomeProof` | src/core/state_store.rs:1753-1802 | Accepts exactly the proofs that fit revision, both profiles, the target reference and the durable journal |
| `StateTxn.LockedStateTxn.CheckCandidate` | src/core/state_store.rs:1832-1857 | A candidate passes only if the evidence accounts for every reference and profile it changes in the live document |
| `StateTxn.LockedStateTxn.Publish` | src/core/state_store.rs:1858-1877 | Every attempt is audited whatever its verdict, is a compare-and-swap against the own revision, and only success advances it; with at most one fault the verdict tells which document is live |
| `StateTxn.LockedStateTxn.CommitStateWithTransitions` | src/core/state_store.rs:1812-1877 | Without an audited attempt nothing is written; a receipt is for the next revision of exactly the given state with exactly the given transitions; without a fault an accounted and valid state is committed |
| `StateTxn.LockedStateTxn.CommitExact` | src/core/state_store.rs:1588-1610 | An ordinary commit needs a current revision and carries no transitions; without a fault a valid state that keeps references and profile is committed |
| `StateTxn.LockedStateTxn.CommitCoordinated` | src/core/state_store.rs:1651-1674 | An attempt is backed by proofs that hold of the live document, one transition for each proof; without a fault proofs that cover the change suffice |
| `StateTxn.HomeIsCurrent` | src/core/state_store.rs:1753-1802 | The home switch of an attempt is for the reference that counts after the commit: its fingerprint is that of the new active profile, and it is the new reference of the account if a credential proof changes that |
| `StateTxn.EvidenceIsCurrent` | src/core/state_store.rs:1676-1802 | Every proof behind an attempt is durable, made for the present revision, and names the references before and after; every account without a proof keeps its reference |
| `StateTxn.LockedStateTxn.SealMigration` | src/core/state_store.rs:1541-1578 | A permit exists only for a document to migrate, with one durable journal for each of its accounts and none twice; without a fault those suffice |
| `StateTxn.LockedStateTxn.CommitMigration` | src/core/state_store.rs:1612-1633 | A permit is good for its own revision only, and an empty one only for an empty document; without a fault one that covers the change suffices |
| `StateTxn.MigrationIsComplete` | src/core/state_store.rs:1541-1633 | A migration under a sealed permit leaves a transition for every account of the old document |
| `StateTxn.PermitsAreBacked` | src/core/state_store.rs:1541-1578 | Behind a permit there is one durable proof for each account of the old document and none twice |
| `StateTxn.AuditedWhenAccounted` | src/core/state_store.rs:1812-1902 | An accounted candidate written over the revision it was derived from is one revision later and every change is listed |
| `StateStore.StateStore.Read` | src/core/state_store.rs:1133-1139 | Listing, document, journal and stage being read at four moments, a read returns the parse of the document and whether the journal asks for a recovery of it, and without a fault it succeeds exactly if all four are acceptable together |
| `StateStore.StateStore.Begin` | src/core/state_store.rs:1224-1290 | A stale or unreadable look fails before any side effect; a transaction holds the lock on a settled document of exactly the expected revision, and a populated directory was cleaned first; otherwise only a recovery ran; without a fault, on a root that nobody else changes, a transaction begins on what was read |
| `StateStore.StateSession.Commit` | src/core/state_store.rs:976-1069 | The lock-held images are a recovery and then one audited compare-and-swap against the session's revision; the session advances to exactly what it committed and only then; without a fault and on such a root, a valid state whose evidence covers its changes is committed |
| `StateStore.StateSession.SealPermit` | src/core/state_store.rs:1032-1045 | A session's permit covers the accounts of the document live under the lock; without a fault, on a root that nobody else changes, proofs that cover a document to migrate are sealed |
| `StateStore.StateSession.BootstrapEmpty` | src/core/state_store.rs:1074-1089 | Only a completely missing state is bootstrapped, to the empty document of the first revision |
| `StateStore.Stranded` | src/core/state_store.rs:1236-1237 | Right after the document is replaced no session can start, though recovery would finish the commit |
| `StateStore.ReadableExactly` | src/core/state_store.rs:3180-3225 | On a sound directory exactly a root whose inventory is refused, a consumed stage or an unreadable text keeps a session from starting |
| `AuditChain.SessionsAreSteps` | src/core/state_store.rs:976-998 | What a session does under its lock is a recovery episode and an audited commit episode of the register |
| `AuditChain.RevisionsRise` | src/core/state_store.rs:1894-1902 | Revision numbers rise by exactly one along the chain of every behaviour |
| `AuditChain.NoRecurrence` | src/core/state_store.rs:1894-1902 | No document and no digest is ever live twice |
| `AuditChain.OneEffectPerRevision` | src/core/state_store.rs:1224-1290 | Of all commits that expect one revision at most one ever takes effect, whether or not it lives to see its receipt |
| `AuditChain.OneWinnerPerRevision` | src/core/state_store.rs:1224-1290 | And at most one of them gets a receipt |
| `AuditChain.SupersededIsGone` | src/core/state_store.rs:1894-1902 | A document that was superseded is never visible again |
| `AuditChain.SupersededIsRefused` | src/core/state_store.rs:1224-1290 | Once a revision is superseded nobody finds it, so no transaction on it begins, and no other commit that expects it takes effect or becomes visible |
| `AuditChain.ExplanationReplays` | src/core/state_store.rs:1676-1751 | Applying the transitions of an accepted proof set to the old references gives the new ones |
| `AuditChain.TrailIsComplete` | src/core/state_store.rs:1651-1877 | Replaying the evidence of the commits that took effect over the first document gives the references and the profile of every later one |
| `AuditChain.OrdinaryCommitsChangeNeither` | src/core/state_store.rs:1832-1855 | Between documents joined by ordinary commits neither references nor profile differ |
| `Health.Normalize` | src/core/health.rs:317-347 | Assigning the fields step by step is the stated normal form |
| `Health.ReduceUsageObserved` | src/core/health.rs:406-578 | The step-by-step reducer computes the stated reduction, stale and delayed observations included |
| `Health.ReducerClosure` | src/core/health.rs:406-605 | The reduction of a valid snapshot is valid exactly unless a counting failure falls into an active cooldown |
| `Health.ClosureWitness` | src/core/health.rs:461-474 | A token refused in an open cooldown turns a valid snapshot into an invalid one |
| `Health.ProbeGuardSuffices` | src/core/health.rs:352-388 | The guard skips exactly while cooling, and then every outcome at every time reduces to a valid snapshot |
| `Health.CooldownLength` | src/core/health.rs:190-234 | A window lasts as long as the server asks, from half a minute to an hour, and otherwise five minutes, from the observation on |
| `Health.CoolingExactly` | src/core/health.rs:200-227 | An account cools exactly from the start of its window to its end, an hour at most, and not on evidence from the future |
| `Health.NormalMeans` | src/core/health.rs:317-347 | What a read leaves of a snapshot, field by field, and that reading twice is reading once |
| `Health.CachedExactly` | src/core/health.rs:352-388 | A probe is spared exactly if it was not forced and the last one is younger than five minutes, or half a minute after a transport failure |
| `Health.VerdictsByClass` | src/core/health.rs:442-605 | Which outcomes reject a credential, which ask for a refresh and which say nothing, each verdict and each error in both directions |
| `Health.FreshObservation` | src/core/health.rs:406-578 | What an observation that counts leaves behind, whatever was known before; a rate limit opens a window unless one is open or its own would be over |
| `Health.StaleObservation` | src/core/health.rs:406-427 | An observation older than the last probe, or under a clock that fell behind it, is only a read |
| `HealthRuns.NormalizeLate` | src/core/health.rs:212-227 | Normalising early and then late is normalising late whenever the early result exists |
| `HealthRuns.CooldownBounded` | src/core/health.rs:190-234 | Whatever was stored before, no window outlasts an hour from its start under saturation |
| `HealthRuns.WindowNeverMoves` | src/core/health.rs:498-521 | An open window keeps its end through every run of reads, repeated limits, failures and stale successes with a non-decreasing clock, and blocks exactly until then |
| `HealthRuns.SuccessEndsWindow` | src/core/health.rs:428-439 | A success that counts ends it |
| `HealthRuns.RejectionStays` | src/core/health.rs:583-589 | No run of transport failures washes a rejection away |
| `HealthRuns.VerdictStays` | src/core/health.rs:442-605 | After a refused, forbidden or invalid credential that very verdict stays through every run of inconclusive probes and reads |
| `HealthRuns.UnreachedStays` | src/core/health.rs:522-605 | From the first counting failure on, an account that was not rejected stays merely unreached |
| `Policy.ScoreAccount` | src/core/policy.rs:178-207 | The accumulated score is the tier's base and the sum of the bonuses, the age being subtracted as the code does |
| `Policy.FreshExactly` | src/core/policy.rs:199-204 | The freshness bonus goes to exactly the accounts used within a day, if and only if the age fits into 64 bits |
| `Policy.FreshWitness` | src/core/policy.rs:199-204 | An account for which it does not; no two times from 1970 on are of that kind |
| `Policy.TiersDominate` | src/core/policy.rs:24-32 | No sum of bonuses lets a lower tier beat a higher one |
| `Policy.EligibleExactly` | src/core/policy.rs:49-100 | Exactly four kinds of accounts can be selected: probed ones, refreshable ones, unprobed and unreached ones with a validated file, all with a fitting credential, quota left and no open window |
| `Policy.HealthDecides` | src/core/policy.rs:24-32 | In terms of health: a probed account beats a refreshable one, that an unprobed one, and that one not reached, whatever the bonuses |
| `Policy.ExchangeRates` | src/core/policy.rs:178-207 | What a plan, an OAuth account and a use within a day are worth in points of quota |
| `Policy.PaidPlans` | src/core/policy.rs:185-193 | Which plan texts count as paid, in any case, and that the usual free ones do not |
| `Policy.SortCandidates` | src/core/policy.rs:163-171 | The result is ordered by score and id and is a permutation |
| `StringOrder.LessExactly` | src/core/policy.rs:163-171 | The order of ids is that of dictionaries: the first difference decides, and a prefix comes first |
| `Policy.SelectBestAccount` | src/core/policy.rs:111-176 | The choice is the eligible current account, otherwise the highest score with the smallest id, and none exactly if none is eligible; in terms of health: the current account while it is usable, otherwise a probed account if any is, otherwise a refreshable one, an unprobed one, one not reached |
| `Policy.SelectionIsDeterministic` | src/core/policy.rs:111-176 | Any two listings of the same accounts give the same choice |
| `Policy.RejectedStaysIneligible` | src/core/policy.rs:49-89 | Over every run of transport failures a rejected account is never selectable |
| `Policy.UnreachedIsDegraded` | src/core/policy.rs:49-89 | A validated account that was not rejected is selectable, in the lowest tier, exactly outside any cooldown |
| `ProfileRegistry.UnregisteredIsValid` | src/profile/store.rs:308-342 | Dropping a profile keeps the registry valid, so the write at the end of a removal is never rejected |
| `ProfileRegistry.DirectoriesDiffer` | src/profile/store.rs:316-323 | In a registry that can be read no two accounts share a directory |
| `ProfileRegistry.OnlyRegistered` | src/profile/store.rs:308-342 | A registry that can be read has distinct names and says nothing of a profile that is not among them |
| `ProfileRegistry.UnregisteredIsForgotten` | src/profile/remove.rs:161-168 | After the removal the registry has no trace of the name |
| `ProfileRemoval.AcceptedExactly` | src/profile/remove.rs:101-143 | A removal is accepted exactly if the registry is valid, the name still lies in its directory and no other does, nothing unregistered occupies it, and the tree is private and in one of the two places |
| `ProfileRemoval.RefusalsSay` | src/profile/remove.rs:101-143 | What each refusal says of registry and trees |
| `PoolRoot.PoolRoot.Finish` | src/profile/remove.rs:101-172 | A refusal says why and touches nothing; success is the one final state; every image shown is one of the nine that the removal has, with all that a crash may bring back of it; without a fault an accepted removal of a free profile is carried out |
| `PoolRoot.PoolRoot.Recover` | src/profile/remove.rs:94-99 | Without a manifest nothing changes; otherwise the removal is finished, showing only those images, and exactly a refused or damaged manifest, a busy lease or a fault prevents that |
| `PoolRoot.PoolRoot.Run` | src/profile/remove.rs:174-200 | An unknown, insecure or busy profile is refused before a manifest exists; success means that the name is out of the registry, its tree whole in the archive, all else as it was, and the barrier of its registered directory raised to the time of the run, all of it durable; everything shown belongs to the removal that was pending before, or is the plan, which `finish` accepts, and its images; without a fault a registered, secure and free profile is removed |
| `ProfileRemoval.BarrierTwice` | src/profile/remove.rs:144-155 | Raising the same barrier again changes nothing |
| `ProfileRemoval.PassesKeeps` | src/profile/remove.rs:101-172 | On every disk on the way the tree is whole in exactly one place and nothing of another account differs |
| `RemovalRuns.PlanIsAccepted` | src/profile/remove.rs:174-193 | What `run` checks before it writes a manifest suffices that the checks of `finish` accept the disk it announces |
| `ProfileRemoval.Converges` | src/profile/remove.rs:94-172 | What an interruption of an accepted removal leaves is accepted again and leads to the same final state |
| `RemovalRuns.EveryRecoveryConverges` | src/profile/remove.rs:94-172 | While the machine runs on and nobody else merges, any number of recoveries that die anywhere leave the tree in one place and the same final disk, to the last value, reached or ahead |
| `RemovalRuns.RunConverges` | src/profile/remove.rs:94-200 | From every point at which `run` may be cut short, over any number of recoveries cut short anywhere, machine crashes and merges of others, as long as recoveries begin where they are durable: every disk that is there or may come back is untouched, or accepted and on its way to the one end, or there, which is said of the disk alone: no trace of the name, the tree archived, the barrier at the time of the run; the tree is whole in one place and the other accounts are as they were |
| `RemovalRuns.DurableExactly` | src/profile/remove.rs:156-171 | That condition is exact: from any pool on the way a recovery and a machine crash in the middle of it always leave one on the way if and only if the recovery is durable |
| `RemovalRuns.RefusedForGood` | src/profile/remove.rs:94-128 | Once a manifest is refused, no recovery, crash or merge ever changes that |
| `RemovalRuns.BarrierHolds` | src/profile/cache.rs:159-207 | Once raised the barrier holds whatever others merge: no value of the removed login shows unless it was measured after it |
| `RemovalRuns.NothingOldShows` | src/profile/cache.rs:142-207 | Behind a barrier, whatever is merged, an entry of that directory shows only what was measured after it |
| `RemovalRuns.OldLoginIsGone` | src/profile/remove.rs:144-190 | After a completed removal and any merges the directory shows only what was measured since the time of the run, and no probe that started before puts a value there |
| `PoolCrashes.RecoverySparesOthers` | src/profile/remove.rs:101-172 | A recovery changes nothing of another account on any disk that a crash may bring back of it |
| `PoolCrashes.CrashDuringRecovery` | src/profile/remove.rs:144-171 | A machine crash at any moment of a recovery is harmless if and only if the recovery makes the move or found the trees settled |
| `PoolCrashes.CrashAfterRecovery` | src/profile/remove.rs:156-171 | The same for a crash after the recovery completed |
| `PoolCrashes.CutShortIsStuck` | src/profile/remove.rs:117-128 | Where it is not harmless, a crash between the last two writes leaves a manifest that is refused because of the occupied slot |
| `PoolCrashes.UnsyncedMoveIsLost` | src/profile/remove.rs:156-160 | A process death before the syncs, a recovery and a machine crash bring an unregistered tree back without a manifest |
| `RemovalRuns.UnsyncedMoveIsStuck` | src/profile/remove.rs:117-160 | With the machine crash before the manifest is gone, it stays refused over every history of recoveries, crashes and merges |
| `RemovalRuns.LateProbesStayOut` | src/profile/remove.rs:144-155 | No probe that started before the removal brings a value back, however late and often it reports |
| `QuotaCache.QuotaFile.Read` | src/profile/cache.rs:117-140 | A valid snapshot is returned, a damaged one is told from an unreadable one |
| `QuotaCache.QuotaFile.Merge` | src/profile/cache.rs:142-222 | Success stores exactly the fold of the valid updates over the base; an error leaves the file as it was or complete but for the directory sync |
| `QuotaCache.QuotaFile.MergeEntry` | src/profile/cache.rs:159-207 | Updating the entry field by field is one step of the fold |
| `QuotaCache.FirstUpdate` | src/profile/cache.rs:159-207 | The entry that a first update leaves, field by field |
| `QuotaCache.ResetForgets` | src/profile/cache.rs:182-192 | A reset forgets the measurement whenever it started, and puts the barrier at the later of its own start, the old barrier and the start of what was forgotten |
| `QuotaCache.SwitchStartsAfresh` | src/profile/cache.rs:172-181 | An update for another directory is ignored if anything newer is known and otherwise starts the entry afresh |
| `QuotaCache.MeasurementCounts` | src/profile/cache.rs:193-206 | A measurement is installed exactly if it started neither before the barrier nor before the stored one; result and attempt are those of the later start |
| `QuotaCache.AcceptedUpdates` | src/profile/cache.rs:83-115 | Which updates are valid, with the bounds of times and shares |
| `QuotaCache.AcceptedEntries` | src/profile/cache.rs:94-115 | Which stored entries are: windows only with a measurement, and its two times together |
| `QuotaCache.MergeKeepsValid` | src/profile/cache.rs:94-115 | Valid updates keep a valid snapshot valid, so the check before writing never refuses one |
| `QuotaCache.ProfilesAreIndependent` | src/profile/cache.rs:152-207 | A merge treats each profile as if it were alone |
| `QuotaCache.FoldIsOrdered` | src/profile/cache.rs:142-207 | Reset and sample times stay at or below the last attempt, which is at or after every start, and the sample at or after the barrier |
| `QuotaCache.StepKeepsOrdered` | src/profile/cache.rs:172-206 | Barrier and last attempt never fall, and an update that started before the barrier installs nothing |
| `QuotaCache.BarrierNeverFalls` | src/profile/cache.rs:172-192 | The barrier never decreases over any history |
| `QuotaCache.StoresLatest` | src/profile/cache.rs:159-207 | The stored windows are those of the latest-starting admitted measurement since the last reset or switch, the later arrival winning ties, and there are none exactly if none was admitted |
| `QuotaOrder.CommuteExactly` | src/profile/cache.rs:193-206 | Two reset-free updates of one directory can be exchanged exactly if neither their samples nor their results clash |
| `QuotaOrder.ArrivalOrderIsIrrelevant` | src/profile/cache.rs:152-207 | Over any snapshot, reset-free updates of which those that start together tell the same give one snapshot in every order, across all profiles |
| `QuotaOrder.OrderMattersExactly` | src/profile/cache.rs:152-207 | A profile's entry is the same in every order exactly if the newest attempts agree on the result and the newest measurements on the values |
| `QuotaOrder.SnapshotOrderMattersExactly` | src/profile/cache.rs:152-207 | The same equivalence for a whole snapshot, profile by profile |
| `QuotaOrder.TieWitness` | src/profile/cache.rs:193-202 | With equal start times and different windows the order does matter |
| `LogHeader.NativeLimitEnd` | src/profile/observer.rs:325-379 | The cursor parser accepts exactly the inputs that begin with a header of the grammar and returns its end |
| `LogHeader.HeaderIsUnique` | src/profile/observer.rs:343-379 | No input begins with two headers |
| `LogScanner.LogScanner.Matches` | src/profile/observer.rs:388-396 | A match is a header followed by a colon and a blank, or by the end of a complete line |
| `LogScanner.LogScanner.Feed` | src/profile/observer.rs:398-421 | A chunk hits exactly as its parts do, the scanner then stands for the unfinished line, and never more than 1024 bytes are kept |
| `LogScanner.Scan` | src/profile/observer.rs:424-460 | Feeding chunk after chunk and then reading to the end gives the stream's verdict |
| `LogScanner.TruncatedExactly` | src/profile/observer.rs:406-420 | The exceptional lines are exactly those whose first 1024 bytes are a header, or a header and a carriage return |
| `LogScanner.TruncatedWitness` | src/profile/observer.rs:406-420 | A log of one padded header of 1024 bytes is a hit in one piece and none byte by byte |
| `LogScanner.ScannerIsChunkIndependent` | src/profile/observer.rs:382-421 | Every way of cutting a log gives the line-by-line verdict exactly if no exceptional line could decide it |
| `NativeLines.NativeExactly` | src/profile/observer.rs:343-396 | A native line, with the words of the agent executor or without, is found exactly if its header is followed by a colon and a blank or by the end of a complete line |
| `NativeLines.NativeLineIsSure` | src/profile/observer.rs:388-421 | However long its message is, it is found in every way of cutting the log |
| `NativeLines.OtherLinesDoNot` | src/profile/observer.rs:343-379 | A user's words, a warning, another source or another code are never found |
| `NativeLines.StampIs` | src/profile/observer.rs:343-362 | Every header begins with an `E`, a date and a time of day to the microsecond |
| `LineScan.Bracketed` | src/profile/observer.rs:398-421 | However a stream is cut, sure lines are found, and only sure or exceptional lines are |
| `LineScan.TruncationDecides` | src/profile/observer.rs:406-420 | If an exceptional line decides, one piece and single bytes give different verdicts |
| `Rotation.Rotated` | src/profile/mod.rs:530-537 | Sorting and rotating gives all profiles in turn, beginning after the last selected one |
| `Rotation.Rank` | src/profile/mod.rs:538-550 | The candidates are exactly the eligible profiles, by score and then in turn |
| `Rotation.EligibleExactly` | src/profile/mod.rs:502-529 | Which profiles come into question, in terms of cooldowns, shares, directories and earlier attempts |
| `Rotation.ChosenHasMost` | src/profile/mod.rs:158-165 | The scarcer share of the chosen profile is at least that of any other idle one, unknown shares coming last |
| `Rotation.Select` | src/profile/mod.rs:502-575 | The choice is the best idle eligible profile and the soonest in turn among equals; none exactly if none is idle; in a registry that can be locked, read and measured it is an error exactly if a profile that cannot be examined comes before every idle one |
| `Rotation.ChoiceIsDeterministic` | src/profile/mod.rs:502-575 | There is one such choice |
| `Rotation.NextInTurn` | src/profile/mod.rs:530-550 | After one of the tied profiles the next in order is chosen, and after the last the first |
| `Rotation.FairRotation` | src/profile/mod.rs:502-624 | Any k consecutive selections among k profiles tied for best, each recorded in the registry the next one finds while no other process selects, visit each exactly once |
| `Failover.LimitedProfileCools` | src/profile/mod.rs:577-588 | A limited profile is out for exactly five minutes and no other profile is affected |
| `Failover.RegistryFile.Record` | src/profile/mod.rs:619-624 | The selected profile becomes the last selected one of the registry as it is then; on a reliable disk this fails only if it is no longer registered |
| `Failover.RegistryFile.Successor` | src/profile/mod.rs:640-671 | A successor is the choice in the registry with the saved limit, and there is none without a saved limit, a restart and a verified binary |
| `Failover.RegistryFile.Auto` | src/profile/mod.rs:605-695 | Every launch is the choice among the profiles not launched before, was recorded before it began, and follows a saved limit in the registry that the launch before it left; none repeats, the loop ends within the number of profiles, and on a reliable disk only where nothing else can be done |
| `Failover.LaunchesAreEarned` | src/profile/mod.rs:605-695 | Every launch is of a registered profile that was recorded and not launched before, and every one but the first follows a launch that reported a limit, allowed a restart and left a verified binary and a saved cooldown of five minutes |

## Left out

- Names and text: stage and lock file names, locators, JSON, UUID and hexadecimal syntax are not spelled out; names and wire records are datatypes and a text's size is a parameter.
- Files: sizes, permissions, symbolic links, root identity, lock polling and the Windows calls are part of the nondeterministic failures of each primitive.
- Document identity: two documents are one exactly if their records are equal, so differently formatted texts of one record are not told apart.
- StateCodec.ReadThenWrite: speaks of wire records; a differently formatted text of the same record is not reproduced.
- LegacyState.DerivedExactly: which reference the secrets of a version 1 account yield is a given function of that account.
- StateCodec.WriteThenRead: lengths count characters rather than bytes, and trimming and lower-casing in the version 1 reader cover the ASCII characters only.
- Quarantine: `from_store` may rename a document that is not JSON at all before it fails; the bytes a transaction writes are never of that kind.
- StateStore.ReadableExactly: which inventories of a root are refused is a given predicate of the directory.
- StateStore.StateStore.Begin: what other processes do between the unlocked look and the grant of the lock is given as the image they leave; the callback is whatever its caller does with the transaction.
- StateTxn.LockedStateTxn.ValidateCoordinatedProofs: whether a proof's journal is durable is an opaque predicate; the contents of credential and active-home journals, and the shape checks of proof constructors, are not part of this model.
- Recovery authorities and mutation permits of `src/core/state_store.rs:1312-1500` are not modelled: they hand out copies of a snapshot that was read and decide nothing.
- Reads: `faults` counts the failing calls that change files; a read may fail whenever a fault is still to come, and does not lower it.
- StateStore.StateSession.BootstrapEmpty: that it succeeds without a fault is not stated, because what other processes leave between its two transactions is given; each of them has its own such clause.
- CasRegister.AtomicRegister: processes take turns under the lock and act on the shared image; readers without a lock are the subject of `TornReads`.
- Adoption.LockedAtomicStore.PreflightExisting: a preflight looks at one directory, although the code lists and reads it entry by entry; under the lock nothing changes meanwhile, and before it the comparison under the lock decides.
- AuditChain.TrailIsComplete: the trail is that of the commits that took effect, which includes one whose process crashed before it saw its receipt.
- PoolRoot.PoolRoot.Run: writing the registry is one atomic replacement, and the rename of a tree between its two directories is atomic; a lease is free or busy; names and directories are taken as already normalised; the archive id is one that was never used.
- RemovalRuns.RunConverges: the run begins with nothing of the root to synchronise; merges of other processes come between recoveries, not in the middle of one.
- QuotaCache.QuotaFile.Merge: the quota lock makes one merge one critical section and is not spelled out; name validation and the one-mebibyte limit are left to the nondeterministic failures; floating-point times and shares are reals.
- LogScanner.Scan: the file checks and block sizes of `read_log` are left out; a byte is written as a character.
- Rotation.Select: the clock is read once for each registry snapshot, and measuring is a given map of results; names compare by character, which is the order of their bytes for the characters a name may have.
- Rotation.FairRotation: other processes may do anything to the registry meanwhile except change the last selection.
- Failover.RegistryFile.Auto: processes, terminals, signals and the bridge are left out; a launch is given by whether and how it reported a limit; registered names are drawn from a finite set.
- Credentials, update, user interface, command line, Git sync, encryption, quota probes and process supervision are not modelled: what they do depends on services and processes outside the program, or is a check of one record's shape.
