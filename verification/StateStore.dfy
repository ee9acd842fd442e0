/**
 Reading and exact sessions: `StateStore` and `StateSession` of src/core/state_store.rs.

 A reader takes no lock, so that it may find the listing, the document, the journal
 and the stage of four different moments.  Between its look and the grant of the lock other
 processes may work on the store; `meanwhile` is the image they leave behind.
*/
module StateStore {
  import opened Options
  import opened StateModel
  import opened StateCodec
  import opened StateTxn
  import opened Documents
  import opened Faults
  import opened AtomicIo
  import opened StoreProtocol
  import opened AtomicStore
  import opened Adoption
  import opened Inspection

  /** What a look finds besides the document: it lists the root before it, and reads journal and stage after it. */
  datatype Look = Look(listing: Dir, journal: Dir, stage: Dir)

  /** A root of the expected kind whose document, and whose pending stage if there is one, parse. */
  predicate Seen(d: Dir, look: Look, platform: Platform) {
    && platform.listable(look.listing)
    && InspectTorn(d, look.journal, look.stage).Ok?
    && var i := InspectTorn(d, look.journal, look.stage).value;
       && Parse(i.snapshot, platform.text).Ok?
       && (i.staged.Some? ==> Parse(i.staged, platform.text).Ok?)
  }

  /** The same of one directory that does not change meanwhile. */
  predicate Readable(d: Dir, platform: Platform) {
    Seen(d, Look(d, d, d), platform)
  }

  /** Nothing stands in the way of a transaction on this revision. */
  ghost predicate Startable(d: Dir, expected: Revision, look: Look, platform: Platform) {
    && Seen(d, look, platform) && Parse(TargetOf(d), platform.text).value.revision == expected
    && Resolvable(d) && !Foreign(d, FixedLock) && Acceptable(d, platform.acceptsRoot)
  }

  lemma SettledIsFile(img: Image)
    requires Sound(img)
    ensures !Foreign(img.view, Target)
  {
    assert GoodDir(img.view);
  }

  class StateStore {
    const root: OwnedRoot
    const platform: Platform

    constructor (root: OwnedRoot, platform: Platform)
      ensures this.root == root && this.platform == platform
    {
      this.root, this.platform := root, platform;
    }

    /** `read`: the document and whether a recovery is pending, without any side effect. */
    method Read(look: Look) returns (r: Result<StateRead, StateStoreError>, pending: bool)
      ensures r.Ok? ==>
                && Seen(root.view, look, platform)
                && Parse(TargetOf(root.view), platform.text) == Ok(r.value)
                && var preview := RecoveryPreview(DigestOf(TargetOf(root.view)), JournalOf(look.journal));
                   (pending <==> preview.Finalize? || preview.Rollback?)
      ensures r.Err? ==> r.error == Invalid
      ensures root.faults == 0 && Seen(root.view, look, platform) ==> r.Ok?
    {
      var fault := Fault(root.faults == 0);
      if fault || !platform.listable(look.listing) { return Err(Invalid), false; }
      var inspected := InspectTorn(root.view, look.journal, look.stage);
      if inspected.Err? { return Err(Invalid), false; }
      var i := inspected.value;
      if i.staged.Some? && Parse(i.staged, platform.text).Err? { return Err(Invalid), false; }
      var parsed := Parse(i.snapshot, platform.text);
      if parsed.Err? { return Err(Invalid), false; }
      return Ok(parsed.value), i.recovery.Finalize? || i.recovery.Rollback?;
    }

    /**
     `with_locked_exact` up to the callback: compare before any side effect,
     take the lock, adopt and recover, and compare again under the lock.
    */
    method Begin(expected: Revision, look: Look, meanwhile: Image)
      returns (r: Result<LockedStateTxn, StateStoreError>)
      requires root.Valid() && Sound(meanwhile)
      modifies root
      ensures root.Valid()
      // A stale or unreadable look fails before the lock is taken.
      ensures !old(Seen(root.view, look, platform)) ==> r == Err(Invalid) && root.view == old(root.view)
      ensures old(Seen(root.view, look, platform)) ==>
                var seen := old(Parse(TargetOf(root.view), platform.text)).value.revision;
                seen != expected ==>
                  (r == Err(RevisionConflict(expected, seen)) || r == Err(Invalid)) && root.view == old(root.view)
      // Under the lock only the pending recovery was finished.
      ensures r.Ok? ==>
                && root.log[0] == meanwhile && Run(root.log, 0, Recovery)
                && Settled(root.Now(), TargetOf(meanwhile.view))
                && Parse(TargetOf(root.view), platform.text).Ok?
                && Parse(TargetOf(root.view), platform.text).value.revision == expected
                && fresh(r.value) && r.value.Root() == root && r.value.platform == platform
                && r.value.Valid() && r.value.revision == expected && expected.document == DigestOf(TargetOf(root.view))
      ensures r.Ok? ==> root.faults <= old(root.faults) && NothingNew(meanwhile.view, root.view)
      // A populated directory was adopted first: no journal and no regular stage file is left.
      ensures r.Ok? && old(root.view).Keys != {} ==>
                && FixedJournal !in root.view
                && forall n | n in root.view && (n.DocStage? || n.JournalStage?) :: root.view[n].NotAFile?
      ensures r.Err? ==>
                || (root.view == old(root.view) && root.log == old(root.log))
                || (&& root.log[0] == meanwhile && Run(root.log, 0, Recovery)
                    && TargetOf(root.view) == TargetOf(meanwhile.view))
      // Without a fault, on a root that nobody else changes, a transaction begins on what was read.
      ensures old(root.faults == 0 && Startable(root.view, expected, look, platform))
              && meanwhile == old(root.Now()) ==>
                r.Ok?
    {
      var observed, _ := Read(look);
      if observed.Err? { return Err(observed.error); }
      if observed.value.revision != expected { return Err(RevisionConflict(expected, observed.value.revision)); }
      RevisionNamesDocument(TargetOf(root.view), platform.text);
      var store := new AtomicStore(root);
      var guard := new LockedAtomicStore(store);
      if root.view.Keys == {} {
        root.Overtaken(meanwhile);
        var locked := store.LockExact(expected.document, 0, Recovery);
        if locked.Err? { return Err(Atomic(locked.error)); }
      } else {
        var preflight := guard.PreflightExisting();
        if preflight.Err? { return Err(Atomic(preflight.error)); }
        if !platform.acceptsRoot(preflight.value) { return Err(Invalid); }
        root.Overtaken(meanwhile);
        var adopted := guard.AdoptAndRecover(preflight.value, platform.acceptsRoot, 0, Recovery);
        if adopted.Err? { return Err(Atomic(adopted.error)); }
      }
      SettledIsFile(root.Now());
      r := Confirm(guard, expected);
    }

    /** The second comparison, now with the lock held. */
    method Confirm(guard: LockedAtomicStore, expected: Revision) returns (r: Result<LockedStateTxn, StateStoreError>)
      requires guard.store.root == root && guard.store.lock.held && root.Valid() && Sound(root.Now())
      ensures r.Ok? ==>
                && Parse(TargetOf(root.view), platform.text).Ok?
                && Parse(TargetOf(root.view), platform.text).value.revision == expected
                && fresh(r.value) && r.value.Root() == root && r.value.platform == platform
                && r.value.Valid() && r.value.revision == expected && expected.document == DigestOf(TargetOf(root.view))
      ensures root.faults == 0 && !Foreign(root.view, Target)
              && Parse(TargetOf(root.view), platform.text).Ok?
              && Parse(TargetOf(root.view), platform.text).value.revision == expected ==>
                r.Ok?
      ensures root.faults == 0 && !Foreign(root.view, Target) && DigestOf(TargetOf(root.view)) != expected.document ==>
                r == Err(Atomic(Conflict(Exact(expected.document), DigestOf(TargetOf(root.view)))))
    {
      var snapshot := guard.store.ReadSnapshot();
      if snapshot.Err? { return Err(Atomic(snapshot.error)); }
      if Parse(snapshot.value, platform.text).Ok? { RevisionNamesDocument(snapshot.value, platform.text); }
      if DigestOf(snapshot.value) != expected.document {
        return Err(Atomic(Conflict(Exact(expected.document), DigestOf(snapshot.value))));
      }
      var current := Parse(snapshot.value, platform.text);
      if current.Err? { return Err(Invalid); }
      if current.value.revision != expected { return Err(RevisionConflict(expected, current.value.revision)); }
      assert Undone(expected.document) == snapshot.value;
      var txn := new LockedStateTxn(guard, expected, platform);
      return Ok(txn);
    }
  }

  datatype Committed = Committed(after: StateRead, receipt: Receipt)

  /** What a session asks the locked transaction to commit. */
  datatype Request =
    | Ordinary
    | Coordinated(proofs: seq<CredentialProof>, home: Option<ActiveHomeProof>)
    | Migration(permit: MigrationPermit)

  /** The evidence that a request brings covers what the state changes in the document. */
  ghost predicate Warranted(
    request: Request, pre: Option<Bytes>, state: State, revision: Revision, platform: Platform)
  {
    match request
    case Ordinary =>
      revision.generation.Current? && RefsKept(pre, state, platform.text) && ProfileKept(pre, state, platform.text)
    case Coordinated(proofs, home) =>
      && (proofs != [] || home.Some?) && Backed(pre, state, revision, proofs, home, platform)
      && (home.None? ==> ProfileKept(pre, state, platform.text))
    case Migration(permit) =>
      && permit.expected == revision && ProfileKept(pre, state, platform.text)
      && if permit.proofs == []
         then state.accounts == [] && state.credentialRefs == map[] && RefsKept(pre, state, platform.text)
         else Backed(pre, state, revision, permit.proofs, None, platform)
  }

  /** The state one revision later is valid and can be written. */
  predicate Writable(state: State, revision: Revision, text: Text) {
    var next := Numbered(state, NumberOf(revision) + 1);
    NumberOf(revision) < U64_MAX && StateInvariants(next) && EncodeV2(next, text).Ok?
  }

  /** A transaction that began on `d` without a fault and on a root that nobody else changed. */
  lemma BegunIsUnhindered(txn: LockedStateTxn, d: Dir, state: State, txid: Txid)
    requires txn.Root().faults == 0 && Settled(txn.Root().Now(), TargetOf(d))
    requires NothingNew(d, txn.Root().view) && Fresh(d, txid)
    requires txn.revision.document == DigestOf(TargetOf(txn.Root().view))
    requires Parse(TargetOf(txn.Root().view), txn.platform.text).Ok?
    requires Writable(state, txn.revision, txn.platform.text)
    ensures txn.Unhindered(state, txid)
  {
    assert GoodDir(txn.Root().view);
  }

  /** The lock-held images: a recovery up to index `at`, then the audited commit. */
  ghost predicate Serves(log: seq<Image>, at: nat, meanwhile: Image, attempt: Attempt, text: Text) {
    && at < |log| && log[0] == meanwhile
    && Run(log[..at + 1], 0, Recovery)
    && TargetOf(log[at].view) == TargetOf(meanwhile.view)
    && Audited(attempt.op, attempt.audit, text)
    && Episode(log[at..], attempt.op, attempt.verdict)
  }

  /** The audit lists what the request carries evidence for, and nothing else. */
  ghost predicate Answers(request: Request, audit: Audit) {
    match request
    case Ordinary => audit == Audit([], None)
    case Coordinated(proofs, home) => Certifies(audit, proofs, home)
    case Migration(permit) => Certifies(audit, permit.proofs, None)
  }

  /** The compare-and-swap is against the revision of the session, which still names the live document. */
  ghost predicate Attempts(op: Op, revision: Revision, meanwhile: Image) {
    && op.Commit?
    && op.pre == TargetOf(meanwhile.view)
    && op.expected == Exact(revision.document)
    && revision.document == DigestOf(op.pre)
  }

  /** The after-snapshot is the given state one revision later, and the receipt is for it. */
  ghost predicate Advanced(state: State, revision: Revision, attempt: Attempt, c: Committed) {
    && attempt.op.Commit?
    && var number := NumberOf(revision) + 1;
       && c.after == StateRead(BlankedState(Numbered(state, number)),
                               Revision(Current(number), Some(Sha256(attempt.op.bytes))), NoMigration)
       && c.receipt == Receipt(c.after.revision, attempt.audit.transitions, attempt.audit.active)
  }

  lemma ServesRequest(recovered: seq<Image>, log: seq<Image>, meanwhile: Image, attempt: Attempt, text: Text)
    requires recovered != [] && recovered[0] == meanwhile && Run(recovered, 0, Recovery)
    requires TargetOf(recovered[|recovered| - 1].view) == TargetOf(meanwhile.view)
    requires recovered <= log
    requires Audited(attempt.op, attempt.audit, text)
    requires Episode(log[|recovered| - 1..], attempt.op, attempt.verdict)
    ensures Serves(log, |recovered| - 1, meanwhile, attempt, text)
  {
    assert log[..|recovered|] == recovered;
  }

  /** What the outcome of a commit under the lock means for the session that asked for it. */
  lemma CommitServes(
    was: Standing, now: Standing, state: State, r: Result<Receipt, StateStoreError>, attempt: Option<Attempt>,
    meanwhile: Image, text: Text)
    requires Outcome(was, now, state, r, attempt, text)
    requires was.log != [] && was.log[0] == meanwhile && Run(was.log, 0, Recovery)
    requires was.log[|was.log| - 1].view == was.view && TargetOf(was.view) == TargetOf(meanwhile.view)
    requires was.revision.document == DigestOf(TargetOf(was.view))
    requires now.log != [] && now.log[|now.log| - 1].view == now.view
    ensures attempt.Some? ==>
              && Serves(now.log, |was.log| - 1, meanwhile, attempt.value, text)
              && Attempts(attempt.value.op, was.revision, meanwhile)
    ensures r.Ok? ==>
              && attempt.Some? && attempt.value.verdict.Ok?
              && TargetOf(now.view) == Some(attempt.value.op.bytes)
              && Parse(TargetOf(now.view), text).Ok?
              && Advanced(state, was.revision, attempt.value, Committed(Parse(TargetOf(now.view), text).value, r.value))
  {
    if attempt.Some? {
      ServesRequest(was.log, now.log, meanwhile, attempt.value, text);
      assert now.log[|was.log| - 1..][|now.log| - |was.log|] == now.log[|now.log| - 1];
    }
    if r.Ok? { WriteThenRead(Numbered(state, NumberOf(was.revision) + 1), text); }
  }

  class StateSession {
    const store: StateStore
    var read: StateRead

    constructor (store: StateStore, read: StateRead)
      ensures this.store == store && this.read == read
    {
      this.store, this.read := store, read;
    }

    static method Open(store: StateStore, look: Look) returns (r: Result<StateSession, StateStoreError>)
      ensures r.Ok? ==>
                && fresh(r.value) && r.value.store == store
                && Seen(store.root.view, look, store.platform)
                && Parse(TargetOf(store.root.view), store.platform.text) == Ok(r.value.read)
      ensures r.Err? ==> r.error == Invalid
      ensures store.root.faults == 0 && Seen(store.root.view, look, store.platform) ==> r.Ok?
    {
      var read, _ := store.Read(look);
      if read.Err? { return Err(read.error); }
      var session := new StateSession(store, read.value);
      return Ok(session);
    }

    ghost function Root(): OwnedRoot {
      store.root
    }

    ghost function Text(): Text {
      store.platform.text
    }

    /** Nothing stands in the way of this commit. */
    ghost predicate Unopposed(txn: LockedStateTxn, request: Request, state: State, txid: Txid)
      reads txn, Root(), txn.Root()
    {
      && txn.Unhindered(state, txid)
      && Warranted(request, TargetOf(Root().view), state, txn.revision, store.platform)
    }

    method Dispatch(txn: LockedStateTxn, request: Request, state: State, txid: Txid)
      returns (r: Result<Receipt, StateStoreError>, ghost attempt: Option<Attempt>)
      requires txn.Valid() && txn.Root() == Root() && txn.platform == store.platform
      modifies txn, Root()
      ensures Root().Valid() && Sound(Root().Now()) && old(Root().log) <= Root().log
      ensures Outcome(old(txn.Stands()), txn.Stands(), state, r, attempt, Text())
      ensures attempt.Some? ==> Answers(request, attempt.value.audit)
      ensures Root().faults <= old(Root().faults)
      ensures old(Unopposed(txn, request, state, txid)) ==> r.Ok?
    {
      match request {
        case Ordinary => r, attempt := txn.CommitExact(state, txid);
        case Coordinated(proofs, home) => r, attempt := txn.CommitCoordinated(state, proofs, home, txid);
        case Migration(permit) => r, attempt := txn.CommitMigration(state, permit, txid);
      }
    }

    /** What a commit under the lock leaves for the session. */
    method CommitUnderLock(
      txn: LockedStateTxn, request: Request, state: State, meanwhile: Image, txid: Txid)
      returns (r: Result<Receipt, StateStoreError>, ghost attempt: Option<Attempt>)
      requires txn.Valid() && txn.Root() == Root() && txn.platform == store.platform
      requires Root().log[0] == meanwhile && Run(Root().log, 0, Recovery)
      requires TargetOf(Root().view) == TargetOf(meanwhile.view)
      requires txn.revision.document == DigestOf(TargetOf(Root().view))
      modifies txn, Root()
      ensures Root().Valid() && Sound(Root().Now())
      ensures attempt.Some? ==>
                && Serves(Root().log, old(|Root().log|) - 1, meanwhile, attempt.value, Text())
                && Answers(request, attempt.value.audit)
                && Attempts(attempt.value.op, old(txn.revision), meanwhile)
      ensures attempt.None? ==> r.Err? && Root().view == old(Root().view)
      ensures r.Ok? ==>
                && attempt.Some? && attempt.value.verdict.Ok?
                && TargetOf(Root().view) == Some(attempt.value.op.bytes)
                && Parse(TargetOf(Root().view), Text()).Ok?
                && var after := Parse(TargetOf(Root().view), Text()).value;
                   Advanced(state, old(txn.revision), attempt.value, Committed(after, r.value))
      ensures Root().faults <= old(Root().faults)
      ensures old(Unopposed(txn, request, state, txid)) ==> r.Ok?
    {
      ghost var was, text := txn.Stands(), Text();
      r, attempt := Dispatch(txn, request, state, txid);
      ghost var now := txn.Stands();
      CommitServes(was, now, state, r, attempt, meanwhile, text);
    }

    /** The callback of a session's commit: commit, then look again while the lock is still held. */
    method CommitAndRefresh(
      txn: LockedStateTxn, request: Request, state: State, meanwhile: Image, txid: Txid)
      returns (r: Result<Committed, StateStoreError>, ghost attempt: Option<Attempt>)
      requires txn.Valid() && txn.Root() == Root() && txn.platform == store.platform
      requires Root().log[0] == meanwhile && Run(Root().log, 0, Recovery)
      requires TargetOf(Root().view) == TargetOf(meanwhile.view)
      requires txn.revision.document == DigestOf(TargetOf(Root().view))
      modifies txn, Root()
      ensures Root().Valid()
      ensures attempt.Some? ==>
                && Serves(Root().log, old(|Root().log|) - 1, meanwhile, attempt.value, Text())
                && Answers(request, attempt.value.audit)
                && Attempts(attempt.value.op, old(txn.revision), meanwhile)
      ensures attempt.None? ==> r.Err? && Root().view == old(Root().view)
      ensures r.Ok? ==>
                && attempt.Some? && attempt.value.verdict.Ok?
                && TargetOf(Root().view) == Some(attempt.value.op.bytes)
                && Advanced(state, old(txn.revision), attempt.value, r.value)
      ensures old(Unopposed(txn, request, state, txid)) ==> r.Ok?
    {
      var receipt: Result<Receipt, StateStoreError>;
      receipt, attempt := CommitUnderLock(txn, request, state, meanwhile, txid);
      if receipt.Err? { return Err(receipt.error), attempt; }
      SettledIsFile(Root().Now());
      var after := txn.Snapshot();
      if after.Err? { return Err(after.error), attempt; }
      return Ok(Committed(after.value, receipt.value)), attempt;
    }

    /** No fault is to come, nobody else changes the root, and a valid state with its evidence is to be written. */
    ghost predicate Due(request: Request, state: State, look: Look, meanwhile: Image, txid: Txid)
      reads this, Root()
    {
      && Root().faults == 0 && Startable(Root().view, read.revision, look, store.platform)
      && meanwhile == Root().Now() && Fresh(meanwhile.view, txid)
      && Writable(state, read.revision, Text())
      && Warranted(request, TargetOf(meanwhile.view), state, read.revision, store.platform)
      && (request.Migration? ==> !read.migration.NoMigration?)
    }

    /** The transaction that a commit runs in. */
    method Start(request: Request, state: State, look: Look, meanwhile: Image, txid: Txid)
      returns (r: Result<LockedStateTxn, StateStoreError>)
      requires Root().Valid() && Sound(meanwhile)
      modifies Root()
      ensures Root().Valid()
      ensures r.Ok? ==>
                && fresh(r.value) && r.value.Valid() && r.value.Root() == Root() && r.value.platform == store.platform
                && r.value.revision == read.revision
                && Root().log[0] == meanwhile && Run(Root().log, 0, Recovery)
                && TargetOf(Root().view) == TargetOf(meanwhile.view)
                && read.revision.document == DigestOf(TargetOf(Root().view))
      ensures r.Err? ==> Root().view == old(Root().view) || TargetOf(Root().view) == TargetOf(meanwhile.view)
      ensures old(Due(request, state, look, meanwhile, txid)) ==>
                r.Ok? && Unopposed(r.value, request, state, txid)
    {
      ghost var due := Due(request, state, look, meanwhile, txid);
      r := store.Begin(read.revision, look, meanwhile);
      if due { BegunIsUnhindered(r.value, meanwhile.view, state, txid); }
    }

    /** The commit of a session: `commit_exact`, `commit_coordinated_with_active` and `commit_migration`. */
    method Commit(request: Request, state: State, look: Look, meanwhile: Image, txid: Txid)
      returns (r: Result<Committed, StateStoreError>, ghost at: nat, ghost attempt: Option<Attempt>)
      requires Root().Valid() && Sound(meanwhile)
      modifies this, Root()
      ensures Root().Valid()
      ensures attempt.Some? ==>
                && Serves(Root().log, at, meanwhile, attempt.value, Text())
                && Answers(request, attempt.value.audit)
                && Attempts(attempt.value.op, old(read.revision), meanwhile)
      // Without an attempt the document is the one that was found.
      ensures attempt.None? ==>
                && r.Err?
                && (Root().view == old(Root().view) || TargetOf(Root().view) == TargetOf(meanwhile.view))
      // The session advances to exactly what it committed, and only then.
      ensures r.Ok? ==>
                && attempt.Some? && attempt.value.verdict.Ok?
                && TargetOf(Root().view) == Some(attempt.value.op.bytes)
                && Advanced(state, old(read.revision), attempt.value, r.value)
                && read == r.value.after
      ensures r.Err? ==> read == old(read)
      // What each kind of commit refuses before it looks at the disk.
      ensures request.Ordinary? && !old(read.revision.generation.Current?) ==>
                r == Err(MigrationRequired) && attempt.None?
      ensures request.Migration? && old(read.migration.NoMigration?) ==> r == Err(Invalid) && attempt.None?
      // Without a fault, on a root that nobody else changes, a warranted and valid state is committed.
      ensures old(Due(request, state, look, meanwhile, txid)) ==> r.Ok?
    {
      attempt, at := None, 0;
      if request.Ordinary? && !read.revision.generation.Current? { return Err(MigrationRequired), at, attempt; }
      if request.Migration? && read.migration.NoMigration? { return Err(Invalid), at, attempt; }
      var begun := Start(request, state, look, meanwhile, txid);
      if begun.Err? { return Err(begun.error), at, attempt; }
      at := |Root().log| - 1;
      r, attempt := CommitAndRefresh(begun.value, request, state, meanwhile, txid);
      if r.Ok? { read := r.value.after; }
    }

    /** No fault is to come, nobody else changes the root, and the proofs cover the document to migrate. */
    ghost predicate Sealable(proofs: seq<CredentialProof>, look: Look, meanwhile: Image)
      reads this, Root()
    {
      && Root().faults == 0 && Startable(Root().view, read.revision, look, store.platform)
      && meanwhile == Root().Now() && !read.migration.NoMigration? && !read.revision.generation.Current?
      && Parse(TargetOf(meanwhile.view), Text()).Ok?
      && PermitCovers(Parse(TargetOf(meanwhile.view), Text()).value.state, proofs, store.platform)
    }

    /** `migration_permit`: look at the accounts under the lock and seal the evidence for this revision. */
    method SealPermit(proofs: seq<CredentialProof>, look: Look, meanwhile: Image)
      returns (r: Result<MigrationPermit, StateStoreError>)
      requires Root().Valid() && Sound(meanwhile)
      modifies Root()
      ensures Root().Valid()
      ensures read.migration.NoMigration? ==> r == Err(Invalid) && Root().view == old(Root().view)
      ensures r.Ok? ==>
                && r.value == MigrationPermit(read.revision, proofs)
                && !read.revision.generation.Current?
                && TargetOf(Root().view) == TargetOf(meanwhile.view)
                && Parse(TargetOf(meanwhile.view), Text()).Ok?
                && PermitCovers(Parse(TargetOf(meanwhile.view), Text()).value.state, proofs, store.platform)
      // Without a fault, on a root that nobody else changes, proofs that cover a document to migrate are sealed.
      ensures old(Sealable(proofs, look, meanwhile)) ==> r.Ok?
    {
      if read.migration.NoMigration? { return Err(Invalid); }
      var begun := store.Begin(read.revision, look, meanwhile);
      if begun.Err? { return Err(begun.error); }
      SettledIsFile(Root().Now());
      r := begun.value.SealMigration(proofs);
    }

    /** `bootstrap_empty_v2`: two transactions, each against the revision of the missing document. */
    method BootstrapEmpty(look: Look, first: Image, look': Look, second: Image, txid: Txid)
      returns (r: Result<Committed, StateStoreError>)
      requires Root().Valid() && Sound(first) && Sound(second)
      modifies this, Root()
      ensures Root().Valid()
      ensures !old(read.migration.NoState? && read.state.accounts == [] && read.state.credentialRefs == map[]) ==>
                r == Err(Invalid) && Root().view == old(Root().view)
      ensures r.Ok? ==>
                && old(read.migration.NoState?)
                && read == r.value.after
                && read.state == Numbered(DEFAULT_STATE, old(NumberOf(read.revision)) + 1)
                && r.value.receipt.transitions == [] && r.value.receipt.active.None?
                && DigestOf(TargetOf(Root().view)) == read.revision.document
      ensures r.Err? ==> read == old(read)
    {
      if !read.migration.NoState? || read.state.accounts != [] || read.state.credentialRefs != map[] {
        return Err(Invalid);
      }
      var permit := SealPermit([], look, first);
      if permit.Err? { return Err(permit.error); }
      var empty := DEFAULT_STATE.(version := STATE_V2_VERSION);
      assert forall number :: Numbered(empty, number) == Numbered(DEFAULT_STATE, number);
      ghost var at, attempt;
      r, at, attempt := Commit(Migration(permit.value), empty, look', second, txid);
      if r.Ok? {
        assert read.state.accounts == [];
      }
    }
  }

  /**
   No session can start on a directory in which the document was just replaced:
   the reader asks for the stage that the rename consumed.  Recovery would
   finish that commit, but it only runs inside a transaction, and `Begin`
   refuses before it takes the lock.
  */
  lemma Stranded(a: Image, op: Op, platform: Platform)
    requires Sound(a) && Armed(a.view, op) && TargetOf(a.view) == op.pre
    ensures var d := Renamed(a.view, DocStage(op.txid), Target);
            PreviewOf(d) == Finalize && TargetOf(d) == Some(op.bytes) && !Readable(d, platform)
  {
    UnreadableAfterReplace(a, op);
  }

  /** On what the protocol leaves behind, exactly a refused root, a consumed stage or a bad text stops a reader. */
  lemma ReadableExactly(img: Image, platform: Platform)
    requires Sound(img)
    ensures Readable(img.view, platform) <==>
              && platform.listable(img.view)
              && Parse(TargetOf(img.view), platform.text).Ok?
              && (FixedJournal in img.view ==>
                    var j := JournalOf(img.view).value;
                    StageIntact(img.view, j) && Parse(Undone(Some(j.goal)), platform.text).Ok?)
  {
    assert GoodDir(img.view);
    SoundReadableIff(img);
  }
}
