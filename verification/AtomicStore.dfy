/** The journaled compare-and-swap store of src/core/atomic_store.rs. */
module AtomicStore {
  import opened Options
  import opened Documents
  import opened Faults
  import opened AtomicIo
  import opened StoreProtocol

  datatype StoreError =
    | Conflict(expected: ExpectedDigest, actual: Option<Digest>)
    | RecoveryConflict(live: Option<Digest>, base: Option<Digest>, goal: Digest)
    | Reconcile
    | Unapplied
    | InvalidJournal
    | Io
    | PreflightChanged
    | ValidatorRejected

  datatype RecoveryOutcome = Nothing | Finalized | RolledBack

  datatype CommitReceipt = CommitReceipt(digest: Digest)

  datatype UncertainPhase = JournalPublication | TargetMutation

  datatype Preview =
    | Clean
    | Finalize
    | Rollback
    | Clash(live: Option<Digest>, base: Option<Digest>, goal: Digest)

  /** What recovery is about to do, decided from the live digest and the journal alone. */
  function RecoveryPreview(live: Option<Digest>, journal: Option<Journal>): Preview {
    match journal
    case None => Clean
    case Some(j) =>
      if live == Some(j.goal) then Finalize
      else if live == j.base then Rollback
      else Clash(live, j.base, j.goal)
  }

  ghost function PreviewOf(d: Dir): Preview {
    RecoveryPreview(DigestOf(TargetOf(d)), JournalOf(d))
  }

  /** The names a recovery from `d` may remove. */
  function Disposable(d: Dir): set<Name> {
    match JournalOf(d)
    case None => {}
    case Some(j) => {FixedJournal, DocStage(j.staged)}
  }

  /** What recovery needs of a directory: a journal it can read and agree with, and nothing but files at its names. */
  ghost predicate Resolvable(d: Dir) {
    && !Foreign(d, Target) && !PreviewOf(d).Clash?
    && (FixedJournal in d ==> JournalOf(d).Some? && !Foreign(d, DocStage(JournalOf(d).value.staged)))
  }

  /** A link, directory or special file under this name; the store never touches one. */
  predicate Foreign(d: Dir, n: Name) {
    n in d && d[n].NotAFile?
  }

  /** `d'` is `d` with some of the names gone and nothing else changed. */
  ghost predicate Pruned(d: Dir, d': Dir, names: set<Name>) {
    && d'.Keys <= d.Keys
    && d.Keys - d'.Keys <= names
    && forall n <- d' :: d'[n] == d[n]
  }

  /** No name appeared but that of the lock file. */
  ghost predicate NothingNew(d: Dir, d': Dir) {
    forall n | n in d' && n != FixedLock :: n in d
  }

  lemma PrunedTwice(d: Dir, d': Dir, d'': Dir, names: set<Name>, names': set<Name>)
    requires Pruned(d, d', names) && Pruned(d', d'', names')
    ensures Pruned(d, d'', names + names')
  {
    assert d.Keys - d''.Keys <= (d.Keys - d'.Keys) + (d'.Keys - d''.Keys);
  }

  lemma KeepsTarget(d: Dir, d': Dir, names: set<Name>)
    requires Pruned(d, d', names) && Target !in names
    ensures Target in d <==> Target in d'
    ensures TargetOf(d') == TargetOf(d)
  {
    assert Target in d && Target !in d' ==> Target in d.Keys - d'.Keys;
  }

  lemma KeepsRest(d: Dir, d': Dir, names: set<Name>)
    requires Pruned(d, d', names)
    ensures forall n | n in d && n !in names :: n in d' && d'[n] == d[n]
  {
    assert forall n | n in d && n !in d' :: n in d.Keys - d'.Keys;
  }

  /** The journal is no longer needed: the document is certain and the stage is gone. */
  ghost predicate Droppable(img: Image) {
    Agreed(img) && (JournalOf(img.view).Some? ==> DocStage(JournalOf(img.view).value.staged) !in img.view)
  }

  /** What each verdict of a commit promises about the image it leaves behind. */
  ghost predicate Truthful(img: Image, pre: Option<Bytes>, bytes: Bytes, r: Result<CommitReceipt, StoreError>) {
    match r
    case Ok(receipt) => receipt.digest == Sha256(bytes) && Settled(img, Some(bytes))
    case Err(Unapplied) => Settled(img, pre)
    case Err(Conflict(_, actual)) => Settled(img, pre) && actual == DigestOf(pre)
    case Err(RecoveryConflict(_, _, _)) => false
    case Err(PreflightChanged) => false
    case Err(ValidatorRejected) => false
    case Err(_) => TargetOf(img.view) == pre || TargetOf(img.view) == Some(bytes)
  }

  /** The images one locked operation shows, and the verdict it returns at the end of them. */
  ghost predicate Episode(images: seq<Image>, op: Op, r: Result<CommitReceipt, StoreError>) {
    && |images| > 0
    && Run(images, 0, op)
    && (op.Commit? ==>
          && op.pre == TargetOf(images[0].view)
          && Truthful(images[|images| - 1], op.pre, op.bytes, r)
          && (r.Ok? ==> Matches(op.expected, DigestOf(op.pre)))
          && (r.Err? && r.error.Conflict? ==> r.error.expected == op.expected && !Matches(op.expected, r.error.actual)))
  }

  /** What a commit needs of a directory: the expected document, fresh names, and nothing in the way of recovery. */
  ghost predicate Committable(d: Dir, expected: ExpectedDigest, txid: Txid) {
    && Resolvable(d) && Matches(expected, DigestOf(TargetOf(d)))
    && Fresh(d, txid)
  }

  /** A commit of `op` is under way: only its own journal and value can be on the disk. */
  ghost predicate InFlight(img: Image, op: Op) {
    && op.Commit?
    && Sound(img)
    && (FixedJournal in img.view ==> JournalOf(img.view) == Some(JournalFor(op)))
    && (TargetOf(img.view) == op.pre || TargetOf(img.view) == Some(op.bytes))
  }

  /** Only files stand where the decision of an uncertain commit looks and cleans up. */
  ghost predicate Decidable(d: Dir, txid: Txid) {
    Resolvable(d) && !Foreign(d, DocStage(txid))
  }

  /** The names of this transaction are not taken. */
  ghost predicate Fresh(d: Dir, txid: Txid) {
    DocStage(txid) !in d && JournalStage(txid) !in d
  }

  /** The verdict tells which document is live, and neither journal nor stage is left. */
  ghost predicate Certain(d: Dir, op: Op, r: Result<CommitReceipt, StoreError>)
    requires op.Commit?
  {
    && (r.Err? ==> TargetOf(d) == op.pre)
    && FixedJournal !in d && DocStage(op.txid) !in d
  }

  /** How an uncertain commit that left `d` behind is decided. */
  ghost predicate Resolved(d: Dir, op: Op, r: Result<CommitReceipt, StoreError>)
    requires op.Commit?
  {
    if TargetOf(d) == Some(op.bytes) then r.Ok?
    else if FixedJournal in d then r == Err(Unapplied)
    else r == Err(Reconcile)
  }

  /** The journal, if any, names this stage. */
  ghost predicate Names(d: Dir, staged: Txid) {
    JournalOf(d).Some? ==> JournalOf(d).value.staged == staged
  }

  /** The rename that publishes the journal, and the directory sync after it. */
  lemma PublishRuns(log: seq<Image>, before: Image, d: Dir, journal: Journal, txid: Txid, from: nat, op: Op)
    requires Run(log, from, op) && log[|log| - 1] == before && Sound(before)
    requires op.Commit? && journal == JournalFor(op) && TargetOf(before.view) == op.pre
    requires FixedJournal !in before.view
    requires JournalStage(txid) in before.view && before.view[JournalStage(txid)] == File(Record(journal), true)
    requires d == Renamed(before.view, JournalStage(txid), FixedJournal)
    ensures Run(log + [After(before, d)], from, op)
    ensures Run(log + [After(before, d)] + [Synced(After(before, d))], from, op)
    ensures Sound(After(before, d)) && Agreed(After(before, d)) && Sound(Synced(After(before, d)))
    ensures JournalOf(d) == Some(journal) && TargetOf(d) == op.pre
  {
    PublishStep(before, d, op);
    RunStep(log, from, op, After(before, d));
    SyncStep(After(before, d), op);
    RunStep(log + [After(before, d)], from, op, Synced(After(before, d)));
  }

  /** The rename over the document, and the directory sync after it. */
  lemma ReplaceRuns(log: seq<Image>, before: Image, d: Dir, from: nat, op: Op)
    requires Run(log, from, op) && log[|log| - 1] == before && Sound(before) && Agreed(before)
    requires op.Commit? && TargetOf(before.view) == op.pre && Matches(op.expected, DigestOf(op.pre))
    requires before.view in before.held && forall e <- before.held :: Armed(e, op)
    requires DocStage(op.txid) in before.view && d == Renamed(before.view, DocStage(op.txid), Target)
    ensures Run(log + [After(before, d)], from, op)
    ensures Run(log + [After(before, d)] + [Synced(After(before, d))], from, op)
    ensures Sound(After(before, d)) && Agreed(Synced(After(before, d)))
    ensures JournalOf(d) == Some(JournalFor(op)) && TargetOf(d) == Some(op.bytes)
  {
    ReplaceStep(before, d, op);
    RunStep(log, from, op, After(before, d));
    SyncStep(After(before, d), op);
    RunStep(log + [After(before, d)], from, op, Synced(After(before, d)));
  }

  class AtomicStore {
    const root: OwnedRoot
    const lock: ExclusiveLock

    constructor (root: OwnedRoot)
      ensures this.root == root && fresh(lock) && !lock.held && lock.reliable == (root.faults == 0)
    {
      this.root := root;
      lock := new ExclusiveLock(root.faults == 0);
    }

    method ReadSnapshot() returns (r: Result<Option<Bytes>, StoreError>)
      ensures r.Ok? ==> r.value == TargetOf(root.view)
      ensures r.Err? ==> r.error == Io
      ensures root.faults == 0 && !Foreign(root.view, Target) ==> r.Ok?
    {
      var fault := Fault(root.faults == 0);
      if fault || (Target in root.view && root.view[Target].NotAFile?) { return Err(Io); }
      return Ok(TargetOf(root.view));
    }

    method ReadJournal() returns (r: Result<Option<Journal>, StoreError>)
      ensures r.Ok? ==> r.value == JournalOf(root.view) && (r.value.None? ==> FixedJournal !in root.view)
      ensures r.Err? ==> r.error == Io || r.error == InvalidJournal
      ensures root.faults == 0 && (FixedJournal in root.view ==> JournalOf(root.view).Some?) ==> r.Ok?
    {
      var unreadable := Fault(root.faults == 0);
      if unreadable { return Err(Io); }
      if FixedJournal !in root.view { return Ok(None); }
      if root.view[FixedJournal].NotAFile? { return Err(Io); }
      var refused := Fault(root.faults == 0);
      if !root.view[FixedJournal].bytes.Record? || refused { return Err(InvalidJournal); }
      return Ok(Some(root.view[FixedJournal].bytes.journal));
    }

    /** Remove a stage, or the journal once no crash can undo the document. */
    method RemoveIfPresent(n: Name, ghost from: nat, ghost op: Op) returns (r: Result<(), StoreError>)
      requires root.Valid()
      modifies root
      ensures root.Valid()
      ensures r.Ok? ==> n !in root.view
      ensures r.Err? ==> r.error == Unapplied || r.error == Reconcile
      ensures Pruned(old(root.view), root.view, {n})
      ensures old(n in root.view && root.view[n].NotAFile?) ==> r.Err? && root.view == old(root.view)
      ensures old(root.log) <= root.log
      ensures old(n != Target && (n == FixedJournal ==> Droppable(root.Now())) && Run(root.log, from, op)) ==>
                && Run(root.log, from, op)
                && (old(Agreed(root.Now())) ==> Agreed(root.Now()))
      ensures root.faults <= old(root.faults)
      ensures r.Err? && !old(Foreign(root.view, n)) ==> root.faults < old(root.faults)
    {
      ghost var before := root.Now();
      ghost var log := root.log;
      var m := root.Remove(n);
      if n != Target && (n == FixedJournal ==> Droppable(before)) && Run(log, from, op) {
        SoundAt(log, from, op, |log| - 1);
        if root.log != log {
          var first := After(before, before.view - {n});
          if n == FixedJournal { DropJournalStep(before, op); } else { TouchStep(before, first.view, op); }
          RunStep(log, from, op, first);
          if |root.log| == |log| + 2 {
            SyncStep(first, op);
            RunStep(log + [first], from, op, Synced(first));
            assert root.log == log + [first] + [Synced(first)];
          }
        }
      }
      match m
      case Done(_) => return Ok(());
      case NotApplied => return Err(Unapplied);
      case ReconcileRequired => return Err(Reconcile);
    }

    /** `cleanup_journal` and `finalize_journal`: the stage first, the journal last. */
    method CleanupJournal(staged: Txid, ghost from: nat, ghost op: Op) returns (r: Result<(), StoreError>)
      requires root.Valid()
      modifies root
      ensures root.Valid()
      ensures r.Ok? ==> FixedJournal !in root.view && DocStage(staged) !in root.view
      ensures r.Err? ==> r.error == Unapplied || r.error == Reconcile
      ensures Pruned(old(root.view), root.view, {FixedJournal, DocStage(staged)})
      ensures old(Foreign(root.view, DocStage(staged))) ==> root.view == old(root.view)
      ensures TargetOf(root.view) == old(TargetOf(root.view))
      ensures old(root.log) <= root.log
      ensures old(Agreed(root.Now()) && Run(root.log, from, op) && Names(root.view, staged)) ==>
                Agreed(root.Now()) && Run(root.log, from, op)
      ensures root.faults <= old(root.faults)
      ensures r.Err? && !old(Foreign(root.view, DocStage(staged))) && !old(Foreign(root.view, FixedJournal)) ==>
                root.faults < old(root.faults)
    {
      var first := RemoveIfPresent(DocStage(staged), from, op);
      if first.Err? {
        KeepsTarget(old(root.view), root.view, {DocStage(staged)});
        return first;
      }
      ghost var between := root.view;
      r := RemoveIfPresent(FixedJournal, from, op);
      PrunedTwice(old(root.view), between, root.view, {DocStage(staged)}, {FixedJournal});
      KeepsTarget(old(root.view), root.view, {FixedJournal, DocStage(staged)});
    }

    /** Flush the document and its directory entry, so that no crash can undo it. */
    method SyncTarget(ghost from: nat, ghost op: Op) returns (ok: bool)
      requires root.Valid()
      modifies root
      ensures root.Valid() && old(root.log) <= root.log
      ensures JournalOf(root.view) == old(JournalOf(root.view)) && TargetOf(root.view) == old(TargetOf(root.view))
      ensures old(Run(root.log, from, op)) ==>
                && Run(root.log, from, op)
                && root.view == old(root.view)
                && (ok ==> Agreed(root.Now()))
      ensures forall n | n != Target :: Foreign(root.view, n) <==> old(Foreign(root.view, n))
      ensures root.faults <= old(root.faults)
      ensures !ok && old(TargetOf(root.view)).Some? ==> root.faults < old(root.faults)
    {
      ghost var log := root.log;
      ghost var before := root.Now();
      ok := root.SyncFile(Target);
      if Run(log, from, op) && ok {
        SoundAt(log, from, op, |log| - 1);
        assert root.view == before.view && before.held + {before.view} == before.held;
        assert root.Now() == before;
        TouchStep(before, before.view, op);
        RunStep(log, from, op, before);
      }
      if !ok { return; }
      ghost var flushed := root.log;
      ok := root.SyncParent();
      if Run(flushed, from, op) && ok {
        var last := flushed[|flushed| - 1];
        SoundAt(flushed, from, op, |flushed| - 1);
        SyncStep(last, op);
        RunStep(flushed, from, op, Synced(last));
      }
    }

    /** The live document is the one the journal promises: make it certain, then clean up. */
    method SettleLive(staged: Txid, ghost from: nat, ghost op: Op) returns (ok: bool)
      requires root.Valid()
      modifies root
      ensures root.Valid() && old(root.log) <= root.log && root.faults <= old(root.faults)
      ensures TargetOf(root.view) == old(TargetOf(root.view))
      ensures ok ==> FixedJournal !in root.view && DocStage(staged) !in root.view
      ensures old(Run(root.log, from, op) && Names(root.view, staged)) ==>
                && Run(root.log, from, op)
                && Pruned(old(root.view), root.view, {FixedJournal, DocStage(staged)})
                && (old(Foreign(root.view, DocStage(staged))) ==> root.view == old(root.view))
                && (ok ==> Agreed(root.Now()))
      ensures !ok && old(TargetOf(root.view).Some? && !Foreign(root.view, DocStage(staged))
                         && !Foreign(root.view, FixedJournal)) ==>
                root.faults < old(root.faults)
    {
      ok := SyncTarget(from, op);
      if !ok { return; }
      var cleaned := CleanupJournal(staged, from, op);
      ok := cleaned.Ok?;
    }

    /** Resolve a prepared journal; the caller holds the lock. */
    method RecoverLocked(ghost from: nat, ghost op: Op) returns (r: Result<RecoveryOutcome, StoreError>)
      requires lock.held
      requires root.Valid()
      modifies root
      ensures root.Valid() && old(root.log) <= root.log
      // On every directory the outcome is the one the preview predicts, unless the platform fails.
      ensures match r
              case Ok(Nothing) => old(PreviewOf(root.view)) == Clean && root.view == old(root.view)
              case Ok(Finalized) => old(PreviewOf(root.view)) == Finalize
              case Ok(RolledBack) => old(PreviewOf(root.view)) == Rollback
              case Err(RecoveryConflict(live, base, goal)) =>
                old(PreviewOf(root.view)) == Clash(live, base, goal) && root.view == old(root.view)
              case Err(e) => e == Io || e == InvalidJournal || e == Reconcile
      ensures old(PreviewOf(root.view)).Clash? ==> r.Err? && root.view == old(root.view)
      ensures r.Ok? ==> FixedJournal !in root.view
                        && (old(JournalOf(root.view)).Some? ==>
                              DocStage(old(JournalOf(root.view)).value.staged) !in root.view)
      // The live document is never altered.
      ensures TargetOf(root.view) == old(TargetOf(root.view))
      // When only lock holders write, no conflict is ever found and only the journal and its stage go.
      ensures old(Run(root.log, from, op)) ==>
                && Run(root.log, from, op)
                && !(r.Err? && r.error.RecoveryConflict?)
                && Pruned(old(root.view), root.view, old(Disposable(root.view)))
                && (old(exists n <- Disposable(root.view) :: Foreign(root.view, n)) ==> root.view == old(root.view))
                && (r.Ok? ==> Settled(root.Now(), old(TargetOf(root.view))))
      ensures root.faults <= old(root.faults)
      // Without a fault nothing but a conflict or an entry that is not a file stands in the way.
      ensures old(root.faults == 0 && Resolvable(root.view)) ==> r.Ok?
      ensures r == Err(Reconcile) && old(Resolvable(root.view)) ==> root.faults < old(root.faults)
    {
      ghost var before := root.Now();
      ghost var running := Run(root.log, from, op);
      if running { SoundAt(root.log, from, op, |root.log| - 1); }
      var read := ReadJournal();
      if read.Err? { return Err(read.error); }
      if read.value.None? { return Ok(Nothing); }
      var journal := read.value.value;
      var snapshot := ReadSnapshot();
      if snapshot.Err? { return Err(Io); }
      var live := DigestOf(snapshot.value);
      if live == Some(journal.goal) {
        var settled := SettleLive(journal.staged, from, op);
        if running { SoundAt(root.log, from, op, |root.log| - 1); }
        return if settled then Ok(Finalized) else Err(Reconcile);
      }
      if live == journal.base {
        assert running ==> Agreed(before);
        var cleaned := CleanupJournal(journal.staged, from, op);
        if running { SoundAt(root.log, from, op, |root.log| - 1); }
        if cleaned.Err? { return Err(Reconcile); }
        return Ok(RolledBack);
      }
      return Err(RecoveryConflict(live, journal.base, journal.goal));
    }

    /** Create, fill and flush one stage; on failure try to take it away again. */
    method WriteNew(n: Name, bytes: Bytes, ghost from: nat, ghost op: Op) returns (ok: bool)
      requires root.Valid() && Run(root.log, from, op)
      requires n.DocStage? || n.JournalStage?
      modifies root
      ensures root.Valid() && Run(root.log, from, op) && old(root.log) <= root.log
      ensures Elsewhere(old(root.view), root.view, {n})
      ensures ok ==> n in root.view && root.view[n] == File(bytes, true)
      ensures old(Agreed(root.Now())) ==> Agreed(root.Now())
      ensures root.faults <= old(root.faults)
      ensures !ok && n !in old(root.view) ==> root.faults < old(root.faults)
      ensures !ok && n !in old(root.view) && old(root.faults) <= 1 ==> n !in root.view
    {
      ghost var log := root.log;
      ok := root.CreateNew(n);
      if !ok { return; }
      TouchRun(log, from, op, root.view);
      ok := FillNew(n, bytes, from, op);
    }

    method FillNew(n: Name, bytes: Bytes, ghost from: nat, ghost op: Op) returns (ok: bool)
      requires root.Valid() && Run(root.log, from, op)
      requires (n.DocStage? || n.JournalStage?) && n in root.view && root.view[n].File? && !root.view[n].flushed
      modifies root
      ensures root.Valid() && Run(root.log, from, op) && old(root.log) <= root.log
      ensures Elsewhere(old(root.view), root.view, {n})
      ensures ok ==> n in root.view && root.view[n] == File(bytes, true)
      ensures old(Agreed(root.Now())) ==> Agreed(root.Now())
      ensures root.faults <= old(root.faults)
      ensures !ok ==> root.faults < old(root.faults)
      ensures !ok && old(root.faults) <= 1 ==> n !in root.view
    {
      ghost var log := root.log;
      ok := root.WriteAll(n, bytes);
      TouchRun(log, from, op, root.view);
      if ok {
        log := root.log;
        ok := root.SyncFile(n);
        if ok {
          TouchRun(log, from, op, root.view);
          return;
        }
      }
      var _ := RemoveIfPresent(n, from, op);
    }

    method WriteStaged(txid: Txid, bytes: Bytes, ghost from: nat, ghost op: Op) returns (r: Result<(), StoreError>)
      requires root.Valid() && Run(root.log, from, op)
      modifies root
      ensures root.Valid() && Run(root.log, from, op) && old(root.log) <= root.log
      ensures SameCore(old(root.view), root.view) && Elsewhere(old(root.view), root.view, {DocStage(txid)})
      ensures root.faults <= old(root.faults)
      ensures r.Err? && DocStage(txid) !in old(root.view) ==> root.faults < old(root.faults)
      ensures r.Err? && DocStage(txid) !in old(root.view) && old(root.faults) <= 1 ==> DocStage(txid) !in root.view
      ensures r.Ok? ==> DocStage(txid) in root.view && root.view[DocStage(txid)] == File(bytes, true)
      ensures r.Err? ==> r.error == Unapplied
      ensures old(Agreed(root.Now())) ==> Agreed(root.Now())
    {
      var ok := WriteNew(DocStage(txid), bytes, from, op);
      return if ok then Ok(()) else Err(Unapplied);
    }

    /** The journal was not renamed into place: its stage goes, and nothing else. */
    method DropJournalStage(txid: Txid, ghost from: nat, ghost op: Op)
      requires root.Valid() && Run(root.log, from, op) && Agreed(root.Now())
      requires FixedJournal !in root.view
      modifies root
      ensures root.Valid() && Run(root.log, from, op) && old(root.log) <= root.log
      ensures Sound(root.Now()) && Agreed(root.Now()) && root.faults <= old(root.faults)
      ensures FixedJournal !in root.view && TargetOf(root.view) == old(TargetOf(root.view))
      ensures forall n: Name | n.DocStage? && n in old(root.view) :: n in root.view && root.view[n] == old(root.view)[n]
    {
      ghost var d := root.view;
      var _ := RemoveIfPresent(JournalStage(txid), from, op);
      KeepsTarget(d, root.view, {JournalStage(txid)});
      KeepsRest(d, root.view, {JournalStage(txid)});
      SoundAt(root.log, from, op, |root.log| - 1);
    }

    /** Make the prepared journal durable under its fixed name. */
    method PublishJournal(journal: Journal, txid: Txid, ghost from: nat, ghost op: Op)
      returns (r: Result<(), StoreError>)
      requires root.Valid() && Run(root.log, from, op)
      requires op.Commit? && journal == JournalFor(op)
      requires FixedJournal !in root.view && TargetOf(root.view) == op.pre
      modifies root
      ensures root.Valid() && Run(root.log, from, op) && old(root.log) <= root.log
      ensures Agreed(root.Now())
      ensures FixedJournal in root.view ==> root.view[FixedJournal] == File(Record(journal), true)
      ensures r.Ok? ==> root.held == {root.view} && JournalOf(root.view) == Some(journal)
      ensures r.Err? ==> r.error == Unapplied || r.error == Reconcile
      ensures r.Err? && r.error == Unapplied ==> FixedJournal !in root.view
      ensures InFlight(root.Now(), op) && TargetOf(root.view) == op.pre
      ensures forall n: Name | n.DocStage? && n in old(root.view) :: n in root.view && root.view[n] == old(root.view)[n]
      ensures root.faults <= old(root.faults)
      ensures r.Err? && JournalStage(txid) !in old(root.view) ==> root.faults < old(root.faults)
    {
      SoundAt(root.log, from, op, |root.log| - 1);
      NoJournalAgrees(root.Now());
      var ok := WriteNew(JournalStage(txid), Record(journal), from, op);
      ghost var log := root.log;
      ghost var before := root.Now();
      SoundAt(log, from, op, |log| - 1);
      if !ok { return Err(Unapplied); }
      ghost var d := Renamed(before.view, JournalStage(txid), FixedJournal);
      PublishRuns(log, before, d, journal, txid, from, op);
      var m := root.Replace(JournalStage(txid), FixedJournal);
      match m
      case Done(_) =>
        assert root.log == log + [After(before, d)] + [Synced(After(before, d))];
        return Ok(());
      case NotApplied =>
        DropJournalStage(txid, from, op);
        return Err(Unapplied);
      case ReconcileRequired =>
        return Err(Reconcile);
    }

    /** The journal was not published: take the unreferenced stage away. */
    method HandlePrejournalFailure(error: StoreError, txid: Txid, ghost from: nat, ghost op: Op) returns (e: StoreError)
      requires lock.held
      requires root.Valid() && Run(root.log, from, op)
      requires op.Commit? && error == Unapplied && FixedJournal !in root.view && TargetOf(root.view) == op.pre
      modifies root
      ensures root.Valid() && Run(root.log, from, op) && old(root.log) <= root.log
      ensures root.faults <= old(root.faults)
      ensures Truthful(root.Now(), op.pre, op.bytes, Err(e)) && (e == Unapplied || e == Reconcile)
      ensures TargetOf(root.view) == op.pre && FixedJournal !in root.view
      ensures old(root.faults == 0 && !Foreign(root.view, DocStage(txid))) ==>
                e == Unapplied && DocStage(txid) !in root.view
    {
      var removed := RemoveIfPresent(DocStage(txid), from, op);
      KeepsTarget(old(root.view), root.view, {DocStage(txid)});
      SoundAt(root.log, from, op, |root.log| - 1);
      return if removed.Ok? then error else Reconcile;
    }

    /** The replacement did not happen: take stage and journal away. */
    method RollbackAfterNotApplied(txid: Txid, ghost from: nat, ghost op: Op) returns (e: StoreError)
      requires lock.held
      requires root.Valid() && Run(root.log, from, op) && Agreed(root.Now()) && Names(root.view, txid)
      modifies root
      ensures root.Valid() && Run(root.log, from, op) && old(root.log) <= root.log
      ensures root.faults <= old(root.faults)
      ensures TargetOf(root.view) == old(TargetOf(root.view))
      ensures e == Unapplied || e == Reconcile
      ensures e == Unapplied ==> FixedJournal !in root.view && DocStage(txid) !in root.view
      ensures old(root.faults == 0 && !Foreign(root.view, DocStage(txid)) && !Foreign(root.view, FixedJournal)) ==>
                e == Unapplied
    {
      var cleaned := CleanupJournal(txid, from, op);
      return if cleaned.Ok? then Unapplied else Reconcile;
    }

    /** An outcome is uncertain and no journal is left to decide it. */
    method ResolveWithoutJournal(txid: Txid, goal: Digest, phase: UncertainPhase, ghost from: nat, ghost op: Op)
      returns (r: Result<CommitReceipt, StoreError>)
      requires lock.held
      requires root.Valid() && Run(root.log, from, op) && InFlight(root.Now(), op)
      requires FixedJournal !in root.view && goal == Sha256(op.bytes)
      modifies root
      ensures root.Valid() && Run(root.log, from, op) && old(root.log) <= root.log
      ensures root.faults <= old(root.faults)
      ensures Truthful(root.Now(), op.pre, op.bytes, r) && (r.Err? ==> !r.error.Conflict?)
      ensures r.Ok? ==> DocStage(txid) !in root.view
      // After a target mutation the unreferenced stage is evidence and stays.
      ensures phase.TargetMutation? && r.Err? && old(TargetOf(root.view)) != Some(op.bytes) ==>
                root.view == old(root.view)
      // Without a further fault the document that is live decides.
      ensures old(root.faults == 0 && !Foreign(root.view, DocStage(txid))) ==>
                && (if old(TargetOf(root.view)) == Some(op.bytes) then r.Ok? else r == Err(Reconcile))
                && (r.Ok? || phase.JournalPublication? ==> DocStage(txid) !in root.view)
      ensures FixedJournal !in root.view && TargetOf(root.view) == old(TargetOf(root.view))
    {
      var snapshot := ReadSnapshot();
      if snapshot.Err? { return Err(Io); }
      if DigestOf(snapshot.value) == Some(goal) {
        var durable := SyncTarget(from, op);
        if !durable { return Err(Reconcile); }
        var middle := root.view;
        var removed := RemoveIfPresent(DocStage(txid), from, op);
        KeepsTarget(middle, root.view, {DocStage(txid)});
        SoundAt(root.log, from, op, |root.log| - 1);
        if removed.Err? { return Err(Reconcile); }
        return Ok(CommitReceipt(goal));
      }
      if phase.TargetMutation? { return Err(Reconcile); }
      var before := root.view;
      var _ := RemoveIfPresent(DocStage(txid), from, op);
      KeepsTarget(before, root.view, {DocStage(txid)});
      return Err(Reconcile);
    }

    /** Recovery itself was uncertain: retry the durability of a live target once. */
    method RetryLiveTarget(txid: Txid, goal: Digest, ghost from: nat, ghost op: Op)
      returns (r: Result<CommitReceipt, StoreError>)
      requires lock.held
      requires root.Valid() && Run(root.log, from, op) && InFlight(root.Now(), op)
      requires goal == Sha256(op.bytes) && txid == op.txid
      modifies root
      ensures root.Valid() && Run(root.log, from, op) && old(root.log) <= root.log
      ensures root.faults <= old(root.faults)
      ensures Truthful(root.Now(), op.pre, op.bytes, r) && (r.Err? ==> !r.error.Conflict?)
      ensures r.Ok? ==> DocStage(txid) !in root.view
      // Without a further fault a live target is made certain and the rest is cleaned up.
      ensures old(root.faults == 0 && Resolvable(root.view) && !Foreign(root.view, DocStage(txid))) ==>
                if old(TargetOf(root.view)) == Some(op.bytes) then r.Ok? && FixedJournal !in root.view
                else r == Err(Reconcile) && root.view == old(root.view)
      ensures TargetOf(root.view) == old(TargetOf(root.view))
    {
      var snapshot := ReadSnapshot();
      if snapshot.Err? { return Err(Io); }
      if DigestOf(snapshot.value) != Some(goal) { return Err(Reconcile); }
      var durable := SyncTarget(from, op);
      if !durable { return Err(Reconcile); }
      var recovered := RecoverLocked(from, op);
      match recovered
      case Ok(Finalized) => return Ok(CommitReceipt(goal));
      case Ok(RolledBack) => return Err(Unapplied);
      case Ok(Nothing) =>
        ghost var middle := root.view;
        var removed := RemoveIfPresent(DocStage(txid), from, op);
        KeepsTarget(middle, root.view, {DocStage(txid)});
        SoundAt(root.log, from, op, |root.log| - 1);
        if removed.Err? { return Err(Reconcile); }
        return Ok(CommitReceipt(goal));
      case Err(error) => return Err(error);
    }

    /** Decide an uncertain mutation: a journal that is present has the last word. */
    method ReconcileUncertain(txid: Txid, goal: Digest, phase: UncertainPhase, ghost from: nat, ghost op: Op)
      returns (r: Result<CommitReceipt, StoreError>)
      requires lock.held
      requires root.Valid() && Run(root.log, from, op) && InFlight(root.Now(), op)
      requires goal == Sha256(op.bytes) && txid == op.txid
      modifies root
      ensures root.Valid() && Run(root.log, from, op) && old(root.log) <= root.log
      ensures root.faults <= old(root.faults)
      ensures Truthful(root.Now(), op.pre, op.bytes, r) && (r.Err? ==> !r.error.Conflict?)
      ensures r.Ok? ==> DocStage(txid) !in root.view
      ensures TargetOf(root.view) == old(TargetOf(root.view))
      // Without a further fault the uncertainty is resolved: by the journal, or without one by the live document.
      ensures old(Decidable(root.view, txid)) && old(root.faults) == 0 ==>
                && Resolved(old(root.view), op, r) && FixedJournal !in root.view
                && (r != Err(Reconcile) || phase.JournalPublication? ==> DocStage(txid) !in root.view)
      // One further fault in the cleanup is retried.
      ensures old(Decidable(root.view, txid) && FixedJournal in root.view && TargetOf(root.view) == Some(op.bytes))
              && old(root.faults) <= 1 ==>
                r.Ok? || r == Err(Io) || r == Err(InvalidJournal)
    {
      var recovered := RecoverLocked(from, op);
      SoundAt(root.log, from, op, |root.log| - 1);
      match recovered
      case Ok(Finalized) => return Ok(CommitReceipt(goal));
      case Ok(RolledBack) => return Err(Unapplied);
      case Ok(Nothing) =>
        r := ResolveWithoutJournal(txid, goal, phase, from, op);
      case Err(Reconcile) =>
        r := RetryLiveTarget(txid, goal, from, op);
      case Err(error) => return Err(error);
    }

    /** Compare and swap the document; the caller holds the lock. */
    method CommitLocked(expected: ExpectedDigest, bytes: Bytes, txid: Txid)
      returns (r: Result<CommitReceipt, StoreError>)
      requires lock.held
      requires root.Valid() && Sound(root.Now())
      modifies root
      ensures root.Valid() && old(root.log) <= root.log && root.faults <= old(root.faults)
      ensures Episode(root.log[old(|root.log|) - 1..], Commit(expected, old(TargetOf(root.view)), bytes, txid), r)
      ensures r.Ok? ==> DocStage(txid) !in root.view
      // Without a fault a commit that finds what it expects succeeds, and one that does not reports that.
      ensures old(Committable(root.view, expected, txid) && root.faults == 0) ==> r.Ok?
      ensures old(Resolvable(root.view) && !Matches(expected, DigestOf(TargetOf(root.view))) && root.faults == 0) ==>
                r == Err(Conflict(expected, old(DigestOf(TargetOf(root.view)))))
      // With at most one fault in all, the verdict tells which document is live, and of a clean root nothing is left.
      ensures old(Committable(root.view, expected, txid) && root.faults <= 1) ==>
                && (r.Err? ==> TargetOf(root.view) == old(TargetOf(root.view)))
                && (FixedJournal !in old(root.view) ==> FixedJournal !in root.view && DocStage(txid) !in root.view)
    {
      r := CommitSteps(expected, bytes, txid);
      RunSuffix(root.log, old(|root.log|) - 1, Commit(expected, old(TargetOf(root.view)), bytes, txid));
    }

    method CommitSteps(expected: ExpectedDigest, bytes: Bytes, txid: Txid)
      returns (r: Result<CommitReceipt, StoreError>)
      requires lock.held
      requires root.Valid() && Sound(root.Now())
      modifies root
      ensures root.Valid() && old(root.log) <= root.log && root.faults <= old(root.faults)
      ensures Run(root.log, old(|root.log|) - 1, Commit(expected, old(TargetOf(root.view)), bytes, txid))
      ensures Truthful(root.Now(), old(TargetOf(root.view)), bytes, r)
      ensures r.Ok? ==> Matches(expected, old(DigestOf(TargetOf(root.view)))) && DocStage(txid) !in root.view
      ensures r.Err? && r.error.Conflict? ==>
                r.error.expected == expected && !Matches(expected, r.error.actual)
      ensures old(Committable(root.view, expected, txid) && root.faults == 0) ==> r.Ok?
      ensures old(Resolvable(root.view) && !Matches(expected, DigestOf(TargetOf(root.view))) && root.faults == 0) ==>
                r == Err(Conflict(expected, old(DigestOf(TargetOf(root.view)))))
      // With at most one fault in all, the verdict tells which document is live, and of a clean root nothing is left.
      ensures old(Committable(root.view, expected, txid) && root.faults <= 1) ==>
                && (r.Err? ==> TargetOf(root.view) == old(TargetOf(root.view)))
                && (FixedJournal !in old(root.view) ==> FixedJournal !in root.view && DocStage(txid) !in root.view)
    {
      ghost var from := |root.log| - 1;
      ghost var op := Commit(expected, TargetOf(root.view), bytes, txid);
      var recovered := RecoverLocked(from, op);
      if recovered.Err? { return Err(recovered.error); }
      var snapshot := ReadSnapshot();
      if snapshot.Err? { return Err(Io); }
      var base := DigestOf(snapshot.value);
      if !Matches(expected, base) { return Err(Conflict(expected, base)); }
      r := PublishNew(base, bytes, txid, from, op);
    }

    /** Stage the document, then publish it. */
    method PublishNew(base: Option<Digest>, bytes: Bytes, txid: Txid, ghost from: nat, ghost op: Op)
      returns (r: Result<CommitReceipt, StoreError>)
      requires lock.held
      requires root.Valid() && Run(root.log, from, op)
      requires op.Commit? && op.pre == TargetOf(root.view) && op.bytes == bytes && op.txid == txid
      requires base == DigestOf(op.pre) && Matches(op.expected, base)
      requires FixedJournal !in root.view
      modifies root
      ensures root.Valid() && Run(root.log, from, op) && old(root.log) <= root.log
      ensures root.faults <= old(root.faults)
      ensures Truthful(root.Now(), op.pre, bytes, r)
      ensures r.Ok? ==> DocStage(txid) !in root.view
      ensures r.Err? ==> !r.error.Conflict?
      ensures old(root.faults == 0 && Fresh(root.view, txid)) ==> r.Ok?
      ensures old(root.faults <= 1 && Fresh(root.view, txid)) ==> Certain(root.view, op, r)
    {
      var written := WriteStaged(txid, bytes, from, op);
      SoundAt(root.log, from, op, |root.log| - 1);
      if written.Err? { return Err(written.error); }
      r := PublishStaged(base, bytes, txid, from, op);
    }

    /** The stage is durable: publish the journal that names it, then replace the target. */
    method PublishStaged(base: Option<Digest>, bytes: Bytes, txid: Txid, ghost from: nat, ghost op: Op)
      returns (r: Result<CommitReceipt, StoreError>)
      requires lock.held
      requires root.Valid() && Run(root.log, from, op)
      requires op.Commit? && op.pre == TargetOf(root.view) && op.bytes == bytes && op.txid == txid
      requires base == DigestOf(op.pre) && Matches(op.expected, base)
      requires FixedJournal !in root.view
      requires DocStage(txid) in root.view && root.view[DocStage(txid)] == File(bytes, true)
      modifies root
      ensures root.Valid() && Run(root.log, from, op) && old(root.log) <= root.log
      ensures root.faults <= old(root.faults)
      ensures Truthful(root.Now(), op.pre, bytes, r)
      ensures r.Ok? ==> DocStage(txid) !in root.view
      ensures r.Err? ==> !r.error.Conflict?
      ensures old(root.faults == 0 && JournalStage(txid) !in root.view) ==> r.Ok?
      ensures old(root.faults <= 1 && JournalStage(txid) !in root.view) ==> Certain(root.view, op, r)
    {
      var goal := Sha256(bytes);
      var published := PublishJournal(Journal(base, goal, txid), txid, from, op);
      if published.Ok? {
        r := ReplaceTarget(txid, goal, from, op);
      } else if published.error == Reconcile {
        r := ReconcileUncertain(txid, goal, JournalPublication, from, op);
      } else {
        var error := HandlePrejournalFailure(published.error, txid, from, op);
        return Err(error);
      }
    }

    /** The document is replaced and certain: only the cleanup is left. */
    method FinishReplaced(txid: Txid, goal: Digest, ghost from: nat, ghost op: Op)
      returns (r: Result<CommitReceipt, StoreError>)
      requires lock.held
      requires root.Valid() && Run(root.log, from, op) && Agreed(root.Now())
      requires op.Commit? && goal == Sha256(op.bytes) && txid == op.txid
      requires TargetOf(root.view) == Some(op.bytes) && JournalOf(root.view) == Some(JournalFor(op))
      modifies root
      ensures root.Valid() && Run(root.log, from, op) && old(root.log) <= root.log
      ensures root.faults <= old(root.faults)
      ensures Truthful(root.Now(), op.pre, op.bytes, r) && (r.Err? ==> !r.error.Conflict?)
      ensures r.Ok? ==> DocStage(txid) !in root.view
      ensures old(root.faults <= 1 && !Foreign(root.view, DocStage(txid))) ==> r.Ok? && FixedJournal !in root.view
    {
      var finalized := CleanupJournal(txid, from, op);
      SoundAt(root.log, from, op, |root.log| - 1);
      if finalized.Ok? { return Ok(CommitReceipt(goal)); }
      r := ReconcileUncertain(txid, goal, TargetMutation, from, op);
    }

    /** The journal is durable: rename the stage over the document and clean up. */
    method ReplaceTarget(txid: Txid, goal: Digest, ghost from: nat, ghost op: Op)
      returns (r: Result<CommitReceipt, StoreError>)
      requires lock.held
      requires root.Valid() && Run(root.log, from, op) && Agreed(root.Now())
      requires op.Commit? && goal == Sha256(op.bytes) && txid == op.txid
      requires TargetOf(root.view) == op.pre && Matches(op.expected, DigestOf(op.pre))
      requires forall d <- root.held :: Armed(d, op)
      modifies root
      ensures root.Valid() && Run(root.log, from, op) && old(root.log) <= root.log
      ensures root.faults <= old(root.faults)
      ensures Truthful(root.Now(), op.pre, op.bytes, r) && (r.Err? ==> !r.error.Conflict?)
      ensures r.Ok? ==> DocStage(txid) !in root.view
      ensures old(root.faults) == 0 ==> r.Ok?
      ensures old(root.faults) <= 1 ==> Certain(root.view, op, r)
    {
      ghost var log := root.log;
      ghost var before := root.Now();
      SoundAt(log, from, op, |log| - 1);
      ghost var d := Renamed(before.view, DocStage(txid), Target);
      ReplaceRuns(log, before, d, from, op);
      var m := root.Replace(DocStage(txid), Target);
      match m
      case Done(_) =>
        assert root.log == log + [After(before, d)] + [Synced(After(before, d))];
        r := FinishReplaced(txid, goal, from, op);
      case NotApplied =>
        var error := RollbackAfterNotApplied(txid, from, op);
        SoundAt(root.log, from, op, |root.log| - 1);
        return Err(error);
      case ReconcileRequired =>
        r := ReconcileUncertain(txid, goal, TargetMutation, from, op);
    }

    /** Open or create the fixed lock file and take it; nothing else moves. */
    method AcquireLock(ghost from: nat, ghost op: Op) returns (ok: bool)
      requires root.Valid()
      modifies root, lock
      ensures root.Valid() && old(root.log) <= root.log
      ensures ok ==> lock.held && FixedLock in root.view && root.view[FixedLock].File?
      ensures Elsewhere(old(root.view), root.view, {FixedLock})
      ensures old(FixedLock in root.view) ==> root.view == old(root.view)
      ensures old(Run(root.log, from, op)) ==> Run(root.log, from, op)
      ensures root.faults <= old(root.faults)
      ensures old(root.faults == 0 && lock.reliable && !Foreign(root.view, FixedLock)) ==> ok
    {
      var fault := root.Fails();
      if fault || (FixedLock in root.view && root.view[FixedLock].NotAFile?) { return false; }
      if FixedLock !in root.view {
        ghost var log := root.log;
        var created := root.CreateNew(FixedLock);
        if !created { return false; }
        if Run(log, from, op) { TouchRun(log, from, op, root.view); }
      }
      ok := lock.Take();
    }

    /** Take the lock, resolve any journal and compare the live digest. */
    method LockExact(expected: Option<Digest>, ghost from: nat, ghost op: Op) returns (r: Result<(), StoreError>)
      requires root.Valid() && Run(root.log, from, op)
      modifies root, lock
      ensures root.Valid() && old(root.log) <= root.log && Run(root.log, from, op)
      ensures r.Ok? ==> lock.held
      ensures root.faults <= old(root.faults)
      ensures NothingNew(old(root.view), root.view)
      ensures TargetOf(root.view) == old(TargetOf(root.view))
      ensures r.Ok? ==> Settled(root.Now(), old(TargetOf(root.view))) && DigestOf(TargetOf(root.view)) == expected
      ensures r.Err? && r.error.Conflict? ==> DigestOf(TargetOf(root.view)) == r.error.actual != expected
      ensures old(root.faults == 0 && lock.reliable && Resolvable(root.view) && !Foreign(root.view, FixedLock)) ==>
                if old(DigestOf(TargetOf(root.view))) == expected then r.Ok? else r.Err? && r.error.Conflict?
    {
      var locked := AcquireLock(from, op);
      if !locked { return Err(Io); }
      var recovered := RecoverLocked(from, op);
      if recovered.Err? { return Err(recovered.error); }
      var snapshot := ReadSnapshot();
      if snapshot.Err? { return Err(Io); }
      var live := DigestOf(snapshot.value);
      if expected != live { return Err(Conflict(Exact(expected), live)); }
      return Ok(());
    }
  }
}
