/** Adoption of a populated directory: preflight, orphan cleanup and the retained lock. */
module Adoption {
  import opened Options
  import opened Documents
  import opened Faults
  import opened AtomicIo
  import opened StoreProtocol
  import opened AtomicStore

  datatype EntryKind = RegularFile | OtherKind

  datatype InventoryEntry = InventoryEntry(name: Name, kind: EntryKind)

  /** The listing is sorted by name, so that two listings are equal exactly if they have the same entries. */
  datatype Preflight = Preflight(
    inventory: set<InventoryEntry>,
    live: Option<Digest>,
    journal: Option<Journal>,
    orphans: seq<Name>)

  function KindOf(e: Entry): EntryKind {
    if e.File? then RegularFile else OtherKind
  }

  /** A regular stage file that the journal does not name. */
  predicate IsOrphan(e: InventoryEntry, journal: Option<Journal>) {
    && (e.name.DocStage? || e.name.JournalStage?)
    && e.kind == RegularFile
    && !(journal.Some? && e.name == DocStage(journal.value.staged))
  }

  /** The stage files a cleanup may take from a directory. */
  ghost predicate OrphanIn(d: Dir, n: Name) {
    n in d && IsOrphan(InventoryEntry(n, KindOf(d[n])), JournalOf(d))
  }

  /** Of the listed names none is the stage of the journal, and all are regular stages. */
  ghost predicate Spares(d: Dir, names: seq<Name>) {
    && (JournalOf(d).Some? ==> DocStage(JournalOf(d).value.staged) !in names)
    && (forall n <- names :: (n.DocStage? || n.JournalStage?) && n in d && d[n].File?)
  }

  /** The stage that the journal promises is there as it was, and so is everything that is not a regular stage. */
  ghost predicate NamedStageKept(d: Dir, d': Dir) {
    && (JournalOf(d).Some? && DocStage(JournalOf(d).value.staged) in d ==>
          var n := DocStage(JournalOf(d).value.staged); n in d' && d'[n] == d[n])
    && (forall n <- d | d[n].NotAFile? || !(n.DocStage? || n.JournalStage?) :: n in d' && d'[n] == d[n])
  }

  /** No regular stage is left but the one that the journal names. */
  ghost predicate OnlyNamedStage(d: Dir) {
    forall n <- d | d[n].File? && (n.DocStage? || n.JournalStage?) ::
      JournalOf(d).Some? && n == DocStage(JournalOf(d).value.staged)
  }

  lemma OnlyOrphansGo(d: Dir, d': Dir)
    requires forall n | n != FixedLock && !OrphanIn(d, n) && n in d :: n in d' && d'[n] == d[n]
    requires FixedLock in d ==> FixedLock in d' && d'[FixedLock] == d[FixedLock]
    ensures NamedStageKept(d, d')
  {
  }

  lemma OrphansWereThere(d: Dir, d': Dir)
    requires forall n | n != FixedLock && !OrphanIn(d, n) :: n in d <==> n in d'
    ensures NothingNew(d, d')
  {
    forall n | n in d' && n != FixedLock ensures n in d {
      if OrphanIn(d, n) { assert n in d; }
    }
  }

  lemma StillResolvable(d: Dir, d': Dir)
    requires forall n | n != FixedLock && !OrphanIn(d, n) :: (n in d <==> n in d') && (n in d ==> d'[n] == d[n])
    ensures Resolvable(d) ==> Resolvable(d')
  {
    if JournalOf(d).Some? { assert !OrphanIn(d, DocStage(JournalOf(d).value.staged)); }
  }

  /** A recovery that finds something foreign at its names leaves everything as it is. */
  lemma ForeignStays(d: Dir, d': Dir)
    requires Pruned(d, d', Disposable(d))
    requires (exists n <- Disposable(d) :: Foreign(d, n)) ==> d' == d
    ensures forall n | n in d && d[n].NotAFile? :: n in d' && d'[n] == NotAFile
  {
    KeepsRest(d, d', Disposable(d));
    forall n | n in d && d[n].NotAFile? ensures n in d' && d'[n] == NotAFile {
      if n in Disposable(d) { assert Foreign(d, n); }
    }
  }

  /** Adopted and recovered, a directory has no regular stage. */
  lemma NoStageLeft(d: Dir, d': Dir)
    requires Pruned(d, d', Disposable(d)) && (forall n :: !OrphanIn(d, n))
    requires forall n <- Disposable(d) :: n !in d'
    ensures forall n | n in d' && (n.DocStage? || n.JournalStage?) :: d'[n].NotAFile?
  {
    forall n | n in d' && (n.DocStage? || n.JournalStage?) ensures d'[n].NotAFile? {
      assert !OrphanIn(d, n);
      assert d[n].File? ==> n in Disposable(d);
    }
  }

  lemma NoOrphanLeft(d: Dir)
    requires forall n :: !OrphanIn(d, n)
    ensures OnlyNamedStage(d)
  {
    forall n | n in d && d[n].File? && (n.DocStage? || n.JournalStage?)
      ensures JournalOf(d).Some? && n == DocStage(JournalOf(d).value.staged)
    {
      assert !OrphanIn(d, n);
    }
  }

  ghost predicate Covers(inventory: set<InventoryEntry>, d: Dir) {
    && (forall e <- inventory :: e.name in d && e.kind == KindOf(d[e.name]))
    && (forall n <- d :: InventoryEntry(n, KindOf(d[n])) in inventory)
  }

  method ClassifyInventory(inventory: seq<InventoryEntry>, journal: Option<Journal>) returns (orphans: seq<Name>)
    ensures forall n :: n in orphans <==> exists e <- inventory :: e.name == n && IsOrphan(e, journal)
    // Only regular stages are orphans, and never the one that the journal names.
    ensures forall n <- orphans :: (n.DocStage? || n.JournalStage?) && InventoryEntry(n, RegularFile) in inventory
    ensures journal.Some? ==> DocStage(journal.value.staged) !in orphans
    ensures forall e <- inventory | e.kind == RegularFile && (e.name.DocStage? || e.name.JournalStage?) ::
              e.name in orphans || (journal.Some? && e.name == DocStage(journal.value.staged))
  {
    orphans := [];
    for i := 0 to |inventory|
      invariant forall n :: n in orphans <==> exists e <- inventory[..i] :: e.name == n && IsOrphan(e, journal)
    {
      ghost var before := orphans;
      var e := inventory[i];
      if IsOrphan(e, journal) {
        orphans := orphans + [e.name];
      }
      assert inventory[..i + 1] == inventory[..i] + [e];
    }
    assert inventory[..|inventory|] == inventory;
  }

  function ToSet(listing: seq<InventoryEntry>): set<InventoryEntry> {
    set e | e in listing
  }

  function WithoutLock(inventory: set<InventoryEntry>): set<InventoryEntry> {
    set e | e in inventory && e.name != FixedLock
  }

  predicate EquivalentIgnoringLock(expected: Preflight, current: Preflight) {
    && expected.live == current.live
    && expected.journal == current.journal
    && WithoutLock(expected.inventory) == WithoutLock(current.inventory)
  }

  /** The earlier look saw this directory: its document, its journal, and apart from the lock all its entries. */
  ghost predicate Unmoved(expected: Preflight, d: Dir) {
    && expected.live == DigestOf(TargetOf(d)) && expected.journal == JournalOf(d)
    && (forall n | n in d && n != FixedLock :: InventoryEntry(n, KindOf(d[n])) in expected.inventory)
    && (forall e <- expected.inventory | e.name != FixedLock :: e.name in d && e.kind == KindOf(d[e.name]))
  }

  lemma EquivalentIsUnmoved(expected: Preflight, current: Preflight, d: Dir)
    requires EquivalentIgnoringLock(expected, current) && Covers(current.inventory, d)
    requires current.live == DigestOf(TargetOf(d)) && current.journal == JournalOf(d)
    ensures Unmoved(expected, d)
  {
    forall n | n in d && n != FixedLock ensures InventoryEntry(n, KindOf(d[n])) in expected.inventory {
      assert InventoryEntry(n, KindOf(d[n])) in WithoutLock(current.inventory);
    }
    forall e | e in expected.inventory && e.name != FixedLock ensures e.name in d && e.kind == KindOf(d[e.name]) {
      assert e in WithoutLock(current.inventory);
    }
  }

  /** Two looks at directories that differ in the lock file at most are equivalent. */
  lemma UnmovedIsEquivalent(expected: Preflight, current: Preflight, d: Dir)
    requires Unmoved(expected, d) && Unmoved(current, d)
    ensures EquivalentIgnoringLock(expected, current)
  {
    forall e | e in WithoutLock(expected.inventory) ensures e in WithoutLock(current.inventory) {
      assert e == InventoryEntry(e.name, KindOf(d[e.name]));
    }
    forall e | e in WithoutLock(current.inventory) ensures e in WithoutLock(expected.inventory) {
      assert e == InventoryEntry(e.name, KindOf(d[e.name]));
    }
  }

  /** What a look at this directory finds is acceptable, whether the lock file is there or not. */
  ghost predicate Acceptable(d: Dir, accepts: Preflight -> bool) {
    forall p | Unmoved(p, d) :: accepts(p)
  }

  /** What an adoption needs: a readable directory, which the earlier look saw and every such look accepts. */
  ghost predicate Adoptable(d: Dir, expected: Preflight, accepts: Preflight -> bool) {
    && !Foreign(d, Target) && (FixedJournal in d ==> JournalOf(d).Some?)
    && Unmoved(expected, d) && Acceptable(d, accepts)
  }

  lemma LockIsIgnored(d: Dir, d': Dir, expected: Preflight, accepts: Preflight -> bool)
    requires Elsewhere(d, d', {FixedLock})
    ensures Adoptable(d, expected, accepts) ==> Adoptable(d', expected, accepts)
  {
    assert forall p :: Unmoved(p, d') ==> Unmoved(p, d);
  }

  /** A store whose fixed lock is held for the lifetime of the value. */
  class LockedAtomicStore {
    const store: AtomicStore

    constructor (store: AtomicStore)
      ensures this.store == store
    {
      this.store := store;
    }

    method Inventory() returns (inventory: seq<InventoryEntry>)
      ensures Covers(ToSet(inventory), store.root.view)
    {
      inventory := [];
      var rest := store.root.view.Keys;
      while rest != {}
        invariant rest <= store.root.view.Keys
        invariant forall e <- inventory :: e.name in store.root.view && e.kind == KindOf(store.root.view[e.name])
        invariant forall n <- store.root.view ::
                    n in rest || InventoryEntry(n, KindOf(store.root.view[n])) in inventory
        decreases rest
      {
        var n :| n in rest;
        inventory := inventory + [InventoryEntry(n, KindOf(store.root.view[n]))];
        rest := rest - {n};
      }
    }

    /** `preflight_existing`: a bounded look at the directory without any side effect. */
    method PreflightExisting() returns (r: Result<Preflight, StoreError>)
      ensures r.Ok? ==>
                && Covers(r.value.inventory, store.root.view)
                && r.value.live == DigestOf(TargetOf(store.root.view))
                && r.value.journal == JournalOf(store.root.view)
                && (forall n :: n in r.value.orphans <==> OrphanIn(store.root.view, n))
                && Spares(store.root.view, r.value.orphans)
      ensures r.Err? ==> r.error == Io || r.error == InvalidJournal
      ensures r.Ok? ==> Unmoved(r.value, store.root.view)
      ensures store.root.faults == 0 && !Foreign(store.root.view, Target)
              && (FixedJournal in store.root.view ==> JournalOf(store.root.view).Some?) ==>
                r.Ok?
    {
      var unlisted := Fault(store.root.faults == 0);
      if unlisted { return Err(Io); }
      var inventory := Inventory();
      var snapshot := store.ReadSnapshot();
      if snapshot.Err? { return Err(Io); }
      var journal := store.ReadJournal();
      if journal.Err? { return Err(journal.error); }
      var orphans := ClassifyInventory(inventory, journal.value);
      assert forall n :: n in orphans <==> OrphanIn(store.root.view, n) by {
        forall n ensures n in orphans <==> OrphanIn(store.root.view, n) {
          if OrphanIn(store.root.view, n) {
            var e := InventoryEntry(n, KindOf(store.root.view[n]));
            assert e in inventory && e.name == n && IsOrphan(e, journal.value);
          }
        }
      }
      return Ok(Preflight(ToSet(inventory), DigestOf(snapshot.value), journal.value, orphans));
    }

    /** Remove the classified stages one by one, stopping at the first failure. */
    method CleanupOrphans(orphans: seq<Name>, ghost from: nat, ghost op: Op) returns (r: Result<(), StoreError>)
      requires store.lock.held
      requires store.root.Valid()
      requires forall n <- orphans :: OrphanIn(store.root.view, n)
      modifies store.root
      ensures store.root.Valid() && old(store.root.log) <= store.root.log
      ensures Pruned(old(store.root.view), store.root.view, set n | n in orphans)
      ensures r.Ok? ==> forall n <- orphans :: n !in store.root.view
      ensures r.Err? ==> r.error == Unapplied || r.error == Reconcile
      ensures old(Run(store.root.log, from, op)) ==> Run(store.root.log, from, op)
      ensures store.root.faults <= old(store.root.faults)
      ensures old(store.root.faults) == 0 ==> r.Ok?
    {
      ghost var start := store.root.view;
      ghost var gone := set n | n in orphans;
      for i := 0 to |orphans|
        invariant store.root.Valid() && old(store.root.log) <= store.root.log
        invariant Pruned(start, store.root.view, gone)
        invariant forall k | 0 <= k < i :: orphans[k] !in store.root.view
        invariant store.root.faults <= old(store.root.faults)
        invariant old(Run(store.root.log, from, op)) ==> Run(store.root.log, from, op)
      {
        ghost var before := store.root.view;
        assert OrphanIn(start, orphans[i]);
        var removed := store.RemoveIfPresent(orphans[i], from, op);
        PrunedTwice(start, before, store.root.view, gone, {orphans[i]});
        assert gone + {orphans[i]} == gone;
        if removed.Err? { return removed; }
      }
      return Ok(());
    }

    /** The second look, with the lock held, and the cleanup if nothing moved in between. */
    method CleanIfUnchanged(expected: Preflight, accepts: Preflight -> bool, ghost from: nat, ghost op: Op)
      returns (r: Result<(), StoreError>)
      requires store.lock.held
      requires store.root.Valid()
      modifies store.root
      ensures store.root.Valid() && old(store.root.log) <= store.root.log
      ensures old(Run(store.root.log, from, op)) ==> Run(store.root.log, from, op)
      ensures forall n | !old(OrphanIn(store.root.view, n)) ::
                && (n in old(store.root.view) <==> n in store.root.view)
                && (n in old(store.root.view) ==> store.root.view[n] == old(store.root.view)[n])
      ensures r == Err(ValidatorRejected) || r == Err(PreflightChanged) ==> store.root.view == old(store.root.view)
      ensures r.Ok? ==> (forall n :: !OrphanIn(store.root.view, n)) && OnlyNamedStage(store.root.view)
      ensures r.Ok? ==> Unmoved(expected, old(store.root.view))
      ensures store.root.faults <= old(store.root.faults)
      ensures old(store.root.faults == 0 && Adoptable(store.root.view, expected, accepts)) ==> r.Ok?
    {
      var moved := Fault(store.root.faults == 0);
      if moved { return Err(PreflightChanged); }
      var current := PreflightExisting();
      if current.Err? { return Err(current.error); }
      if Unmoved(expected, store.root.view) { UnmovedIsEquivalent(expected, current.value, store.root.view); }
      if !EquivalentIgnoringLock(expected, current.value) { return Err(PreflightChanged); }
      if !accepts(current.value) { return Err(ValidatorRejected); }
      ghost var d := store.root.view;
      EquivalentIsUnmoved(expected, current.value, d);
      r := CleanupOrphans(current.value.orphans, from, op);
      KeepsRest(d, store.root.view, set n | n in current.value.orphans);
      if r.Ok? { NoOrphanLeft(store.root.view); }
    }

    /**
     `adopt_existing_with`: validate, lock, look again, validate again, then clean.
     `expected` is whatever an earlier unlocked preflight returned.
     */
    method AdoptExisting(expected: Preflight, accepts: Preflight -> bool, ghost from: nat, ghost op: Op)
      returns (r: Result<(), StoreError>)
      requires store.root.Valid()
      modifies store.root, store.lock
      ensures r.Ok? ==> store.lock.held && FixedLock in store.root.view
      ensures store.root.Valid() && old(store.root.log) <= store.root.log
      ensures old(Run(store.root.log, from, op)) ==> Run(store.root.log, from, op)
      // Only the lock file may appear and only unreferenced regular stages may go.
      ensures forall n | n != FixedLock && !old(OrphanIn(store.root.view, n)) ::
                && (n in old(store.root.view) <==> n in store.root.view)
                && (n in old(store.root.view) ==> store.root.view[n] == old(store.root.view)[n])
      ensures old(FixedLock in store.root.view) ==>
                FixedLock in store.root.view && store.root.view[FixedLock] == old(store.root.view)[FixedLock]
      ensures !accepts(expected) ==> r == Err(ValidatorRejected) && store.root.view == old(store.root.view)
      ensures r == Err(ValidatorRejected) || r == Err(PreflightChanged) ==>
                Elsewhere(old(store.root.view), store.root.view, {FixedLock})
      ensures r.Ok? ==> forall n :: !OrphanIn(store.root.view, n)
      // Success means that nothing moved since the unlocked look but the lock file.
      ensures r.Ok? ==> Unmoved(expected, old(store.root.view))
      // What goes is a regular stage, and the stage that the journal names stays as it is.
      ensures NamedStageKept(old(store.root.view), store.root.view)
      ensures r.Ok? ==> OnlyNamedStage(store.root.view)
      // Without a fault, what was looked at and did not move is adopted.
      ensures store.root.faults <= old(store.root.faults)
      ensures old(store.root.faults == 0 && store.lock.reliable && !Foreign(store.root.view, FixedLock)
                  && Adoptable(store.root.view, expected, accepts)) ==>
                r.Ok?
    {
      if !accepts(expected) { return Err(ValidatorRejected); }
      var locked := store.AcquireLock(from, op);
      if !locked { return Err(Io); }
      LockIsIgnored(old(store.root.view), store.root.view, expected, accepts);
      assert JournalOf(store.root.view) == JournalOf(old(store.root.view));
      r := CleanIfUnchanged(expected, accepts, from, op);
      OnlyOrphansGo(old(store.root.view), store.root.view);
    }

    method Recover(ghost from: nat, ghost op: Op) returns (r: Result<RecoveryOutcome, StoreError>)
      requires store.lock.held
      requires store.root.Valid() && Run(store.root.log, from, op)
      modifies store.root
      ensures store.root.Valid() && old(store.root.log) <= store.root.log && Run(store.root.log, from, op)
      ensures Pruned(old(store.root.view), store.root.view, old(Disposable(store.root.view)))
      ensures old(exists n <- Disposable(store.root.view) :: Foreign(store.root.view, n)) ==>
                store.root.view == old(store.root.view)
      ensures r.Ok? ==> Settled(store.root.Now(), old(TargetOf(store.root.view)))
      ensures r.Ok? ==> forall n <- old(Disposable(store.root.view)) :: n !in store.root.view
      ensures store.root.faults <= old(store.root.faults)
      ensures old(store.root.faults == 0 && Resolvable(store.root.view)) ==> r.Ok?
    {
      r := store.RecoverLocked(from, op);
    }

    /** Adoption followed by recovery: what an exact transaction does before it starts. */
    method AdoptAndRecover(expected: Preflight, accepts: Preflight -> bool, ghost from: nat, ghost op: Op)
      returns (r: Result<(), StoreError>)
      requires store.root.Valid() && Run(store.root.log, from, op)
      modifies store.root, store.lock
      ensures r.Ok? ==> store.lock.held
      ensures store.root.Valid() && old(store.root.log) <= store.root.log && Run(store.root.log, from, op)
      ensures TargetOf(store.root.view) == old(TargetOf(store.root.view))
      // Foreign entries, other kinds of file, the lock and the document are never touched.
      ensures forall n | n in old(store.root.view)
                        && (n == Target || n == FixedLock || n.Ordinary? || old(store.root.view)[n].NotAFile?) ::
                n in store.root.view && store.root.view[n] == old(store.root.view)[n]
      // On success no journal and no regular stage file is left.
      ensures r.Ok? ==>
                && Settled(store.root.Now(), old(TargetOf(store.root.view)))
                && forall n | n in store.root.view && (n.DocStage? || n.JournalStage?) :: store.root.view[n].NotAFile?
      ensures store.root.faults <= old(store.root.faults) && NothingNew(old(store.root.view), store.root.view)
      ensures old(store.root.faults == 0 && store.lock.reliable && !Foreign(store.root.view, FixedLock)
                  && Resolvable(store.root.view) && Adoptable(store.root.view, expected, accepts)) ==>
                r.Ok?
    {
      ghost var start := store.root.view;
      var adopted := AdoptExisting(expected, accepts, from, op);
      ghost var d := store.root.view;
      assert NothingNew(start, d) by { OrphansWereThere(start, d); }
      if adopted.Err? { return Err(adopted.error); }
      assert TargetOf(d) == TargetOf(start) && JournalOf(d) == JournalOf(start);
      StillResolvable(start, d);
      var recovered := Recover(from, op);
      KeepsRest(d, store.root.view, Disposable(d));
      KeepsTarget(d, store.root.view, Disposable(d));
      ForeignStays(d, store.root.view);
      if recovered.Ok? { NoStageLeft(d, store.root.view); }
      return if recovered.Ok? then Ok(()) else Err(recovered.error);
    }
  }
}
