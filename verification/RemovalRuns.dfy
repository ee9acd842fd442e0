/**
 Whole runs of a removal: processes that die anywhere, recoveries that are cut
 short themselves, machine crashes, and other processes that merge quota updates.
*/
module RemovalRuns {
  import opened Options
  import opened QuotaCache
  import opened ProfileRegistry
  import opened ProfileRemoval
  import opened PoolCrashes

  // ---- what a run plans

  predicate Sensible(manifest: Option<Manifest>) {
    manifest.Some? && manifest.value.Planned? && ValidTime(manifest.value.removal.resetAt)
  }

  /** The removal that a run plans under the lock. */
  function Plan(d: Disk, name: string, archive: string, now: real): Removal {
    Removal(name, DirectoryOf(d.files.registry, name), archive, now)
  }

  /** The archive id was never used: no tree stands there, and no pending removal leads there. */
  predicate Unused(d: Disk, archive: string) {
    && Archive(archive) !in d.trees
    && (Sensible(d.files.manifest) ==> d.files.manifest.value.removal.archive != archive)
  }

  /** What a run checks before it writes a manifest. */
  predicate Removable(d: Disk, name: string) {
    && ValidRegistry(d.files.registry) && name in d.files.registry.profiles
    && var slot := Slot(DirectoryOf(d.files.registry, name));
       slot in d.trees && d.trees[slot].secure
  }

  function Announced(d: Disk, m: Removal): Disk {
    Noted(d, Some(Planned(m)))
  }

  /** What a run checks before it writes its manifest suffices that the checks of `finish` accept what it announces. */
  lemma PlanIsAccepted(d: Disk, name: string, archive: string, now: real)
    requires Removable(d, name) && Unused(d, archive)
    ensures var m := Plan(d, name, archive, now);
            Refusal(Announced(d, m), m).None? && Finished(Announced(d, m), m) == Finished(d, m)
  {
    forall n | n in d.files.registry.profiles && n != name
      ensures DirectoryOf(d.files.registry, n) != DirectoryOf(d.files.registry, name)
    {
      DirectoriesDiffer(d.files.registry, n, name);
    }
  }

  /** What a recovery makes of the pool, if it may stop anywhere; one that is refused changes nothing. */
  ghost predicate Recovers(p: Pool, q: Pool) {
    if Sensible(p.disk.files.manifest) && Refusal(p.disk, p.disk.files.manifest.value.removal).None?
    then ShownBy(p, p.disk.files.manifest.value.removal, q)
    else q == p
  }

  /** A machine crash brings back the files and the trees as they may each have been. */
  ghost predicate Crashes(p: Pool, q: Pool) {
    MayBring(p, q.disk) && q == Fresh(q.disk)
  }

  function Requoted(d: Disk, us: seq<Update>): Disk {
    d.(files := d.files.(quota := Saved(MergeAll(Base(d.files.quota), us))))
  }

  /** Another process merges quota updates, for which it needs the quota lock only. */
  ghost predicate Merges(p: Pool, q: Pool) {
    exists us | ValidUpdates(us) ::
      q == Showing(p, Requoted(p.disk, us)) || q == FilesSynced(Showing(p, Requoted(p.disk, us)))
  }

  /** One event after the other: recoveries that stop anywhere, machine crashes and, unless `alone`, merges. */
  ghost predicate Happens(p: Pool, q: Pool, alone: bool) {
    Recovers(p, q) || Crashes(p, q) || (!alone && Merges(p, q))
  }

  ghost predicate History(ps: seq<Pool>, alone: bool) {
    forall i, j | 0 <= i < |ps| && j == i + 1 < |ps| :: Happens(ps[i], ps[j], alone)
  }

  /** A recovery that begins here makes the move itself, or finds the trees settled. */
  predicate Durable(p: Pool) {
    Sensible(p.disk.files.manifest) ==> Source(p.disk.files.manifest.value.removal) in p.disk.trees || Settled(p)
  }

  ghost predicate DurableHistory(ps: seq<Pool>, alone: bool) {
    forall i, j | 0 <= i < |ps| && j == i + 1 < |ps| ::
      if Durable(ps[i]) then Happens(ps[i], ps[j], alone)
      else Crashes(ps[i], ps[j]) || (!alone && Merges(ps[i], ps[j]))
  }

  // ---- a refused manifest

  /** The manifest of `m` is pending and refused, whatever a crash brings back. */
  ghost predicate StuckWith(p: Pool, m: Removal) {
    && Settled(p) && p.disk.files in p.files && Refusal(p.disk, m).Some?
    && (forall f <- p.files :: f.manifest == Some(Planned(m)) && f.registry == p.disk.files.registry)
  }

  lemma StaysStuck(p: Pool, q: Pool, m: Removal, alone: bool)
    requires StuckWith(p, m) && Happens(p, q, alone)
    ensures StuckWith(q, m) && q.disk.trees == p.disk.trees && q.disk.files.registry == p.disk.files.registry
  {
  }

  /** Once a manifest is refused no recovery, no crash and no merge ever changes that. */
  lemma {:induction false} RefusedForGood(ps: seq<Pool>, m: Removal, alone: bool)
    requires ps != [] && StuckWith(ps[0], m) && History(ps, alone)
    ensures var first, last := ps[0].disk, ps[|ps| - 1].disk;
            StuckWith(ps[|ps| - 1], m) && last.trees == first.trees && last.files.registry == first.files.registry
  {
    var n := |ps| - 1;
    if n > 0 {
      RefusedForGood(ps[..n], m, alone);
      StaysStuck(ps[n - 1], ps[n], m, alone);
    }
  }

  /** If it does not, the manifest is still there and refused, and neither recoveries nor crashes ever change that. */
  lemma UnsyncedMoveIsStuck(ps: seq<Pool>, alone: bool)
    requires var (m, d) := Example();
             ps != [] && ps[0] == Fresh(Disk(DroppedFiles(Died(d, m).disk.files, m), d.trees)) && History(ps, alone)
    ensures var (m, d) := Example();
            && MayBring(AfterDrop(Died(d, m), m), ps[0].disk)
            && StuckWith(ps[|ps| - 1], m) && ps[|ps| - 1].disk.trees == d.trees
            && Refusal(ps[|ps| - 1].disk, m) == Some(SlotOccupied)
  {
    var (m, d) := Example();
    DiedInTheMove();
    CutShortIsStuck(Died(d, m), m, d.trees);
    RefusedForGood(ps, m, alone);
  }

  // ---- processes that die while the machine keeps running

  /** The removal of `m` that began on `d` has ended, or a recovery will still end it the same way. */
  ghost predicate Ending(d: Disk, m: Removal, d': Disk) {
    || d' == Finished(d, m)
    || (d'.files.manifest == Some(Planned(m)) && Refusal(d', m).None? && Finished(d', m) == Finished(d, m))
  }

  /** The tree is in one place, nothing of another account differs, and the one end is reached or still ahead. */
  ghost predicate Converged(d: Disk, m: Removal, d': Disk) {
    && (Source(m) in d.trees || Destination(m) in d.trees) && InOnePlace(d'.trees, m, TreeOf(d, m))
    && OthersUntouched(d, d', m) && Ending(d, m, d')
  }

  ghost predicate Recoveries(ps: seq<Pool>) {
    forall i, j | 0 <= i < |ps| && j == i + 1 < |ps| :: Recovers(ps[i], ps[j])
  }

  /**
   Without a machine crash recoveries always converge, durable or not: over any
   number of them, each cut short anywhere or run to its end, the tree is in one
   place, nothing of another account differs, and the final state is reached or
   still ahead, the same to the last value.
  */
  lemma {:induction false} EveryRecoveryConverges(ps: seq<Pool>, m: Removal)
    requires ps != [] && ps[0].disk.files.manifest == Some(Planned(m)) && ValidTime(m.resetAt)
    requires Refusal(ps[0].disk, m).None? && Recoveries(ps)
    ensures Converged(ps[0].disk, m, ps[|ps| - 1].disk)
  {
    var n := |ps| - 1;
    if n == 0 {
      PassesKeeps(ps[0].disk, m, ps[0].disk);
    } else {
      EveryRecoveryConverges(ps[..n], m);
      assert Recovers(ps[n - 1], ps[n]);
      OneMoreRecovery(ps[0].disk, m, ps[n - 1], ps[n]);
    }
  }

  lemma OneMoreRecovery(d: Disk, m: Removal, p: Pool, q: Pool)
    requires ValidTime(m.resetAt) && Converged(d, m, p.disk) && Recovers(p, q)
    ensures Converged(d, m, q.disk)
  {
    if p.disk != Finished(d, m) {
      ShownPasses(p, m, q);
      PassesKeeps(p.disk, m, q.disk);
      Converges(p.disk, m, q.disk);
      OthersStay(d, p.disk, q.disk, m);
    }
  }

  lemma OthersStay(a: Disk, b: Disk, c: Disk, m: Removal)
    requires OthersUntouched(a, b, m) && OthersUntouched(b, c, m)
    ensures OthersUntouched(a, c, m)
  {
  }

  // ---- the quota barrier under merges of other processes

  /** No value of the removed login shows unless it was measured after the barrier. */
  predicate Guarded(e: Entry, m: Removal) {
    && MaxReal(e.attemptedAt, e.resetAt) >= m.resetAt
    && (e.directory == m.directory ==>
          e.resetAt >= m.resetAt && (e.sampleStartedAt.Some? ==> e.sampleStartedAt.value >= m.resetAt))
  }

  predicate Raised(quota: Stored, m: Removal) {
    quota.Saved? && ValidProfiles(quota.profiles) && m.name in quota.profiles && Guarded(quota.profiles[m.name], m)
  }

  lemma StepKeepsGuarded(e: Entry, u: Update, m: Removal)
    requires Guarded(e, m) && ValidUpdate(u)
    ensures Guarded(StepEntry(e, u), m)
  {
  }

  lemma BarrierGuards(e: Option<Entry>, m: Removal)
    requires ValidTime(m.resetAt)
    ensures Guarded(Step(e, Barrier(m)), m)
  {
  }

  /** From then on the barrier holds, whatever else is merged and however late it was measured. */
  lemma {:induction false} BarrierHolds(quota: Stored, m: Removal, us: seq<Update>)
    requires Raised(quota, m) && ValidUpdates(us)
    ensures Raised(Saved(MergeAll(Base(quota), us)), m)
  {
    MergeKeepsValid(Base(quota), us);
    if us != [] {
      var n := |us| - 1;
      BarrierHolds(quota, m, us[..n]);
      StepKeepsGuarded(MergeAll(Base(quota), us[..n])[m.name], us[n], m);
    }
  }

  /**
   Behind a barrier no value of the removed login shows that was measured before
   it: whatever is merged later, an entry of that directory has no windows, or
   windows of a measurement that started after the barrier.
  */
  lemma NothingOldShows(quota: Stored, m: Removal, us: seq<Update>)
    requires Raised(quota, m) && ValidUpdates(us)
    ensures var profiles := MergeAll(Base(quota), us);
            && m.name in profiles
            && var e := profiles[m.name];
               e.directory == m.directory && e.windows != NO_WINDOWS ==>
                 e.sampleStartedAt.Some? && e.sampleStartedAt.value >= m.resetAt
  {
    BarrierHolds(quota, m, us);
  }

  lemma BarrierIsRaised(quota: Stored, m: Removal)
    requires ValidTime(m.resetAt)
    ensures Raised(Barred(quota, m), m)
  {
    MergeKeepsValid(Base(quota), [Barrier(m)]);
    MergesOne(Base(quota), Barrier(m));
    BarrierGuards(Lookup(Base(quota), m.name), m);
  }

  /** A probe of the removed login that started before the removal never brings a value back, however late. */
  lemma {:induction false} LateProbesStayOut(quota: Stored, m: Removal, us: seq<Update>)
    requires ValidTime(m.resetAt) && ValidUpdates(us)
    requires forall u <- us :: u.directory == m.directory && u.startedAt < m.resetAt
    ensures var e := MergeAll(Barred(quota, m).profiles, us);
            && m.name in e && m.name in Barred(quota, m).profiles
            && (Barred(quota, m).profiles[m.name].directory == m.directory ==>
                  e[m.name].windows == NO_WINDOWS && e[m.name].resetAt >= m.resetAt)
            && (Barred(quota, m).profiles[m.name].directory != m.directory ==>
                  e[m.name] == Barred(quota, m).profiles[m.name])
  {
    MergesOne(Base(quota), Barrier(m));
    if us != [] { LateProbesStayOut(quota, m, us[..|us| - 1]); }
  }

  // ---- convergence

  /** With nobody else merging, the quota snapshot is the old one or the one with the barrier. */
  predicate QuotaAlone(start: Disk, m: Removal, quota: Stored, alone: bool) {
    alone ==> quota == start.files.quota || quota == Barred(start.files.quota, m)
  }

  /** Files that may come back together with the tree in its slot. */
  predicate AtHome(start: Disk, m: Removal, f: Files, alone: bool) {
    && f.registry == start.files.registry && QuotaAlone(start, m, f.quota, alone)
    && (f.manifest.None? || f.manifest == Some(Planned(m)))
  }

  /** Files that may come back together with the tree in the archive. */
  predicate Away(start: Disk, m: Removal, f: Files, alone: bool) {
    && Raised(f.quota, m) && QuotaAlone(start, m, f.quota, alone)
    && (f.registry == Unregistered(start.files.registry, m.name)
        || (f.registry == start.files.registry && f.manifest.Some?))
    && (f.manifest.None? || f.manifest == Some(Planned(m)))
    && (alone ==> f.quota == Barred(start.files.quota, m))
  }

  /** The trees of a pool are one of two, and each comes back only with files that go with it. */
  ghost predicate Tracked(p: Pool, home: Trees, away: Trees, atHome: iset<Files>, whenAway: iset<Files>) {
    && MayBring(p, p.disk) && (forall t <- p.trees :: t == home || t == away)
    && (home in p.trees ==> forall f <- p.files :: f in atHome)
    && (away in p.trees ==> forall f <- p.files :: f in whenAway)
  }

  /** Whatever a crash may bring back, the removal of `m` from `start` has not begun, is under way or has ended. */
  ghost predicate OnTrack(start: Disk, m: Removal, p: Pool, alone: bool) {
    Tracked(
      p, start.trees, Moved(start.trees, m), iset f | AtHome(start, m, f, alone), iset f | Away(start, m, f, alone))
  }

  /** What `run` checked: the profile is registered, its tree is in its slot, and nothing stands in the archive. */
  ghost predicate Begun(start: Disk, m: Removal) {
    && start.files.manifest.None? && ValidTime(m.resetAt) && Refusal(Announced(start, m), m).None?
    && m.name in start.files.registry.profiles && Source(m) in start.trees && Destination(m) !in start.trees
  }

  lemma BegunFacts(start: Disk, m: Removal)
    requires Begun(start, m)
    ensures Moved(start.trees, m) != start.trees && Moved(Moved(start.trees, m), m) == Moved(start.trees, m)
    ensures Source(m) !in Moved(start.trees, m)
    ensures Unregistered(start.files.registry, m.name) != start.files.registry
    ensures var r := Unregistered(start.files.registry, m.name); Unregistered(r, m.name) == r
  {
    UnregisteredTwice(start.files.registry, m.name);
  }

  /** The files a recovery writes on its way. */
  ghost predicate Written(f: Files, m: Removal, f': Files) {
    f' == BarredFiles(f, m) || f' == DroppedFiles(f, m) || f' == DroppedFiles(f, m).(manifest := None)
  }

  lemma HomeFiles(start: Disk, m: Removal, f: Files, alone: bool)
    requires Begun(start, m) && AtHome(start, m, f, alone) && f.manifest.Some?
    ensures AtHome(start, m, BarredFiles(f, m), alone)
    ensures forall f' | Written(f, m, f') :: Away(start, m, f', alone)
  {
    BegunFacts(start, m);
    BarrierIsRaised(f.quota, m);
    BarrierTwice(start.files.quota, m);
  }

  lemma AwayFiles(start: Disk, m: Removal, f: Files, alone: bool)
    requires Begun(start, m) && Away(start, m, f, alone) && f.manifest.Some?
    ensures forall f' | Written(f, m, f') :: Away(start, m, f', alone)
  {
    BegunFacts(start, m);
    BarrierIsRaised(f.quota, m);
    BarrierTwice(start.files.quota, m);
  }

  lemma ImagesKeepTrack(
    p: Pool, present: bool, moved: Trees, barred: Files, dropped: Files, done: Files, q: Pool,
    home: Trees, away: Trees, atHome: iset<Files>, whenAway: iset<Files>)
    requires Tracked(p, home, away, atHome, whenAway) && home != away && moved == away
    requires Images(p, present, moved, barred, dropped, done, q)
    requires barred in whenAway && dropped in whenAway && done in whenAway
    requires if present then p.disk.trees == home && barred in atHome else p.trees == {away}
    ensures Tracked(q, home, away, atHome, whenAway)
  {
  }

  lemma RecoveryWrites(start: Disk, m: Removal, p: Pool, alone: bool)
    requires Begun(start, m) && OnTrack(start, m, p, alone) && p.disk.files.manifest.Some?
    ensures p.disk.trees == start.trees ==> AtHome(start, m, BarredFiles(p.disk.files, m), alone)
    ensures forall f | Written(p.disk.files, m, f) :: Away(start, m, f, alone)
  {
    if p.disk.trees == start.trees {
      HomeFiles(start, m, p.disk.files, alone);
    } else {
      AwayFiles(start, m, p.disk.files, alone);
    }
  }

  lemma ShownKeepsTrack(start: Disk, m: Removal, p: Pool, q: Pool, alone: bool)
    requires Begun(start, m) && OnTrack(start, m, p, alone) && (p.disk.trees == start.trees || Settled(p))
    requires p.disk.files.manifest == Some(Planned(m)) && ShownBy(p, m, q)
    ensures OnTrack(start, m, q, alone)
  {
    var f, trees := p.disk.files, p.disk.trees;
    var barred, dropped := BarredFiles(f, m), DroppedFiles(f, m);
    BegunFacts(start, m);
    RecoveryWrites(start, m, p, alone);
    assert Written(f, m, barred) && Written(f, m, dropped) && Written(f, m, dropped.(manifest := None));
    ShownImages(p, m, q);
    ImagesKeepTrack(
      p, Source(m) in trees, Moved(trees, m), barred, dropped, dropped.(manifest := None), q, start.trees,
      Moved(start.trees, m), iset f | AtHome(start, m, f, alone), iset f | Away(start, m, f, alone));
  }

  lemma RecoveryKeepsTrack(start: Disk, m: Removal, p: Pool, q: Pool, alone: bool)
    requires Begun(start, m) && OnTrack(start, m, p, alone) && Durable(p) && Recovers(p, q)
    ensures OnTrack(start, m, q, alone)
  {
    BegunFacts(start, m);
    if Sensible(p.disk.files.manifest) && q != p {
      ShownKeepsTrack(start, m, p, q, alone);
    }
  }

  lemma CrashKeepsTrack(start: Disk, m: Removal, p: Pool, q: Pool, alone: bool)
    requires OnTrack(start, m, p, alone) && Crashes(p, q)
    ensures OnTrack(start, m, q, alone)
  {
  }

  lemma MergedFiles(start: Disk, m: Removal, d: Disk, us: seq<Update>)
    requires ValidUpdates(us)
    ensures AtHome(start, m, d.files, false) ==> AtHome(start, m, Requoted(d, us).files, false)
    ensures Away(start, m, d.files, false) ==> Away(start, m, Requoted(d, us).files, false)
  {
    if Raised(d.files.quota, m) { BarrierHolds(d.files.quota, m, us); }
  }

  lemma RewrittenKeepsTrack(
    p: Pool, f: Files, q: Pool, home: Trees, away: Trees, atHome: iset<Files>, whenAway: iset<Files>)
    requires Tracked(p, home, away, atHome, whenAway)
    requires (p.disk.files in atHome ==> f in atHome) && (p.disk.files in whenAway ==> f in whenAway)
    requires var shown := Showing(p, p.disk.(files := f)); q == shown || q == FilesSynced(shown)
    ensures Tracked(q, home, away, atHome, whenAway)
  {
  }

  lemma MergeKeepsTrack(start: Disk, m: Removal, p: Pool, q: Pool)
    requires OnTrack(start, m, p, false) && Merges(p, q)
    ensures OnTrack(start, m, q, false)
  {
    var us :|
      && ValidUpdates(us)
      && (q == Showing(p, Requoted(p.disk, us)) || q == FilesSynced(Showing(p, Requoted(p.disk, us))));
    MergedFiles(start, m, p.disk, us);
    RewrittenKeepsTrack(
      p, Requoted(p.disk, us).files, q, start.trees, Moved(start.trees, m),
      iset f | AtHome(start, m, f, false), iset f | Away(start, m, f, false));
  }

  /** Over any number of recoveries, crashes and merges, as long as recoveries begin where they are durable. */
  lemma {:induction false} HistoryKeepsTrack(start: Disk, m: Removal, ps: seq<Pool>, alone: bool)
    requires Begun(start, m) && ps != [] && OnTrack(start, m, ps[0], alone) && DurableHistory(ps, alone)
    ensures OnTrack(start, m, ps[|ps| - 1], alone)
  {
    var n := |ps| - 1;
    if n > 0 {
      HistoryKeepsTrack(start, m, ps[..n], alone);
      var p, q := ps[n - 1], ps[n];
      if Crashes(p, q) {
        CrashKeepsTrack(start, m, p, q, alone);
      } else if !alone && Merges(p, q) {
        MergeKeepsTrack(start, m, p, q);
      } else {
        RecoveryKeepsTrack(start, m, p, q, alone);
      }
    }
  }

  /** What the removal of `m` from `start` may have come to. */
  ghost predicate Untouched(start: Disk, d: Disk) {
    d.files.manifest.None? && d.files.registry == start.files.registry && d.trees == start.trees
  }

  /** A recovery accepts what is left and leads to the one end. */
  ghost predicate Ahead(start: Disk, m: Removal, d: Disk, alone: bool) {
    && d.files.manifest == Some(Planned(m)) && Refusal(d, m).None?
    && Unregistered(d.files.registry, m.name) == Unregistered(start.files.registry, m.name)
    && Moved(d.trees, m) == Moved(start.trees, m)
    && (alone ==> Finished(d, m) == Finished(start, m))
  }

  /** The one end: out of the registry, in the archive, and with the barrier raised. */
  ghost predicate Ended(start: Disk, m: Removal, d: Disk, alone: bool) {
    && d.files.manifest.None? && d.files.registry == Unregistered(start.files.registry, m.name)
    && d.trees == Moved(start.trees, m) && Raised(d.files.quota, m)
    && (alone ==> d == Finished(start, m))
  }

  /** The tree went whole from its directory into the archive, and no other tree changed. */
  ghost predicate Archived(trees: Trees, directory: string, archive: string, trees': Trees) {
    && Slot(directory) in trees && Slot(directory) !in trees'
    && Lookup(trees', Archive(archive)) == Some(trees[Slot(directory)])
    && forall p | p != Slot(directory) && p != Archive(archive) :: Lookup(trees', p) == Lookup(trees, p)
  }

  /**
   The one end, said of the disk alone: no trace of the name in the registry, its
   tree in the archive, everything else as it was, and a barrier raised for its
   directory at the time of the run.
  */
  ghost predicate Removed(start: Disk, name: string, archive: string, now: real, d: Disk) {
    var r := start.files.registry;
    var directory := if name in r.directories then r.directories[name] else name;
    && d.files.manifest.None?
    && Forgotten(d.files.registry, name) && SameOthers(r, d.files.registry, name)
    && Archived(start.trees, directory, archive, d.trees)
    && Raised(d.files.quota, Removal(name, directory, archive, now))
  }

  lemma MovedIsArchived(trees: Trees, m: Removal)
    requires Source(m) in trees
    ensures Archived(trees, m.directory, m.archive, Moved(trees, m))
  {
  }

  lemma EndIsRemoval(start: Disk, name: string, archive: string, now: real, d: Disk)
    requires Removable(start, name)
    requires d.files.manifest.None? && d.files.registry == Unregistered(start.files.registry, name)
    requires d.trees == Moved(start.trees, Plan(start, name, archive, now))
    requires Raised(d.files.quota, Plan(start, name, archive, now))
    ensures Removed(start, name, archive, now, d)
  {
    UnregisteredIsForgotten(start.files.registry, name);
    OthersRegistered(start.files.registry, name);
    MovedIsArchived(start.trees, Plan(start, name, archive, now));
  }

  lemma FinishedIsRemoved(start: Disk, name: string, archive: string, now: real)
    requires Removable(start, name) && ValidTime(now)
    ensures Removed(start, name, archive, now, Finished(start, Plan(start, name, archive, now)))
  {
    var m := Plan(start, name, archive, now);
    BarrierIsRaised(start.files.quota, m);
    EndIsRemoval(start, name, archive, now, Finished(start, m));
  }

  lemma Accepted(start: Disk, m: Removal, d: Disk)
    requires Begun(start, m) && d.files.manifest == Some(Planned(m))
    requires d.trees == start.trees || d.trees == Moved(start.trees, m)
    requires || d.files.registry == start.files.registry
             || (d.files.registry == Unregistered(start.files.registry, m.name) && d.trees == Moved(start.trees, m))
    ensures Refusal(d, m).None?
  {
    var r := start.files.registry;
    MovedAccepted(r, start.trees, m);
    UnregisteredAccepted(r, Moved(start.trees, m), m);
  }

  lemma HomeMeans(start: Disk, m: Removal, d: Disk, alone: bool)
    requires Begun(start, m) && AtHome(start, m, d.files, alone) && d.trees == start.trees
    ensures Untouched(start, d) || Ahead(start, m, d, alone)
  {
    BarrierTwice(start.files.quota, m);
    if d.files.manifest.Some? { Accepted(start, m, d); }
  }

  lemma AwayMeans(start: Disk, m: Removal, d: Disk, alone: bool)
    requires Begun(start, m) && Away(start, m, d.files, alone) && d.trees == Moved(start.trees, m)
    ensures Ahead(start, m, d, alone) || Ended(start, m, d, alone)
  {
    BegunFacts(start, m);
    BarrierTwice(start.files.quota, m);
    if d.files.manifest.Some? { Accepted(start, m, d); }
  }

  lemma OthersOnTrack(start: Disk, m: Removal, d: Disk)
    requires Begun(start, m) && (d.trees == start.trees || d.trees == Moved(start.trees, m))
    requires d.files.registry == start.files.registry || d.files.registry == Unregistered(start.files.registry, m.name)
    ensures InOnePlace(d.trees, m, start.trees[Source(m)])
    ensures SameOthers(start.files.registry, d.files.registry, m.name) && SameTrees(start.trees, d.trees, m)
  {
    OthersRegistered(start.files.registry, m.name);
  }

  lemma TrackMeans(start: Disk, m: Removal, p: Pool, alone: bool, d: Disk)
    requires Begun(start, m) && OnTrack(start, m, p, alone) && MayBring(p, d)
    ensures Untouched(start, d) || Ahead(start, m, d, alone) || Ended(start, m, d, alone)
    ensures InOnePlace(d.trees, m, start.trees[Source(m)])
    ensures SameOthers(start.files.registry, d.files.registry, m.name) && SameTrees(start.trees, d.trees, m)
  {
    OthersOnTrack(start, m, d);
    if d.trees == start.trees { HomeMeans(start, m, d, alone); } else { AwayMeans(start, m, d, alone); }
  }

  // ---- the protocol

  /** The pool once the registry lock has been granted. */
  function AfterLock(p: Pool): Pool {
    if Sensible(p.disk.files.manifest) then Completed(p, p.disk.files.manifest.value.removal) else p
  }

  /** Nothing is pending, or an accepted removal of a profile that is free, over a quota snapshot that can be read. */
  predicate Recoverable(d: Disk, busy: bool) {
    && !d.files.quota.Unreadable?
    && (d.files.manifest.None?
        || (Sensible(d.files.manifest) && Refusal(d, d.files.manifest.value.removal).None? && !busy))
  }

  /** What a recovery may show on its way: nothing at all if the pending removal is refused. */
  ghost predicate Recovering(start: Pool, p: Pool) {
    && Sensible(start.disk.files.manifest)
    && var m := start.disk.files.manifest.value.removal;
       Refusal(start.disk, m).None? && ShownBy(start, m, p)
  }

  /** The root once the manifest of a run is written and synchronised. */
  function Planning(start: Pool, m: Removal): Pool {
    FilesSynced(Showing(start, Announced(start.disk, m)))
  }

  /** What a run shows from its manifest on: the manifest itself, and then what a recovery of it shows. */
  ghost predicate Removing(start: Pool, m: Removal, p: Pool) {
    && ValidTime(m.resetAt) && Refusal(Announced(start.disk, m), m).None?
    && (p == Showing(start, Announced(start.disk, m)) || ShownBy(Planning(start, m), m, p))
  }

  lemma RunIsOnTrack(start: Disk, m: Removal, p: Pool, alone: bool)
    requires Begun(start, m) && (p == Fresh(start) || Removing(Fresh(start), m, p))
    ensures OnTrack(start, m, p, alone)
  {
    BegunFacts(start, m);
    var planned := Planning(Fresh(start), m);
    assert planned.trees == {start.trees};
    assert OnTrack(start, m, planned, alone);
    if ShownBy(planned, m, p) { ShownKeepsTrack(start, m, planned, p, alone); }
  }

  lemma PlanBegins(start: Disk, name: string, archive: string, now: real)
    requires start.files.manifest.None? && Removable(start, name) && Unused(start, archive) && ValidTime(now)
    ensures Begun(start, Plan(start, name, archive, now))
  {
    PlanIsAccepted(start, name, archive, now);
  }

  /**
   From every point at which a run may be cut short, through any number of
   recoveries that are cut short themselves or run to their end, machine crashes
   and merges of other processes, as long as recoveries begin where they are
   durable.  Whatever disk is there or may come back: it is untouched, or
   accepted and on its way to the one end, or there.  The tree is whole in
   exactly one place, and registry and trees of every other account are as they
   were.  If nobody else merges, the end is the same disk to the last value.
  */
  lemma RunConverges(
    start: Disk, name: string, archive: string, now: real, ps: seq<Pool>, alone: bool, d: Disk)
    requires start.files.manifest.None? && Removable(start, name) && Unused(start, archive) && ValidTime(now)
    requires var m := Plan(start, name, archive, now);
             ps != [] && (ps[0] == Fresh(start) || Removing(Fresh(start), m, ps[0]))
    requires DurableHistory(ps, alone) && MayBring(ps[|ps| - 1], d)
    ensures var m := Plan(start, name, archive, now);
            && (Untouched(start, d) || Ahead(start, m, d, alone) || Ended(start, m, d, alone))
            && InOnePlace(d.trees, m, start.trees[Source(m)])
            && SameOthers(start.files.registry, d.files.registry, m.name) && SameTrees(start.trees, d.trees, m)
    ensures d.files.manifest.None? ==> Untouched(start, d) || Removed(start, name, archive, now, d)
    ensures MayBring(ps[|ps| - 1], ps[|ps| - 1].disk)
  {
    var m := Plan(start, name, archive, now);
    PlanBegins(start, name, archive, now);
    RunIsOnTrack(start, m, ps[0], alone);
    HistoryKeepsTrack(start, m, ps, alone);
    TrackMeans(start, m, ps[|ps| - 1], alone, d);
    if Ended(start, m, d, alone) { EndIsRemoval(start, name, archive, now, d); }
  }

  /**
   After a removal, and whatever is merged later, the directory shows only what was
   measured since the time of the run; a probe that started before puts nothing there.
  */
  lemma OldLoginIsGone(start: Disk, name: string, archive: string, now: real, d: Disk, us: seq<Update>, u: Update)
    requires Removed(start, name, archive, now, d) && ValidUpdates(us)
    ensures var directory := DirectoryOf(start.files.registry, name);
            && name in MergeAll(Base(d.files.quota), us)
            && var e := MergeAll(Base(d.files.quota), us)[name];
               var e' := StepEntry(e, u);
               && (e.directory == directory && e.windows != NO_WINDOWS ==>
                     e.sampleStartedAt.Some? && e.sampleStartedAt.value >= now)
               && (u.directory == directory && u.startedAt < now ==>
                     e'.windows == NO_WINDOWS || (e'.windows, e'.sampleStartedAt) == (e.windows, e.sampleStartedAt))
  {
    NothingOldShows(d.files.quota, Removal(name, DirectoryOf(start.files.registry, name), archive, now), us);
    BarrierHolds(d.files.quota, Removal(name, DirectoryOf(start.files.registry, name), archive, now), us);
  }

  /**
   And the condition is exact: of a pool on track, a recovery and a machine crash
   in the middle of it always leave a pool on track if and only if the recovery
   is durable.
  */
  lemma DurableExactly(start: Disk, m: Removal, p: Pool, alone: bool)
    requires Begun(start, m) && OnTrack(start, m, p, alone)
    ensures (forall q, r | Recovers(p, q) && Crashes(q, r) :: OnTrack(start, m, r, alone)) <==> Durable(p)
  {
    if Durable(p) {
      forall q, r | Recovers(p, q) && Crashes(q, r) ensures OnTrack(start, m, r, alone) {
        RecoveryKeepsTrack(start, m, p, q, alone);
        CrashKeepsTrack(start, m, q, r, alone);
      }
    } else {
      UndurableStrands(start, m, p, alone);
      assert Recovers(p, AfterDrop(p, m)) && Crashes(AfterDrop(p, m), Fresh(Strand(start, m, p)));
    }
  }

  /** The disk that such a recovery may leave: cut short before the manifest goes, with the move undone. */
  function Strand(start: Disk, m: Removal, p: Pool): Disk {
    Disk(DroppedFiles(p.disk.files, m), start.trees)
  }

  lemma UndurableStrands(start: Disk, m: Removal, p: Pool, alone: bool)
    requires Begun(start, m) && OnTrack(start, m, p, alone) && !Durable(p)
    ensures Recovers(p, AfterDrop(p, m)) && Crashes(AfterDrop(p, m), Fresh(Strand(start, m, p)))
    ensures StuckWith(Fresh(Strand(start, m, p)), m) && !OnTrack(start, m, Fresh(Strand(start, m, p)), alone)
  {
    BegunFacts(start, m);
    Accepted(start, m, p.disk);
    CutShortIsStuck(p, m, start.trees);
  }
}
