/** The removal as src/profile/remove.rs carries it out, with every image the root ever shows. */
module PoolRoot {
  import opened Options
  import opened Faults
  import opened QuotaCache
  import opened ProfileRegistry
  import opened ProfileRemoval
  import opened PoolCrashes
  import opened RemovalRuns

  class PoolRoot {
    /** The platform carries out every call that the disk allows. */
    const reliable: bool
    var disk: Disk
    ghost var files: set<Files>
    ghost var trees: set<Trees>
    ghost var log: seq<Pool>

    ghost function Now(): Pool
      reads this
    {
      Pool(disk, files, trees)
    }

    ghost predicate Valid()
      reads this
    {
      && disk.files in files && disk.trees in trees
      && |log| > 0 && log[|log| - 1] == Now()
    }

    /** Open a pool whose every change is synchronised, as after a restart. */
    constructor (d: Disk, reliable: bool)
      ensures Valid() && Now() == Fresh(d) && log == [Now()] && this.reliable == reliable
    {
      this.reliable := reliable;
      disk, files, trees := d, {d.files}, {d.trees};
      log := [Pool(d, {d.files}, {d.trees})];
    }

    method Show(d: Disk)
      requires Valid()
      modifies this
      ensures Valid() && Now() == Showing(old(Now()), d) && log == old(log) + [Now()]
    {
      disk, files, trees := d, files + {d.files}, trees + {d.trees};
      log := log + [Now()];
    }

    method SyncFiles() returns (ok: bool)
      requires Valid()
      modifies this
      ensures Valid()
      ensures ok ==> Now() == FilesSynced(old(Now())) && log == old(log) + [Now()]
      ensures !ok ==> Now() == old(Now()) && log == old(log)
      ensures reliable ==> ok
    {
      var fault := Fault(reliable);
      ok := !fault;
      if ok {
        files := {disk.files};
        log := log + [Now()];
      }
    }

    /** `sync_directory` on `profiles` and then on `archive`; only both of them settle a rename between the two. */
    method SyncTrees() returns (ok: bool)
      requires Valid()
      modifies this
      ensures Valid()
      ensures ok ==> Now() == TreesSynced(old(Now())) && log == old(log) + [Now()]
      ensures !ok ==> Now() == old(Now()) && log == old(log)
      ensures reliable ==> ok
    {
      var fault := Fault(reliable);
      if fault { return false; }
      fault := Fault(reliable);
      ok := !fault;
      if ok {
        trees := {disk.trees};
        log := log + [Now()];
      }
    }

    /** Replace, create or unlink one file of the root, then sync the root. */
    method ReplaceFiles(f: Files) returns (ok: bool)
      requires Valid()
      modifies this
      ensures Valid()
      ensures ok ==>
                && Now() == FilesSynced(Showing(old(Now()), old(disk).(files := f)))
                && log == old(log) + [Showing(old(Now()), old(disk).(files := f)), Now()]
      ensures !ok ==>
                || (Now() == old(Now()) && log == old(log))
                || (Now() == Showing(old(Now()), old(disk).(files := f)) && log == old(log) + [Now()])
      ensures reliable ==> ok
    {
      var fault := Fault(reliable);
      if fault { return false; }
      Show(disk.(files := f));
      ok := SyncFiles();
    }

    method RaiseBarrier(m: Removal, ghost from: nat, ghost start: Pool) returns (ok: bool)
      requires Valid() && ValidTime(m.resetAt) && from <= |log|
      requires Now() == start && AllShown(log, from, start, m)
      modifies this
      ensures Valid() && old(log) <= log && AllShown(log, from, start, m)
      ensures ok ==> Now() == AfterBarrier(start, m)
      ensures reliable && !start.disk.files.quota.Unreadable? ==> ok
    {
      BarrierSynced(start, m);
      var file := new QuotaFile(disk.files.quota, reliable);
      var merged := file.Merge([Barrier(m)]);
      if file.stored == disk.files.quota && merged.Err? { return false; }
      Show(disk.(files := disk.files.(quota := file.stored)));
      if merged.Err? { return false; }
      ok := true;
      files := {disk.files};
      log := log + [Now()];
    }

    /** The rename, and the sync of both directories it touched. */
    method MoveTree(m: Removal, ghost from: nat, ghost start: Pool) returns (ok: bool)
      requires Valid() && from <= |log| && Source(m) in start.disk.trees
      requires Now() == AfterBarrier(start, m) && AllShown(log, from, start, m)
      modifies this
      ensures Valid() && old(log) <= log && AllShown(log, from, start, m)
      ensures ok ==> Now() == AfterMove(start, m)
      ensures reliable ==> ok
    {
      MoveSynced(start, m);
      var fault := Fault(reliable);
      if fault { return false; }
      Show(disk.(trees := Moved(disk.trees, m)));
      ok := SyncTrees();
    }

    /** `write_state`: an invalid registry is never written. */
    method DropProfile(m: Removal, registry: Registry, ghost from: nat, ghost start: Pool) returns (ok: bool)
      requires Valid() && from <= |log| && start.disk.trees in start.trees
      requires registry == start.disk.files.registry && ValidRegistry(registry) && m.name in registry.profiles
      requires Now() == AfterMove(start, m) && AllShown(log, from, start, m)
      modifies this
      ensures Valid() && old(log) <= log && AllShown(log, from, start, m)
      ensures ok ==> Now() == AfterDrop(start, m)
      ensures reliable ==> ok
    {
      DropSynced(start, m);
      UnregisteredIsValid(registry, m.name);
      var after := Registry(
        Retained(registry.profiles, m.name), registry.directories - {m.name}, registry.cooldowns - {m.name},
        if registry.lastSelected == Some(m.name) then None else registry.lastSelected);
      if !ValidRegistry(after) { return false; }
      ok := ReplaceFiles(disk.files.(registry := after));
    }

    method RemoveManifest(m: Removal, ghost from: nat, ghost start: Pool) returns (ok: bool)
      requires Valid() && from <= |log| && start.disk.trees in start.trees
      requires Now() == AfterDrop(start, m) && AllShown(log, from, start, m)
      modifies this
      ensures Valid() && old(log) <= log && AllShown(log, from, start, m)
      ensures ok ==> Now() == Completed(start, m)
      ensures reliable ==> ok
    {
      DropSynced(start, m);
      ok := ReplaceFiles(disk.files.(manifest := None));
    }

    /** The steps of `finish` after its checks. */
    method Forward(m: Removal, registry: Registry, registered: bool, present: bool)
      returns (r: Result<(), RemovalError>)
      requires Valid() && ValidTime(m.resetAt) && disk.files.manifest == Some(Planned(m))
      requires registry == disk.files.registry && ValidRegistry(registry) && registered == (m.name in registry.profiles)
      requires present == (Source(m) in disk.trees)
      modifies this
      ensures Valid() && old(log) <= log && AllShown(log, old(|log|), old(Now()), m)
      ensures r.Ok? ==> Now() == Completed(old(Now()), m)
      ensures r.Err? ==> r.error == IoFailure
      ensures reliable && !old(disk).files.quota.Unreadable? ==> r.Ok?
    {
      ghost var from, start := |log|, Now();
      var ok := RaiseBarrier(m, from, start);
      if !ok { return Err(IoFailure); }
      if present {
        ok := MoveTree(m, from, start);
        if !ok { return Err(IoFailure); }
      }
      assert Now() == AfterMove(start, m);
      if registered {
        ok := DropProfile(m, registry, from, start);
        if !ok { return Err(IoFailure); }
      }
      assert Now() == AfterDrop(start, m);
      ok := RemoveManifest(m, from, start);
      return if ok then Ok(()) else Err(IoFailure);
    }

    /** `finish`: check everything first, then move forward step by step. */
    method Finish(m: Removal, leased: bool, busy: bool) returns (r: Result<(), RemovalError>)
      requires Valid() && ValidTime(m.resetAt) && disk.files.manifest == Some(Planned(m))
      modifies this
      ensures Valid() && old(log) <= log
      ensures r.Ok? ==> old(Refusal(disk, m)).None? && Now() == Completed(old(Now()), m)
      // A refusal touches nothing and says why.
      ensures old(Refusal(disk, m)).Some? ==>
                log == old(log) && (r == Err(old(Refusal(disk, m)).value) || r == Err(IoFailure))
      ensures old(Refusal(disk, m)).None? && !leased && busy ==>
                log == old(log) && (r == Err(ProfileBusy) || r == Err(IoFailure))
      ensures r.Err? && r.error != IoFailure ==>
                && log == old(log)
                && (old(Refusal(disk, m)) == Some(r.error) || (r.error == ProfileBusy && !leased && busy))
      ensures old(Refusal(disk, m)).None? ==> AllShown(log, old(|log|), old(Now()), m)
      // Without a fault, an accepted removal of a free profile is carried out.
      ensures reliable && old(Refusal(disk, m)).None? && (leased || !busy) && !old(disk).files.quota.Unreadable? ==>
                r.Ok?
    {
      var fault := Fault(reliable);
      if fault { return Err(IoFailure); }
      var registry := disk.files.registry;
      if !ValidRegistry(registry) { return Err(InvalidRegistry); }
      var registered := m.name in registry.profiles;
      if registered && DirectoryOf(registry, m.name) != m.directory { return Err(IdentityChanged); }
      if exists n <- registry.profiles :: n != m.name && DirectoryOf(registry, n) == m.directory {
        return Err(DirectoryShared);
      }
      var present := Source(m) in disk.trees;
      if present && !registered { return Err(SlotOccupied); }
      if present == (Destination(m) in disk.trees) { return Err(AmbiguousArchive); }
      var physical := if present then Source(m) else Destination(m);
      if !disk.trees[physical].secure { return Err(InsecureTree); }
      if !leased && busy { return Err(ProfileBusy); }
      r := Forward(m, registry, registered, present);
    }

    /** `recover`, which taking the registry lock runs: no manifest, no change. */
    method Recover(busy: bool) returns (r: Result<(), RemovalError>)
      requires Valid()
      modifies this
      ensures Valid() && old(log) <= log
      ensures r.Ok? ==> Now() == AfterLock(old(Now())) && disk.files.manifest.None?
      ensures old(disk).files.manifest.None? ==> log == old(log)
      ensures forall i | old(|log|) <= i < |log| :: Recovering(old(Now()), log[i])
      // With the lease free and no fault of the disk, only a refused manifest keeps the lock from being taken.
      ensures r.Err? && r.error != IoFailure ==>
                && log == old(log)
                && (|| (r.error == InvalidManifest && !Sensible(old(disk).files.manifest))
                    || (r.error == ProfileBusy && busy)
                    || (Sensible(old(disk).files.manifest)
                        && Refusal(old(disk), old(disk).files.manifest.value.removal) == Some(r.error)))
      ensures reliable && old(Recoverable(disk, busy)) ==> r.Ok?
    {
      var manifest := disk.files.manifest;
      if manifest.None? { return Ok(()); }
      var fault := Fault(reliable);
      if fault { return Err(IoFailure); }
      if manifest.value.Damaged? || !ValidTime(manifest.value.removal.resetAt) { return Err(InvalidManifest); }
      r := Finish(manifest.value.removal, false, busy);
    }

    /** `run`: take the lock, lease the profile, write the manifest ahead, then finish. */
    method Run(name: string, archive: string, now: real, othersBusy: bool, busy: bool)
      returns (r: Result<(), RemovalError>)
      requires Valid() && Unused(disk, archive)
      modifies this
      ensures Valid() && old(log) <= log
      ensures r.Ok? ==>
                var start := AfterLock(old(Now()));
                && Removable(start.disk, name) && Removed(start.disk, name, archive, now, disk)
                && disk == Finished(start.disk, Plan(start.disk, name, archive, now))
      ensures r.Ok? ==> Now() == Pool(disk, {disk.files}, {disk.trees})
      // An unknown, insecure or busy profile is refused before a manifest exists.
      ensures old(disk).files.manifest.None? && (busy || !Removable(old(disk), name)) ==> r.Err? && log == old(log)
      // Without a fault, a registered, secure and free profile is removed.
      ensures reliable && old(Recoverable(disk, othersBusy)) && !busy && ValidTime(now)
              && Removable(AfterLock(old(Now())).disk, name) ==>
                r.Ok?
      // Whatever is shown belongs to the removal that was pending, or is the accepted plan and its recovery.
      ensures forall i | old(|log|) <= i < |log| ::
                || Recovering(old(Now()), log[i])
                || Removing(AfterLock(old(Now())), Plan(AfterLock(old(Now())).disk, name, archive, now), log[i])
    {
      r := Recover(othersBusy);
      if r.Err? { return; }
      ghost var start := Now();
      r := Remove(name, archive, now, busy);
      if r.Ok? { FinishedIsRemoved(start.disk, name, archive, now); }
    }

    /** `run` once it holds the registry lock. */
    method Remove(name: string, archive: string, now: real, busy: bool) returns (r: Result<(), RemovalError>)
      requires Valid() && disk.files.manifest.None? && Archive(archive) !in disk.trees
      modifies this
      ensures Valid() && old(log) <= log
      ensures r.Ok? ==>
                && Removable(old(disk), name) && ValidTime(now)
                && disk == Finished(old(disk), Plan(old(disk), name, archive, now)) && Now() == Fresh(disk)
      ensures busy || !Removable(old(disk), name) ==> r.Err? && log == old(log)
      ensures reliable && !busy && ValidTime(now) && old(!disk.files.quota.Unreadable? && Removable(disk, name)) ==>
                r.Ok?
      ensures forall i | old(|log|) <= i < |log| :: Removing(old(Now()), Plan(old(disk), name, archive, now), log[i])
    {
      var registry := disk.files.registry;
      var fault := Fault(reliable);
      if fault { return Err(IoFailure); }
      if !ValidRegistry(registry) { return Err(InvalidRegistry); }
      if name !in registry.profiles { return Err(NotRegistered); }
      var m := Plan(disk, name, archive, now);
      if Source(m) !in disk.trees { return Err(IoFailure); }
      if !disk.trees[Source(m)].secure { return Err(InsecureTree); }
      if busy { return Err(ProfileBusy); }
      if !ValidTime(now) { return Err(InvalidManifest); }
      PlanIsAccepted(disk, name, archive, now);
      r := Announce(m);
    }

    /** Write the manifest, and finish what it announces. */
    method Announce(m: Removal) returns (r: Result<(), RemovalError>)
      requires Valid() && ValidTime(m.resetAt) && disk.files.manifest.None?
      requires Refusal(Announced(disk, m), m).None?
      modifies this
      ensures Valid() && old(log) <= log
      ensures r.Ok? ==> disk == Finished(Announced(old(disk), m), m)
      ensures r.Ok? && Source(m) in old(disk).trees ==> Now() == Pool(disk, {disk.files}, {disk.trees})
      ensures forall i | old(|log|) <= i < |log| :: Removing(old(Now()), m, log[i])
      ensures reliable && !old(disk).files.quota.Unreadable? ==> r.Ok?
    {
      ghost var start := Now();
      var written := ReplaceFiles(disk.files.(manifest := Some(Planned(m))));
      if !written { return Err(IoFailure); }
      r := Finish(m, true, false);
    }
  }
}
