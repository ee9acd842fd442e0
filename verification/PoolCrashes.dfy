/**
 What a machine crash may make of a removal.  The files of the root and the
 profile trees lie in different directories, which are synchronised separately:
 after a crash each comes back as anything it was since its own last sync.
*/
module PoolCrashes {
  import opened Options
  import opened QuotaCache
  import opened ProfileRegistry
  import opened ProfileRemoval

  /** The visible disk, and what the files and the trees may each come back as. */
  datatype Pool = Pool(disk: Disk, files: set<Files>, trees: set<Trees>)

  ghost predicate MayBring(p: Pool, d: Disk) {
    d.files in p.files && d.trees in p.trees
  }

  function Fresh(d: Disk): Pool {
    Pool(d, {d.files}, {d.trees})
  }

  /** No change of a profile tree is still to be synchronised. */
  predicate Settled(p: Pool) {
    p.trees == {p.disk.trees}
  }

  /** One visible change that a crash may still lose. */
  function Showing(p: Pool, d: Disk): Pool {
    Pool(d, p.files + {d.files}, p.trees + {d.trees})
  }

  function FilesSynced(p: Pool): Pool {
    p.(files := {p.disk.files})
  }

  function TreesSynced(p: Pool): Pool {
    p.(trees := {p.disk.trees})
  }

  function AfterBarrier(p: Pool, m: Removal): Pool {
    var f := BarredFiles(p.disk.files, m);
    Pool(Disk(f, p.disk.trees), {f}, p.trees)
  }

  /** Only a rename made by this very operation is followed by the syncs of both directories. */
  function AfterMove(p: Pool, m: Removal): Pool {
    var f := BarredFiles(p.disk.files, m);
    var trees := Moved(p.disk.trees, m);
    Pool(Disk(f, trees), {f}, if Source(m) in p.disk.trees then {trees} else p.trees)
  }

  function AfterDrop(p: Pool, m: Removal): Pool {
    var f := DroppedFiles(p.disk.files, m);
    AfterMove(p, m).(disk := Disk(f, Moved(p.disk.trees, m)), files := {f})
  }

  function Completed(p: Pool, m: Removal): Pool {
    AfterMove(p, m).(disk := Finished(p.disk, m), files := {Finished(p.disk, m).files})
  }

  /** The images that a recovery of `m` which begins on `start` may show, in order; it may stop at any of them. */
  ghost predicate ShownBy(start: Pool, m: Removal, p: Pool) {
    || p == start
    || p == Showing(start, AfterBarrier(start, m).disk)
    || p == AfterBarrier(start, m)
    || (Source(m) in start.disk.trees && p == Showing(AfterBarrier(start, m), AfterMove(start, m).disk))
    || p == AfterMove(start, m)
    || p == Showing(AfterMove(start, m), AfterDrop(start, m).disk)
    || p == AfterDrop(start, m)
    || p == Showing(AfterDrop(start, m), Finished(start.disk, m))
    || p == Completed(start, m)
  }

  ghost predicate AllShown(log: seq<Pool>, from: nat, start: Pool, m: Removal) {
    forall i | from <= i < |log| :: ShownBy(start, m, log[i])
  }

  /** What `ShownBy` lists, given what each of the steps makes of the files and of the trees. */
  ghost predicate Images(p: Pool, present: bool, moved: Trees, barred: Files, dropped: Files, done: Files, q: Pool) {
    var after := if present then {moved} else p.trees;
    || q == p
    || q == Pool(Disk(barred, p.disk.trees), p.files + {barred}, p.trees + {p.disk.trees})
    || q == Pool(Disk(barred, p.disk.trees), {barred}, p.trees)
    || (present && q == Pool(Disk(barred, moved), {barred} + {barred}, p.trees + {moved}))
    || q == Pool(Disk(barred, moved), {barred}, after)
    || q == Pool(Disk(dropped, moved), {barred} + {dropped}, after + {moved})
    || q == Pool(Disk(dropped, moved), {dropped}, after)
    || q == Pool(Disk(done, moved), {dropped} + {done}, after + {moved})
    || q == Pool(Disk(done, moved), {done}, after)
  }

  lemma ShownImages(p: Pool, m: Removal, q: Pool)
    requires ShownBy(p, m, q)
    ensures var f := p.disk.files;
            Images(p, Source(m) in p.disk.trees, Moved(p.disk.trees, m), BarredFiles(f, m), DroppedFiles(f, m),
                   DroppedFiles(f, m).(manifest := None), q)
  {
  }

  lemma BarrierSynced(start: Pool, m: Removal)
    requires start.disk.trees in start.trees
    ensures FilesSynced(Showing(start, AfterBarrier(start, m).disk)) == AfterBarrier(start, m)
  {
    assert start.trees + {start.disk.trees} == start.trees;
  }

  lemma MoveSynced(start: Pool, m: Removal)
    requires Source(m) in start.disk.trees
    ensures TreesSynced(Showing(AfterBarrier(start, m), AfterMove(start, m).disk)) == AfterMove(start, m)
  {
    assert {AfterMove(start, m).disk.files} + {AfterMove(start, m).disk.files} == {AfterMove(start, m).disk.files};
  }

  lemma DropSynced(start: Pool, m: Removal)
    requires start.disk.trees in start.trees
    ensures FilesSynced(Showing(AfterMove(start, m), AfterDrop(start, m).disk)) == AfterDrop(start, m)
    ensures FilesSynced(Showing(AfterDrop(start, m), Finished(start.disk, m))) == Completed(start, m)
  {
    assert Moved(start.disk.trees, m) in AfterMove(start, m).trees;
    assert AfterMove(start, m).trees + {Moved(start.disk.trees, m)} == AfterMove(start, m).trees;
  }

  /** What is visible is always a disk the removal passes through. */
  lemma ShownPasses(start: Pool, m: Removal, p: Pool)
    requires ShownBy(start, m, p)
    ensures Passes(start.disk, m, p.disk)
  {
  }

  lemma ImagesHold(p: Pool, present: bool, moved: Trees, barred: Files, dropped: Files, done: Files, q: Pool)
    requires Images(p, present, moved, barred, dropped, done, q) && (!present ==> moved == p.disk.trees)
    ensures forall f <- q.files :: f in p.files || f == barred || f == dropped || f == done
    ensures forall t <- q.trees :: t in p.trees || t == p.disk.trees || (present && t == moved)
  {
  }

  /** A recovery changes nothing of another account on any disk that a crash may bring back of it. */
  lemma RecoverySparesOthers(start: Pool, m: Removal, p: Pool)
    requires ShownBy(start, m, p) && ValidTime(m.resetAt)
    ensures forall f <- p.files ::
              || f in start.files
              || (&& SameOthers(start.disk.files.registry, f.registry, m.name)
                  && SameQuota(start.disk.files.quota, f.quota, m.name))
    ensures forall t <- p.trees :: t in start.trees || SameTrees(start.disk.trees, t, m)
  {
    var f, trees := start.disk.files, start.disk.trees;
    OthersRegistered(f.registry, m.name);
    OthersQuota(f.quota, m);
    assert SameOthers(f.registry, f.registry, m.name);
    ShownImages(start, m, p);
    ImagesHold(start, Source(m) in trees, Moved(trees, m), BarredFiles(f, m), DroppedFiles(f, m),
               DroppedFiles(f, m).(manifest := None), p);
  }

  /** Whatever a crash makes of this image, it was possible before or is a disk the removal passes through. */
  ghost predicate Harmless(start: Pool, m: Removal, p: Pool) {
    forall d | MayBring(p, d) :: MayBring(start, d) || Passes(start.disk, m, d)
  }

  /** The trees differ at most by the move, in either direction. */
  ghost predicate ByTheMove(trees: Trees, trees': Trees, m: Removal) {
    || trees' == trees
    || (Destination(m) !in trees && trees' == Moved(trees, m))
    || (Destination(m) !in trees' && trees == Moved(trees', m))
  }

  /** A pending removal of which at most the move and changes of the files are still to be synchronised. */
  ghost predicate PendingIn(start: Pool, m: Removal) {
    && MayBring(start, start.disk) && Refusal(start.disk, m).None?
    && (forall f <- start.files :: f.manifest == Some(Planned(m)))
    && (forall t <- start.trees :: ByTheMove(t, start.disk.trees, m))
  }

  /**
   When a machine crash at any moment of a recovery is harmless: exactly if the
   recovery makes the move itself, or the trees were settled when it began.
  */
  lemma CrashDuringRecovery(start: Pool, m: Removal)
    requires PendingIn(start, m)
    ensures (forall p | ShownBy(start, m, p) :: Harmless(start, m, p))
            <==> Source(m) in start.disk.trees || Settled(start)
  {
    if Source(m) in start.disk.trees || Settled(start) {
      forall p | ShownBy(start, m, p) ensures Harmless(start, m, p) {
        ShownHarmless(start, m, p);
      }
    } else {
      CrashAfterRecovery(start, m);
      var d :| MayBring(Completed(start, m), d) && !Passes(start.disk, m, d);
      assert !MayBring(start, d) && !Harmless(start, m, Completed(start, m));
    }
  }

  /** Which files may come back together with which trees. */
  lemma ImagesBring(p: Pool, present: bool, moved: Trees, barred: Files, dropped: Files, done: Files, q: Pool, d: Disk)
    requires Images(p, present, moved, barred, dropped, done, q) && (!present ==> moved == p.disk.trees)
    requires forall t <- p.trees :: t == p.disk.trees || (present && t == moved)
    requires MayBring(p, p.disk) && MayBring(q, d)
    ensures || MayBring(p, d)
            || (d.files == barred && (d.trees == p.disk.trees || d.trees == moved))
            || ((d.files == dropped || d.files == done) && d.trees == moved)
  {
  }

  lemma ShownHarmless(start: Pool, m: Removal, p: Pool)
    requires PendingIn(start, m) && ShownBy(start, m, p) && (Source(m) in start.disk.trees || Settled(start))
    ensures Harmless(start, m, p)
  {
    var f, trees := start.disk.files, start.disk.trees;
    forall t | t in start.trees ensures t == trees || (Source(m) in trees && t == Moved(trees, m)) {
      assert ByTheMove(t, trees, m);
    }
    ShownImages(start, m, p);
    forall d | MayBring(p, d) ensures MayBring(start, d) || Passes(start.disk, m, d) {
      ImagesBring(start, Source(m) in trees, Moved(trees, m), BarredFiles(f, m), DroppedFiles(f, m),
                  DroppedFiles(f, m).(manifest := None), p, d);
    }
  }

  /**
   When a machine crash after a completed recovery is harmless: exactly if the
   recovery made the move itself, or the trees were settled when it began.
  */
  lemma CrashAfterRecovery(start: Pool, m: Removal)
    requires start.disk.trees in start.trees
    ensures (forall d | MayBring(Completed(start, m), d) :: Passes(start.disk, m, d))
            <==> Source(m) in start.disk.trees || Settled(start)
  {
    if Source(m) !in start.disk.trees && !Settled(start) {
      var t :| t in start.trees && t != start.disk.trees;
      assert MayBring(Completed(start, m), Disk(Finished(start.disk, m).files, t));
    }
  }

  /**
   And when it is not harmless, the machine may crash between the two last writes
   of the recovery: the name is gone from the registry, the tree is back in its
   slot, and the manifest that is still there is refused.
  */
  lemma CutShortIsStuck(start: Pool, m: Removal, t: Trees)
    requires Refusal(start.disk, m).None? && m.name in start.disk.files.registry.profiles
    requires Source(m) !in start.disk.trees && t in start.trees && Source(m) in t
    ensures var stuck := Disk(DroppedFiles(start.disk.files, m), t);
            MayBring(AfterDrop(start, m), stuck) && Refusal(stuck, m) == Some(SlotOccupied)
  {
    UnregisteredIsValid(start.disk.files.registry, m.name);
    UnregisteredTwice(start.disk.files.registry, m.name);
    OthersRegistered(start.disk.files.registry, m.name);
  }

  /** The example: one pending removal, and the pool left by a process that dies between the rename and the syncs. */
  function Example(): (Removal, Disk) {
    var m := Removal("alice", "alice", "archived", 5.0);
    (m, Disk(Files(Some(Planned(m)), Registry(["alice"], map[], map[], None), NoFile), map[Source(m) := Tree(0, true)]))
  }

  function Died(d: Disk, m: Removal): Pool {
    Showing(AfterBarrier(Fresh(d), m), AfterMove(Fresh(d), m).disk)
  }

  lemma DiedInTheMove()
    ensures var (m, d) := Example();
            && Refusal(d, m).None? && ShownBy(Fresh(d), m, Died(d, m))
            && Refusal(Died(d, m).disk, m).None? && Died(d, m).disk.files.manifest == Some(Planned(m))
            && Source(m) !in Died(d, m).disk.trees && d.trees in Died(d, m).trees
            && Finished(Died(d, m).disk, m) == Finished(d, m)
            && Unregistered(d.files.registry, m.name).profiles == []
  {
    var (m, d) := Example();
    assert Refusal(d, m).None?;
    SameEnd(d, m, AfterMove(Fresh(d), m).disk);
    StillAccepted(d, m, AfterMove(Fresh(d), m).disk);
    UnregisteredTwice(d.files.registry, m.name);
    RetainedIs(d.files.registry.profiles, m.name);
    assert forall n :: n !in Unregistered(d.files.registry, m.name).profiles;
  }

  /** If the recovery completes before the crash, the tree is back in its slot, unregistered and without a manifest. */
  lemma UnsyncedMoveIsLost()
    ensures var (m, d) := Example();
            var done := Completed(Died(d, m), m);
            var lost := Disk(done.disk.files, d.trees);
            && done.disk == Finished(d, m) && MayBring(done, lost)
            && lost.files.manifest.None? && m.name !in lost.files.registry.profiles && Source(m) in lost.trees
            && !Passes(d, m, lost)
  {
    DiedInTheMove();
  }
}
