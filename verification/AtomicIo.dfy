/**
 The file primitives of src/core/atomic_io.rs over one directory.

 A directory change is visible to every process at once but survives a crash
 for certain only after the parent directory was synchronised.  `held` is the
 set of directories a crash may bring back: everything seen since the last
 successful directory sync.  File contents survive only once the file itself
 was flushed.  `log` records every image the disk ever showed, so that a
 contract can speak about a crash at any point of a method.

 Any call may fail.  `faults` bounds how many calls that change or synchronise the
 directory the platform still fails, and none fails once it is zero.  As every
 number is allowed this excludes nothing, but a contract can speak about progress
 too, and about what one single failure may do.
 */
module AtomicIo {
  import opened Documents
  import opened Faults

  /** The names of one store directory, after classification. */
  datatype Name =
    | Target
    | FixedLock
    | FixedJournal
    | DocStage(txid: Txid)
    | JournalStage(txid: Txid)
    | Ordinary(id: nat)

  datatype Entry = File(bytes: Bytes, flushed: bool) | NotAFile

  type Dir = map<Name, Entry>

  datatype Image = Image(view: Dir, held: set<Dir>)

  /** The three outcomes of a native mutation. */
  datatype Mutation<+T> = Done(value: T) | NotApplied | ReconcileRequired

  function Renamed(d: Dir, from: Name, to: Name): Dir
    requires from in d && from != to
  {
    d[to := d[from]] - {from}
  }

  /** The image after one directory change that is not yet synchronised. */
  ghost function After(img: Image, d: Dir): Image {
    Image(d, img.held + {d})
  }

  ghost function Synced(img: Image): Image {
    Image(img.view, {img.view})
  }

  /** A crash keeps the names of one held directory; unflushed contents may become anything. */
  ghost predicate Torn(d: Dir, d': Dir) {
    && d'.Keys == d.Keys
    && forall n <- d ::
         match d[n]
         case NotAFile => d'[n] == NotAFile
         case File(bytes, flushed) =>
           d'[n].File? && d'[n].flushed && (flushed ==> d'[n].bytes == bytes)
  }

  ghost predicate Survives(img: Image, d': Dir) {
    exists d <- img.held :: Torn(d, d')
  }

  /** This process's hold on the exclusive advisory lock of one lock file. */
  class ExclusiveLock {
    const reliable: bool
    var held: bool

    constructor (reliable: bool)
      ensures !held && this.reliable == reliable
    {
      this.reliable, held := reliable, false;
    }

    /** `lock_exclusive`: waits until no other process holds it, or fails. */
    method Take() returns (ok: bool)
      modifies this
      ensures held == (old(held) || ok)
      ensures reliable ==> ok
    {
      var fault := Fault(reliable);
      ok := !fault;
      held := held || ok;
    }
  }

  class OwnedRoot {
    var faults: nat
    var view: Dir
    ghost var held: set<Dir>
    ghost var log: seq<Image>

    ghost function Now(): Image
      reads this
    {
      Image(view, held)
    }

    ghost predicate Valid()
      reads this
    {
      view in held && |log| > 0 && log[|log| - 1] == Now()
    }

    /** Open a directory that nobody has unsynchronised changes in. */
    constructor (d: Dir, faults: nat)
      ensures Valid() && view == d && held == {d} && log == [Now()] && this.faults == faults
    {
      this.faults, view, held := faults, d, {d};
      log := [Image(d, {d})];
    }

    /** Whether the platform fails the next change. */
    method Fails() returns (fault: bool)
      modifies this`faults
      ensures fault ==> faults < old(faults)
      ensures !fault ==> faults == old(faults)
    {
      fault := *;
      fault := fault && faults > 0;
      if fault { faults := faults - 1; }
    }

    /** What other processes did meanwhile: this process starts a new log at the image it now finds. */
    method Overtaken(img: Image)
      requires img.view in img.held
      modifies this
      ensures Valid() && Now() == img && log == [img] && faults == old(faults)
    {
      view, held := img.view, img.held;
      log := [img];
    }

    /** One visible, not yet durable directory change. */
    method Move(d: Dir)
      requires Valid()
      modifies this
      ensures Valid() && Now() == After(old(Now()), d) && log == old(log) + [Now()] && faults == old(faults)
    {
      view := d;
      held := held + {d};
      log := log + [Now()];
    }

    /** `create_new`: fails on any existing entry, never follows one. */
    method CreateNew(n: Name) returns (ok: bool)
      requires Valid()
      modifies this
      ensures Valid()
      ensures ok ==>
                && n !in old(view)
                && n in view && view[n].File? && !view[n].flushed
                && Now() == After(old(Now()), old(view)[n := view[n]])
                && log == old(log) + [Now()]
      ensures !ok ==> Now() == old(Now()) && log == old(log)
      ensures faults <= old(faults)
      ensures !ok && n !in old(view) ==> faults < old(faults)
    {
      var fault := Fails();
      if n in view || fault { return false; }
      Move(view[n := File(Empty(), false)]);
      return true;
    }

    /** `write_all` on a file this process just created; a failure leaves some prefix. */
    method WriteAll(n: Name, bytes: Bytes) returns (ok: bool)
      requires Valid() && n in view && view[n].File? && !view[n].flushed
      modifies this
      ensures Valid()
      ensures n in view && view[n].File? && !view[n].flushed
      ensures Now() == After(old(Now()), old(view)[n := view[n]])
      ensures log == old(log) + [Now()]
      ensures ok ==> view[n].bytes == bytes
      ensures faults <= old(faults)
      ensures !ok ==> faults < old(faults)
    {
      var fault := Fails();
      ok := !fault;
      var partial: Bytes := *;
      Move(view[n := File(if ok then bytes else partial, false)]);
    }

    /** `sync_all` / `sync_file`: the contents are durable from here on. */
    method SyncFile(n: Name) returns (ok: bool)
      requires Valid()
      modifies this
      ensures Valid()
      ensures ok ==>
                && n in old(view) && old(view)[n].File?
                && Now() == After(old(Now()), old(view)[n := File(old(view)[n].bytes, true)])
                && log == old(log) + [Now()]
      ensures !ok ==> Now() == old(Now()) && log == old(log)
      ensures faults <= old(faults)
      ensures !ok && n in old(view) && old(view)[n].File? ==> faults < old(faults)
    {
      var fault := Fails();
      if n !in view || view[n].NotAFile? || fault { return false; }
      Move(view[n := File(view[n].bytes, true)]);
      return true;
    }

    method SyncParent() returns (ok: bool)
      requires Valid()
      modifies this
      ensures Valid()
      ensures ok ==> Now() == Synced(old(Now())) && log == old(log) + [Now()]
      ensures !ok ==> Now() == old(Now()) && log == old(log)
      ensures faults <= old(faults)
      ensures !ok ==> faults < old(faults)
    {
      var fault := Fails();
      ok := !fault;
      if ok {
        held := {view};
        log := log + [Now()];
      }
    }

    /** `replace_same_dir`: rename over the destination, then sync the directory. */
    method Replace(from: Name, to: Name) returns (r: Mutation<()>)
      requires Valid() && from != to
      modifies this
      ensures Valid()
      ensures r.NotApplied? ==> Now() == old(Now()) && log == old(log)
      ensures r.Done? ==>
                && from in old(view) && old(view)[from].File?
                && view == Renamed(old(view), from, to)
                && Now() == Synced(After(old(Now()), view))
                && log == old(log) + [After(old(Now()), view), Now()]
      ensures r.ReconcileRequired? ==>
                || (Now() == old(Now()) && log == old(log))
                || (&& from in old(view) && old(view)[from].File?
                    && Now() == After(old(Now()), Renamed(old(view), from, to))
                    && log == old(log) + [Now()])
      ensures faults <= old(faults)
      ensures !r.Done? && from in old(view) && old(view)[from].File? && (to in old(view) ==> old(view)[to].File?) ==>
                faults < old(faults)
    {
      var fault := Fails();
      if from !in view || view[from].NotAFile? || (to in view && view[to].NotAFile?) || fault {
        return NotApplied;
      }
      var silent := Fails();
      if silent { return ReconcileRequired; }
      Move(Renamed(view, from, to));
      var synced := SyncParent();
      return if synced then Done(()) else ReconcileRequired;
    }

    /** `remove_file`: unlink if present, then sync the directory. */
    method Remove(n: Name) returns (r: Mutation<bool>)
      requires Valid()
      modifies this
      ensures Valid()
      ensures r.NotApplied? ==> Now() == old(Now()) && log == old(log)
      ensures r.Done? && !r.value ==> n !in view && Now() == old(Now()) && log == old(log)
      ensures r.Done? && r.value ==>
                && n in old(view) && old(view)[n].File?
                && view == old(view) - {n}
                && Now() == Synced(After(old(Now()), view))
                && log == old(log) + [After(old(Now()), view), Now()]
      ensures r.ReconcileRequired? ==>
                || (Now() == old(Now()) && log == old(log))
                || (&& n in old(view) && old(view)[n].File?
                    && Now() == After(old(Now()), old(view) - {n})
                    && log == old(log) + [Now()])
      ensures faults <= old(faults)
      ensures !r.Done? && (n in old(view) ==> old(view)[n].File?) ==> faults < old(faults)
    {
      var fault := Fails();
      if fault { return NotApplied; }
      if n !in view { return Done(false); }
      if view[n].NotAFile? { return NotApplied; }
      var silent := Fails();
      if silent { return ReconcileRequired; }
      Move(view - {n});
      var synced := SyncParent();
      return if synced then Done(true) else ReconcileRequired;
    }
  }
}
