/**
 Removing a profile from the pool, as src/profile/remove.rs does it: a manifest
 first, then the quota barrier, the move into the archive, the registry, and
 the manifest's own removal.  Taking the registry lock finishes what a crash
 left behind.
*/
module ProfileRemoval {
  import opened Options
  import opened QuotaCache
  import opened ProfileRegistry

  datatype Place = Slot(directory: string) | Archive(id: string)

  /** A directory tree; `secure` when every component down to the login is a private directory. */
  datatype Tree = Tree(content: nat, secure: bool)

  type Trees = map<Place, Tree>

  datatype Removal = Removal(name: string, directory: string, archive: string, resetAt: real)

  datatype Manifest = Damaged | Planned(removal: Removal)

  /** What the root directory holds: `.remove-profile.json`, `state.json` and `quota.json`. */
  datatype Files = Files(manifest: Option<Manifest>, registry: Registry, quota: Stored)

  datatype Disk = Disk(files: Files, trees: Trees)

  datatype RemovalError =
    | NotRegistered | InvalidRegistry | IdentityChanged | DirectoryShared | SlotOccupied | AmbiguousArchive
    | InsecureTree | ProfileBusy | InvalidManifest | IoFailure

  // ---- the removal as a whole

  function Source(m: Removal): Place {
    Slot(m.directory)
  }

  function Destination(m: Removal): Place {
    Archive(m.archive)
  }

  function Moved(trees: Trees, m: Removal): Trees {
    if Source(m) in trees then trees[Destination(m) := trees[Source(m)]] - {Source(m)} else trees
  }

  function Barrier(m: Removal): Update {
    Update(m.name, m.directory, NO_WINDOWS, m.resetAt, m.resetAt, Reset)
  }

  function Barred(quota: Stored, m: Removal): Stored {
    Saved(MergeAll(Base(quota), [Barrier(m)]))
  }

  function RefusalIn(r: Registry, trees: Trees, m: Removal): Option<RemovalError> {
    var registered := m.name in r.profiles;
    if !ValidRegistry(r) then Some(InvalidRegistry)
    else if registered && DirectoryOf(r, m.name) != m.directory then Some(IdentityChanged)
    else if exists n <- r.profiles :: n != m.name && DirectoryOf(r, n) == m.directory then Some(DirectoryShared)
    else if Source(m) in trees && !registered then Some(SlotOccupied)
    else if Source(m) in trees <==> Destination(m) in trees then Some(AmbiguousArchive)
    else if !trees[if Source(m) in trees then Source(m) else Destination(m)].secure then Some(InsecureTree)
    else None
  }

  /** Why a removal is refused before anything is changed. */
  function Refusal(d: Disk, m: Removal): Option<RemovalError> {
    RefusalIn(d.files.registry, d.trees, m)
  }

  /**
   What is checked before anything is changed.  The registry is one that can be
   read; a registered name still lies in the directory of the manifest; no other
   account lies there; nothing unregistered occupies it; the tree is in exactly
   one of the two places, and private.
  */
  lemma AcceptedExactly(d: Disk, m: Removal)
    ensures Refusal(d, m).None? <==>
              var r, trees := d.files.registry, d.trees;
              && ValidRegistry(r)
              && (m.name in r.profiles ==> Lookup(r.directories, m.name).UnwrapOr(m.name) == m.directory)
              && (forall n <- r.profiles | n != m.name :: Lookup(r.directories, n).UnwrapOr(n) != m.directory)
              && (Slot(m.directory) in trees ==> m.name in r.profiles)
              && (Slot(m.directory) in trees <==> Archive(m.archive) !in trees)
              && (forall p | p in trees && (p == Slot(m.directory) || p == Archive(m.archive)) :: trees[p].secure)
  {
    assert forall n :: DirectoryOf(d.files.registry, n) == Lookup(d.files.registry.directories, n).UnwrapOr(n);
  }

  /** What each refusal says. */
  lemma RefusalsSay(d: Disk, m: Removal)
    ensures var r, trees := d.files.registry, d.trees;
            match Refusal(d, m)
            case Some(InvalidRegistry) => !ValidRegistry(r)
            case Some(IdentityChanged) =>
              m.name in r.profiles && Lookup(r.directories, m.name).UnwrapOr(m.name) != m.directory
            case Some(DirectoryShared) =>
              exists n <- r.profiles :: n != m.name && Lookup(r.directories, n).UnwrapOr(n) == m.directory
            case Some(SlotOccupied) => Slot(m.directory) in trees && m.name !in r.profiles
            case Some(AmbiguousArchive) => Slot(m.directory) in trees <==> Archive(m.archive) in trees
            case Some(InsecureTree) =>
              exists p <- trees :: (p == Slot(m.directory) || p == Archive(m.archive)) && !trees[p].secure
            case Some(_) => false
            case None => true
  {
    var r := d.files.registry;
    assert forall n :: DirectoryOf(r, n) == Lookup(r.directories, n).UnwrapOr(n);
  }

  function Noted(d: Disk, manifest: Option<Manifest>): Disk {
    d.(files := d.files.(manifest := manifest))
  }

  function BarredFiles(f: Files, m: Removal): Files {
    f.(quota := Barred(f.quota, m))
  }

  function DroppedFiles(f: Files, m: Removal): Files {
    BarredFiles(f, m).(registry := Unregistered(f.registry, m.name))
  }

  /** The one final state of a removal. */
  function Finished(d: Disk, m: Removal): Disk {
    Disk(DroppedFiles(d.files, m).(manifest := None), Moved(d.trees, m))
  }

  /** The disks a removal passes through, in order. */
  ghost predicate Passes(d: Disk, m: Removal, d': Disk) {
    || d' == d
    || d' == Disk(BarredFiles(d.files, m), d.trees)
    || d' == Disk(BarredFiles(d.files, m), Moved(d.trees, m))
    || d' == Disk(DroppedFiles(d.files, m), Moved(d.trees, m))
    || d' == Finished(d, m)
  }

  // ---- what every disk on the way has in common

  function TreeOf(d: Disk, m: Removal): Tree
    requires Source(m) in d.trees || Destination(m) in d.trees
  {
    d.trees[if Source(m) in d.trees then Source(m) else Destination(m)]
  }

  /** The tree is in exactly one of the two places, whole. */
  ghost predicate InOnePlace(trees: Trees, m: Removal, tree: Tree) {
    && (Source(m) in trees <==> Destination(m) !in trees)
    && (Source(m) in trees ==> trees[Source(m)] == tree)
    && (Destination(m) in trees ==> trees[Destination(m)] == tree)
  }

  ghost predicate SameQuota(q: Stored, q': Stored, name: string) {
    forall n | n != name :: Lookup(Base(q'), n) == Lookup(Base(q), n)
  }

  ghost predicate SameTrees(trees: Trees, trees': Trees, m: Removal) {
    forall p | p != Source(m) && p != Destination(m) :: Lookup(trees', p) == Lookup(trees, p)
  }

  /** Nothing that belongs to another account differs. */
  ghost predicate OthersUntouched(d: Disk, d': Disk, m: Removal) {
    && SameOthers(d.files.registry, d'.files.registry, m.name)
    && SameQuota(d.files.quota, d'.files.quota, m.name)
    && SameTrees(d.trees, d'.trees, m)
  }

  lemma MergesOne(m: Profiles, u: Update)
    ensures MergeAll(m, [u]) == MergeOne(m, u)
  {
    assert [u][..0] == [];
  }

  /** Raising the same barrier twice changes nothing. */
  lemma BarrierTwice(quota: Stored, m: Removal)
    requires ValidTime(m.resetAt)
    ensures Barred(Barred(quota, m), m) == Barred(quota, m)
    ensures Base(Barred(quota, m)) == Barred(quota, m).profiles
  {
    var u := Barrier(m);
    MergeKeepsValid(Base(quota), [u]);
    MergesOne(Base(quota), u);
    MergesOne(MergeOne(Base(quota), u), u);
    ResetTwice(Lookup(Base(quota), u.name), u);
  }

  lemma ResetTwice(e: Option<Entry>, u: Update)
    requires ValidUpdate(u) && u.result.Reset?
    ensures Step(Some(Step(e, u)), u) == Step(e, u)
  {
  }

  lemma OthersQuota(quota: Stored, m: Removal)
    requires ValidTime(m.resetAt)
    ensures SameQuota(quota, Barred(quota, m), m.name)
  {
    BarrierTwice(quota, m);
    MergesOne(Base(quota), Barrier(m));
  }

  lemma MovedInOnePlace(trees: Trees, m: Removal, tree: Tree)
    requires InOnePlace(trees, m, tree)
    ensures InOnePlace(Moved(trees, m), m, tree) && SameTrees(trees, Moved(trees, m), m)
    ensures Moved(Moved(trees, m), m) == Moved(trees, m)
  {
  }

  /** A removal that is not refused finds the tree in exactly one place. */
  lemma AcceptedInOnePlace(d: Disk, m: Removal)
    requires Refusal(d, m).None?
    ensures (Source(m) in d.trees || Destination(m) in d.trees) && InOnePlace(d.trees, m, TreeOf(d, m))
  {
  }

  /** Each part of a disk on the way is as it was or as it will be. */
  lemma PassesParts(d: Disk, m: Removal, d': Disk)
    requires Passes(d, m, d')
    ensures d'.files.registry == d.files.registry || d'.files.registry == Unregistered(d.files.registry, m.name)
    ensures d'.files.quota == d.files.quota || d'.files.quota == Barred(d.files.quota, m)
    ensures d'.trees == d.trees || d'.trees == Moved(d.trees, m)
  {
  }

  /** On every disk on the way the tree is in one place and the other accounts are as they were. */
  lemma PassesKeeps(d: Disk, m: Removal, d': Disk)
    requires Refusal(d, m).None? && ValidTime(m.resetAt) && Passes(d, m, d')
    ensures (Source(m) in d.trees || Destination(m) in d.trees) && InOnePlace(d'.trees, m, TreeOf(d, m))
    ensures OthersUntouched(d, d', m)
  {
    PassesParts(d, m, d');
    AcceptedInOnePlace(d, m);
    MovedInOnePlace(d.trees, m, TreeOf(d, m));
    OthersRegistered(d.files.registry, m.name);
    OthersQuota(d.files.quota, m);
  }

  /** The interrupted removal would end on the same disk. */
  lemma SameEnd(d: Disk, m: Removal, d': Disk)
    requires Refusal(d, m).None? && ValidTime(m.resetAt) && Passes(d, m, d')
    ensures Finished(d', m) == Finished(d, m)
  {
    BarrierTwice(d.files.quota, m);
    UnregisteredTwice(d.files.registry, m.name);
    AcceptedInOnePlace(d, m);
    MovedInOnePlace(d.trees, m, TreeOf(d, m));
  }

  lemma MovedAccepted(r: Registry, trees: Trees, m: Removal)
    requires RefusalIn(r, trees, m).None?
    ensures RefusalIn(r, Moved(trees, m), m).None? && Source(m) !in Moved(trees, m)
  {
  }

  lemma UnregisteredAccepted(r: Registry, trees: Trees, m: Removal)
    requires RefusalIn(r, trees, m).None? && Source(m) !in trees
    ensures RefusalIn(Unregistered(r, m.name), trees, m).None?
  {
    UnregisteredIsValid(r, m.name);
    UnregisteredTwice(r, m.name);
    forall n | n in r.profiles && n != m.name ensures DirectoryOf(Unregistered(r, m.name), n) != m.directory {
      OthersKeepDirectories(r, m.name, n);
    }
  }

  lemma StillAccepted(d: Disk, m: Removal, d': Disk)
    requires Refusal(d, m).None? && Passes(d, m, d')
    ensures Refusal(d', m).None?
  {
    MovedAccepted(d.files.registry, d.trees, m);
    UnregisteredAccepted(d.files.registry, Moved(d.trees, m), m);
  }

  /** Where a removal was interrupted does not matter: what is left of it is accepted and leads to the same end. */
  lemma Converges(d: Disk, m: Removal, d': Disk)
    requires Refusal(d, m).None? && ValidTime(m.resetAt) && d.files.manifest == Some(Planned(m)) && Passes(d, m, d')
    ensures Refusal(d', m).None? && Finished(d', m) == Finished(d, m)
    ensures d' == Finished(d, m) || d'.files.manifest == d.files.manifest
  {
    StillAccepted(d, m, d');
    SameEnd(d, m, d');
  }


}
