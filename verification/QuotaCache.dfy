/**
 The quota snapshot of src/profile/cache.rs: a fold of timestamped updates with
 reset barriers.  Times and window shares are reals; the code accepts finite
 values in fixed ranges only.
*/
module QuotaCache {
  import opened Options
  import opened Faults

  const TIME_LIMIT := 1000000000000.0

  datatype Outcome = Ready | Unavailable | Busy | NeedsLogin | Reset

  type Windows = (Option<real>, Option<real>)

  const NO_WINDOWS: Windows := (None, None)

  datatype Entry = Entry(
    directory: string,
    windows: Windows,
    sampledAt: Option<real>,
    sampleStartedAt: Option<real>,
    resetAt: real,
    attemptedAt: real,
    result: Outcome)

  datatype Update = Update(
    name: string, directory: string, windows: Windows, startedAt: real, finishedAt: real, result: Outcome)

  type Profiles = map<string, Entry>

  predicate ValidTime(t: real) {
    0.0 <= t < TIME_LIMIT
  }

  predicate ValidShare(w: Option<real>) {
    w.Some? ==> 0.0 <= w.value <= 1.0
  }

  predicate ValidWindows(w: Windows) {
    ValidShare(w.0) && ValidShare(w.1)
  }

  predicate ValidEntry(e: Entry) {
    && ValidWindows(e.windows) && ValidTime(e.attemptedAt) && ValidTime(e.resetAt)
    && (e.sampledAt.Some? ==> ValidTime(e.sampledAt.value))
    && (e.sampleStartedAt.Some? ==> ValidTime(e.sampleStartedAt.value))
    && (e.sampledAt.Some? <==> e.sampleStartedAt.Some?)
    && (e.sampledAt.None? ==> e.windows == NO_WINDOWS)
  }

  predicate ValidUpdate(u: Update) {
    ValidTime(u.startedAt) && ValidTime(u.finishedAt) && ValidWindows(u.windows)
  }

  function MaxReal(a: real, b: real): real {
    if a >= b then a else b
  }

  // ---- one update on one entry

  function FreshEntry(u: Update): Entry {
    Entry(u.directory, NO_WINDOWS, None, None, 0.0, 0.0, u.result)
  }

  /** An update for another directory that is older than what is known. */
  predicate Skipped(e: Entry, u: Update) {
    e.directory != u.directory && u.startedAt < MaxReal(e.attemptedAt, e.resetAt)
  }

  predicate Switches(e: Entry, u: Update) {
    e.directory != u.directory && !Skipped(e, u)
  }

  /** The values of the entry do not outlive this update. */
  predicate Clears(e: Entry, u: Update) {
    !Skipped(e, u) && (Switches(e, u) || u.result.Reset?)
  }

  function Switched(e: Entry, u: Update): Entry {
    if Switches(e, u)
    then e.(windows := NO_WINDOWS, sampledAt := None, sampleStartedAt := None,
            resetAt := u.startedAt, directory := u.directory)
    else e
  }

  function ResetBy(e: Entry, u: Update): Entry {
    if u.result.Reset?
    then e.(windows := NO_WINDOWS, sampledAt := None, sampleStartedAt := None, result := Reset,
            resetAt := MaxReal(MaxReal(e.resetAt, e.sampleStartedAt.UnwrapOr(0.0)), u.startedAt))
    else e
  }

  predicate Installs(e: Entry, u: Update) {
    && u.result.Ready? && u.startedAt >= e.resetAt
    && (e.sampleStartedAt.Some? ==> u.startedAt >= e.sampleStartedAt.value)
  }

  function Sampled(e: Entry, u: Update): Entry {
    if Installs(e, u)
    then e.(windows := u.windows, sampledAt := Some(u.finishedAt), sampleStartedAt := Some(u.startedAt))
    else e
  }

  function Attempted(e: Entry, u: Update): Entry {
    if u.startedAt >= e.attemptedAt then e.(attemptedAt := u.startedAt, result := u.result) else e
  }

  function StepEntry(e: Entry, u: Update): Entry {
    if Skipped(e, u) then e else Attempted(Sampled(ResetBy(Switched(e, u), u), u), u)
  }

  function Step(e: Option<Entry>, u: Update): Entry {
    StepEntry(if e.Some? then e.value else FreshEntry(u), u)
  }

  function MergeOne(m: Profiles, u: Update): Profiles {
    m[u.name := Step(Lookup(m, u.name), u)]
  }

  function MergeAll(m: Profiles, us: seq<Update>): Profiles {
    if us == [] then m else MergeOne(MergeAll(m, us[..|us| - 1]), us[|us| - 1])
  }

  predicate ValidProfiles(m: Profiles) {
    forall name <- m :: ValidEntry(m[name])
  }

  predicate ValidUpdates(us: seq<Update>) {
    forall u <- us :: ValidUpdate(u)
  }

  lemma {:induction false} MergeKeepsValid(m: Profiles, us: seq<Update>)
    requires ValidProfiles(m) && ValidUpdates(us)
    ensures ValidProfiles(MergeAll(m, us))
  {
    if us != [] {
      var n := |us| - 1;
      MergeKeepsValid(m, us[..n]);
      StepKeepsValid(Lookup(MergeAll(m, us[..n]), us[n].name), us[n]);
    }
  }

  lemma StepKeepsValid(e: Option<Entry>, u: Update)
    requires ValidUpdate(u) && (e.Some? ==> ValidEntry(e.value))
    ensures ValidEntry(Step(e, u))
  {
  }

  // ---- the file

  datatype Stored = NoFile | Unreadable | Malformed | Saved(profiles: Profiles)

  datatype CacheError = InvalidUpdate | InvalidSnapshot | Io

  /** What a merge starts from: a damaged snapshot counts as empty, an unreadable one does not. */
  function Base(stored: Stored): Profiles {
    if stored.Saved? && ValidProfiles(stored.profiles) then stored.profiles else map[]
  }

  class QuotaFile {
    const reliable: bool
    var stored: Stored

    constructor (stored: Stored, reliable: bool)
      ensures this.stored == stored && this.reliable == reliable
    {
      this.stored, this.reliable := stored, reliable;
    }

    method Read() returns (r: Result<Profiles, CacheError>)
      ensures r.Ok? ==> r.value == Base(stored) && !stored.Malformed? && !stored.Unreadable?
      ensures r.Err? && r.error.InvalidSnapshot? ==>
                stored.Malformed? || (stored.Saved? && !ValidProfiles(stored.profiles))
      ensures r.Err? ==> r.error.InvalidSnapshot? || r.error.Io?
      ensures reliable && r.Err? && r.error.Io? ==> stored.Unreadable?
    {
      var fault := Fault(reliable);
      if stored.Unreadable? || fault { return Err(Io); }
      match stored
      case NoFile => return Ok(map[]);
      case Saved(profiles) =>
        return if ValidProfiles(profiles) then Ok(profiles) else Err(InvalidSnapshot);
      case _ => return Err(InvalidSnapshot);
    }

    /** Fold the updates into the snapshot and replace the file; nothing is written unless all of them are valid. */
    method Merge(updates: seq<Update>) returns (r: Result<(), CacheError>)
      modifies this
      ensures r.Ok? ==> stored == Saved(MergeAll(Base(old(stored)), updates))
      ensures r.Ok? ==> ValidUpdates(updates) && ValidProfiles(stored.profiles) && !old(stored).Unreadable?
      // On an error the file is as it was, or complete with only the directory sync missing.
      ensures r.Err? ==>
                || stored == old(stored)
                || (r.error.Io? && ValidUpdates(updates) && !old(stored).Unreadable?
                    && stored == Saved(MergeAll(Base(old(stored)), updates)))
      ensures r.Err? && r.error.InvalidUpdate? ==> !ValidUpdates(updates)
      // Only a fault, an unreadable file or an invalid update stands in the way.
      ensures reliable && ValidUpdates(updates) && !old(stored).Unreadable? ==> r.Ok?
    {
      var read := Read();
      if read.Err? && !read.error.InvalidSnapshot? { return Err(read.error); }
      var profiles := if read.Ok? then read.value else map[];
      assert profiles == Base(stored);
      for i := 0 to |updates|
        invariant stored == old(stored) && !stored.Unreadable?
        invariant ValidUpdates(updates[..i])
        invariant profiles == MergeAll(Base(stored), updates[..i])
      {
        var u := updates[i];
        if !ValidUpdate(u) { return Err(InvalidUpdate); }
        assert updates[..i + 1][..i] == updates[..i];
        var entry := MergeEntry(Lookup(profiles, u.name), u);
        profiles := profiles[u.name := entry];
      }
      assert updates[..|updates|] == updates;
      MergeKeepsValid(Base(stored), updates);
      if !ValidProfiles(profiles) { return Err(InvalidSnapshot); }
      var fault := Fault(reliable);
      if fault { return Err(Io); }
      stored := Saved(profiles);
      var unsynced := Fault(reliable);
      return if unsynced then Err(Io) else Ok(());
    }

    /** The body of the loop: the entry is updated field by field. */
    static method MergeEntry(current: Option<Entry>, u: Update) returns (e: Entry)
      ensures e == Step(current, u)
    {
      e := if current.Some? then current.value else FreshEntry(u);
      if e.directory != u.directory {
        if u.startedAt < MaxReal(e.attemptedAt, e.resetAt) { return; }
        e := e.(windows := NO_WINDOWS, sampledAt := None, sampleStartedAt := None);
        e := e.(resetAt := u.startedAt, directory := u.directory);
      }
      if u.result.Reset? {
        e := e.(windows := NO_WINDOWS, sampledAt := None);
        e := e.(resetAt := MaxReal(MaxReal(e.resetAt, e.sampleStartedAt.UnwrapOr(0.0)), u.startedAt));
        e := e.(sampleStartedAt := None, result := Reset);
      }
      if u.result.Ready? && u.startedAt >= e.resetAt
         && (e.sampleStartedAt.None? || u.startedAt >= e.sampleStartedAt.value) {
        e := e.(windows := u.windows, sampledAt := Some(u.finishedAt), sampleStartedAt := Some(u.startedAt));
      }
      if u.startedAt >= e.attemptedAt {
        e := e.(attemptedAt := u.startedAt, result := u.result);
      }
    }
  }

  // ---- the history of one profile

  /** The entry after a history of updates of one profile, oldest arrival first. */
  function Folded(us: seq<Update>): Option<Entry> {
    if us == [] then None else Some(Step(Folded(us[..|us| - 1]), us[|us| - 1]))
  }

  function OfName(us: seq<Update>, name: string): seq<Update> {
    if us == [] then []
    else OfName(us[..|us| - 1], name) + (if us[|us| - 1].name == name then [us[|us| - 1]] else [])
  }

  /** A merge treats every profile as if it were alone. */
  lemma {:induction false} ProfilesAreIndependent(us: seq<Update>, name: string)
    ensures Lookup(MergeAll(map[], us), name) == Folded(OfName(us, name))
  {
    if us != [] {
      var n := |us| - 1;
      ProfilesAreIndependent(us[..n], name);
      if us[n].name == name {
        assert OfName(us, name)[..|OfName(us, name)| - 1] == OfName(us[..n], name);
      } else {
        assert OfName(us, name) == OfName(us[..n], name);
      }
    }
  }

  /** Barriers and samples never run ahead of the last attempt, and a sample never predates its barrier. */
  predicate Ordered(e: Entry) {
    && 0.0 <= e.resetAt <= e.attemptedAt
    && (e.sampleStartedAt.Some? ==> e.resetAt <= e.sampleStartedAt.value <= e.attemptedAt)
    && (e.sampledAt.Some? <==> e.sampleStartedAt.Some?)
    && (e.sampledAt.None? ==> e.windows == NO_WINDOWS)
  }

  lemma StepKeepsOrdered(e: Option<Entry>, u: Update)
    requires ValidUpdate(u) && (e.Some? ==> Ordered(e.value))
    ensures Ordered(Step(e, u))
    ensures e.Some? ==> e.value.resetAt <= Step(e, u).resetAt && e.value.attemptedAt <= Step(e, u).attemptedAt
    ensures Step(e, u).attemptedAt >= u.startedAt
    // An update that started before the barrier installs nothing.
    ensures e.Some? && u.startedAt < e.value.resetAt ==>
              || Step(e, u).sampledAt.None?
              || (Step(e, u).windows == e.value.windows && Step(e, u).sampledAt == e.value.sampledAt)
  {
  }

  /** Which updates are accepted: times from 1970 for some thirty thousand years, and shares of a whole. */
  lemma AcceptedUpdates(u: Update)
    ensures ValidUpdate(u) <==>
              && 0.0 <= u.startedAt < 1000000000000.0 && 0.0 <= u.finishedAt < 1000000000000.0
              && (forall share | u.windows.0 == Some(share) || u.windows.1 == Some(share) :: 0.0 <= share <= 1.0)
  {
    if u.windows.0.Some? { assert u.windows.0 == Some(u.windows.0.value); }
    if u.windows.1.Some? { assert u.windows.1 == Some(u.windows.1.value); }
  }

  /** Which entries are accepted when a snapshot is read. */
  lemma AcceptedEntries(e: Entry)
    ensures ValidEntry(e) <==>
              && ValidUpdate(Update("", "", e.windows, e.attemptedAt, e.resetAt, e.result))
              && (e.sampledAt.Some? <==> e.sampleStartedAt.Some?)
              && (e.sampledAt.Some? ==>
                    var sampled := Update("", "", e.windows, e.sampleStartedAt.value, e.sampledAt.value, e.result);
                    ValidUpdate(sampled))
              && (e.sampledAt.None? ==> e.windows.0.None? && e.windows.1.None?)
  {
  }

  /**
   A reset forgets the measurement, whenever it started, and puts the barrier at
   its own start or at that of the forgotten measurement, whichever is later.
  */
  lemma ResetForgets(e: Entry, u: Update)
    requires u.result.Reset? && e.directory == u.directory
    ensures var after := StepEntry(e, u);
            && after.windows == (None, None) && after.sampledAt.None? && after.sampleStartedAt.None?
            && after.result == Reset && after.directory == e.directory
            && after.resetAt >= u.startedAt && after.resetAt >= e.resetAt
            && (e.sampleStartedAt.Some? ==> after.resetAt >= e.sampleStartedAt.value)
            && after.resetAt in {u.startedAt, e.resetAt, e.sampleStartedAt.UnwrapOr(0.0), 0.0}
            && after.attemptedAt == if u.startedAt >= e.attemptedAt then u.startedAt else e.attemptedAt
  {
  }

  /** An update for another directory is ignored if anything newer is known, and otherwise starts the entry afresh. */
  lemma SwitchStartsAfresh(e: Entry, u: Update)
    requires e.directory != u.directory && ValidUpdate(u)
    ensures if u.startedAt < e.attemptedAt || u.startedAt < e.resetAt then StepEntry(e, u) == e
            else StepEntry(e, u) == Entry(
              u.directory,
              if u.result.Ready? then u.windows else (None, None),
              if u.result.Ready? then Some(u.finishedAt) else None,
              if u.result.Ready? then Some(u.startedAt) else None,
              u.startedAt, u.startedAt, u.result)
  {
  }

  /** A measurement counts exactly if it started neither before the barrier nor before the one that is stored. */
  lemma MeasurementCounts(e: Entry, u: Update)
    requires e.directory == u.directory && !u.result.Reset?
    ensures var after := StepEntry(e, u);
            var counts := u.result.Ready? && u.startedAt >= e.resetAt
                          && (e.sampleStartedAt.None? || u.startedAt >= e.sampleStartedAt.value);
            && after.resetAt == e.resetAt && after.directory == e.directory
            && (after.windows, after.sampledAt, after.sampleStartedAt) ==
               (if counts then (u.windows, Some(u.finishedAt), Some(u.startedAt))
                else (e.windows, e.sampledAt, e.sampleStartedAt))
            && (after.attemptedAt, after.result) ==
               (if u.startedAt >= e.attemptedAt then (u.startedAt, u.result) else (e.attemptedAt, e.result))
  {
  }

  /** The first update of a profile. */
  lemma FirstUpdate(u: Update)
    requires ValidUpdate(u)
    ensures Step(None, u) == Entry(
              u.directory,
              if u.result.Ready? then u.windows else (None, None),
              if u.result.Ready? then Some(u.finishedAt) else None,
              if u.result.Ready? then Some(u.startedAt) else None,
              if u.result.Reset? then u.startedAt else 0.0,
              u.startedAt, u.result)
  {
  }

  lemma {:induction false} FoldIsOrdered(us: seq<Update>)
    requires ValidUpdates(us) && us != []
    ensures Ordered(Folded(us).value)
    ensures forall u <- us :: u.startedAt <= Folded(us).value.attemptedAt
  {
    var n := |us| - 1;
    if n > 0 { FoldIsOrdered(us[..n]); }
    StepKeepsOrdered(Folded(us[..n]), us[n]);
    assert us == us[..n] + [us[n]];
  }

  /** The barrier never falls back, however late an update arrives. */
  lemma {:induction false} BarrierNeverFalls(us: seq<Update>, i: nat, j: nat)
    requires ValidUpdates(us) && 0 < i <= j <= |us|
    ensures Folded(us[..i]).value.resetAt <= Folded(us[..j]).value.resetAt
    decreases j
  {
    if i < j {
      BarrierNeverFalls(us, i, j - 1);
      BarrierStep(us, j);
    }
  }

  lemma BarrierStep(us: seq<Update>, j: nat)
    requires ValidUpdates(us) && 1 < j <= |us|
    ensures Folded(us[..j - 1]).value.resetAt <= Folded(us[..j]).value.resetAt
  {
    assert us[..j][..j - 1] == us[..j - 1];
    FoldIsOrdered(us[..j - 1]);
    StepKeepsOrdered(Folded(us[..j - 1]), us[j - 1]);
  }

  /** Where the present epoch begins: at the last update that cleared the entry. */
  function EpochStart(us: seq<Update>): (k: nat)
    ensures k <= |us|
  {
    if us == [] then 0
    else
      var before := Folded(us[..|us| - 1]);
      if before.Some? && Clears(before.value, us[|us| - 1]) then |us| - 1 else EpochStart(us[..|us| - 1])
  }

  /** A measurement of this epoch that the barrier admits. */
  predicate Admitted(us: seq<Update>, i: nat)
    requires us != [] && i < |us|
  {
    var e := Folded(us).value;
    EpochStart(us) <= i && us[i].result.Ready? && us[i].directory == e.directory && us[i].startedAt >= e.resetAt
  }

  /** Later start wins; among equal starts the later arrival. */
  predicate Latest(us: seq<Update>, i: nat)
    requires us != [] && i < |us|
  {
    && Admitted(us, i)
    && forall j | 0 <= j < |us| && Admitted(us, j) ::
         us[j].startedAt < us[i].startedAt || (us[j].startedAt == us[i].startedAt && j <= i)
  }

  /** The entry holds the latest admitted measurement, and none exactly if none was admitted. */
  ghost predicate Holds(us: seq<Update>, best: nat)
    requires us != []
  {
    var e := Folded(us).value;
    if e.sampledAt.None? then forall j | 0 <= j < |us| :: !Admitted(us, j)
    else
      && best < |us| && Latest(us, best)
      && e.windows == us[best].windows
      && e.sampledAt == Some(us[best].finishedAt)
      && e.sampleStartedAt == Some(us[best].startedAt)
  }

  /**
   The stored windows are those of the latest-starting admitted measurement
   since the last reset or directory switch, and there are none exactly if
   there is no such measurement.  Busy and failed attempts do not enter.
  */
  lemma {:induction false} StoresLatest(us: seq<Update>) returns (best: nat)
    requires ValidUpdates(us) && us != []
    ensures Holds(us, best)
    ensures Folded(us).value.sampledAt.Some? <==> exists j :: 0 <= j < |us| && Admitted(us, j)
  {
    var n := |us| - 1;
    if n == 0 {
      best := 0;
    } else {
      FoldIsOrdered(us[..n]);
      var before := Folded(us[..n]).value;
      var kept := StoresLatest(us[..n]);
      if Clears(before, us[n]) {
        best := n;
        AfterClear(us);
      } else {
        best := if !Skipped(before, us[n]) && Installs(before, us[n]) then n else kept;
        AfterPlain(us, kept);
      }
    }
    assert Folded(us).value.sampledAt.Some? ==> Admitted(us, best);
  }

  lemma AfterClear(us: seq<Update>)
    requires |us| > 1 && Clears(Folded(us[..|us| - 1]).value, us[|us| - 1])
    ensures Holds(us, |us| - 1)
  {
  }

  lemma AfterPlain(us: seq<Update>, kept: nat)
    requires |us| > 1 && Ordered(Folded(us[..|us| - 1]).value) && Holds(us[..|us| - 1], kept)
    requires !Clears(Folded(us[..|us| - 1]).value, us[|us| - 1])
    ensures var before, u := Folded(us[..|us| - 1]).value, us[|us| - 1];
            Holds(us, if !Skipped(before, u) && Installs(before, u) then |us| - 1 else kept)
  {
    SameEpoch(us);
    var n := |us| - 1;
    var before := Folded(us[..n]).value;
    if before.sampledAt.Some? { assert Latest(us[..n], kept) && Admitted(us, kept); }
  }

  /** An update that clears nothing leaves the earlier measurements admitted as they were. */
  lemma SameEpoch(us: seq<Update>)
    requires |us| > 1 && !Clears(Folded(us[..|us| - 1]).value, us[|us| - 1])
    ensures var n := |us| - 1;
            var before, after := Folded(us[..n]).value, Folded(us).value;
            && after.directory == before.directory && after.resetAt == before.resetAt
            && EpochStart(us) == EpochStart(us[..n])
            && (forall j | 0 <= j < n :: Admitted(us, j) <==> Admitted(us[..n], j))
  {
  }
}
