/**
 What a reader without a lock may find while other processes work on the store:
 the document, the journal and the stage of three different moments.
*/
module TornReads {
  import opened Options
  import opened Documents
  import opened AtomicIo
  import opened StoreProtocol
  import opened AtomicStore
  import opened Inspection
  import opened CasRegister

  ghost predicate SameAt(d: Dir, d': Dir, n: Name) {
    (n in d <==> n in d') && (n in d ==> d[n] == d'[n])
  }

  /** If neither the document nor the stage changed, the look is that at one directory. */
  lemma UntornIsOneLook(first: Dir, second: Dir, third: Dir)
    requires SameAt(first, second, Target)
    requires JournalOf(second).Some? ==> SameAt(second, third, DocStage(JournalOf(second).value.staged))
    ensures InspectTorn(first, second, third) == InspectRecovery(second)
  {
  }

  predicate ReportsConflict(r: Result<Inspection, StoreError>) {
    r.Err? && r.error.RecoveryConflict?
  }

  /** Where only the store writes, a conflict is reported exactly if the journal does not know the document. */
  lemma ConflictExactly(first: Image, second: Image, third: Dir)
    requires Sound(first) && Sound(second)
    requires JournalOf(second.view).Some? ==> !Foreign(second.view, DocStage(JournalOf(second.view).value.staged))
    ensures ReportsConflict(InspectTorn(first.view, second.view, third)) <==>
              && JournalOf(second.view).Some?
              && DigestOf(TargetOf(first.view)) != Some(JournalOf(second.view).value.goal)
              && DigestOf(TargetOf(first.view)) != JournalOf(second.view).value.base
    ensures ReportsConflict(InspectTorn(first.view, second.view, third)) ==>
              TargetOf(first.view) != TargetOf(second.view)
  {
    assert GoodDir(first.view) && GoodDir(second.view);
  }

  // ---- over whole behaviours

  /** A step of a process, the machine running on. */
  ghost predicate Runs(s: System, s': System) {
    || (exists pid :: Acquires(s, s', pid))
    || Releases(s, s')
    || (exists op, rest, r :: Begins(s, s', op, rest, r))
    || Advances(s, s')
    || Finishes(s, s')
    || Dies(s, s')
  }

  ghost predicate MachineRuns(states: seq<System>, i: nat, k: nat) {
    forall a, b | i <= a && b == a + 1 <= k && k < |states| :: Runs(states[a], states[b])
  }

  /** The values are the same, and so is a write that was visible. */
  ghost predicate Unchanged(s: System, s': System) {
    s'.chain == s.chain && (s.pending.Some? ==> s'.pending == s.pending)
  }

  lemma RunsOn(s: System, s': System)
    requires Inv(s) && Runs(s, s')
    ensures Unchanged(s, s') || |s.chain| < |s'.chain|
  {
    if Advances(s, s') { AdvanceRunsOn(s, s'); }
  }

  lemma AdvanceRunsOn(s: System, s': System)
    requires Inv(s) && Advances(s, s')
    ensures Unchanged(s, s') || |s.chain| < |s'.chain|
  {
    NextImage(s);
    if Abs(s.image).pending.Some? { PendingDiffers(s.image); }
  }

  lemma {:induction false} NothingVanishes(states: seq<System>, i: nat, k: nat)
    requires Behavior(states) && i <= k < |states| && MachineRuns(states, i, k)
    ensures Unchanged(states[i], states[k]) || |states[i].chain| < |states[k].chain|
    decreases k
  {
    if i < k {
      NothingVanishes(states, i, k - 1);
      OneStepOn(states, i, k);
      HistoryGrows(states, i, k - 1);
      StillUnchanged(states[i], states[k - 1], states[k]);
    }
  }

  lemma OneStepOn(states: seq<System>, i: nat, k: nat)
    requires Behavior(states) && i < k < |states| && MachineRuns(states, i, k)
    ensures Unchanged(states[k - 1], states[k]) || |states[k - 1].chain| < |states[k].chain|
  {
    Reaches(states, k - 1);
    assert Runs(states[k - 1], states[k]);
    RunsOn(states[k - 1], states[k]);
  }

  lemma StillUnchanged(a: System, b: System, c: System)
    requires Unchanged(a, b) || |a.chain| < |b.chain|
    requires Unchanged(b, c) || |b.chain| < |c.chain|
    requires |a.chain| <= |b.chain|
    ensures Unchanged(a, c) || |a.chain| < |c.chain|
  {
  }

  /**
   What a reader returns was the document when it read it: the last certain
   value or the single write that may follow it.  No conflict it reports is a
   real one.  It means that another process made a value certain between the
   two looks, so that looking again is the right answer.
  */
  lemma TornReadIsSafe(states: seq<System>, i: nat, j: nat, k: nat)
    requires Behavior(states) && i <= j <= k < |states| && MachineRuns(states, i, k)
    ensures var r := InspectTorn(states[i].image.view, states[j].image.view, states[k].image.view);
            && (r.Ok? ==> r.value.snapshot == Current(states[i])
                          || (states[i].pending.Some? && states[i].pending.value.op.Commit?
                              && r.value.snapshot == Some(states[i].pending.value.op.bytes)))
            && (ReportsConflict(r) ==> i < j && |states[i].chain| < |states[j].chain|)
            && !PreviewOf(states[j].image.view).Clash?
  {
    AtomicRegister(states, i);
    Reaches(states, i);
    Reaches(states, j);
    var a, b := states[i].image, states[j].image;
    assert GoodDir(a.view) && GoodDir(b.view);
    NothingVanishes(states, i, j);
    if Unchanged(states[i], states[j]) { UnchangedIsKnown(states, i, j); }
  }

  /** As long as no value became certain, every journal knows the document that was visible. */
  lemma UnchangedIsKnown(states: seq<System>, i: nat, j: nat)
    requires Behavior(states) && i <= j < |states| && Unchanged(states[i], states[j])
    ensures var journal := JournalOf(states[j].image.view);
            var seen := DigestOf(TargetOf(states[i].image.view));
            journal.Some? ==> seen == Some(journal.value.goal) || seen == journal.value.base
  {
    AtomicRegister(states, i);
    AtomicRegister(states, j);
    Reaches(states, j);
    if JournalOf(states[j].image.view).Some? { KnowsItsValue(states[j].image); }
  }

  lemma KnowsItsValue(img: Image)
    requires Sound(img) && JournalOf(img.view).Some?
    ensures var j := JournalOf(img.view).value;
            && (DigestOf(TargetOf(img.view)) == Some(j.goal) || DigestOf(TargetOf(img.view)) == j.base)
            && (DigestOf(Abs(img).value) == Some(j.goal) || DigestOf(Abs(img).value) == j.base)
  {
    assert GoodDir(img.view);
  }

  /** The conflict that is none: the old document, and then the journal of the commit after the next. */
  lemma FalseConflict()
    ensures var old', next, last := Raw([1]), Raw([2]), Raw([3]);
            var before := map[Target := File(old', true)];
            var after := map[Target := File(next, true),
                             FixedJournal := File(Record(Journal(Some(Sha256(next)), Sha256(last), 0)), true),
                             DocStage(0) := File(last, true)];
            && Sound(Image(before, {before})) && Sound(Image(after, {after}))
            && InspectRecovery(before).Ok? && InspectRecovery(after).Ok?
            && ReportsConflict(InspectTorn(before, after, after))
  {
    var before := map[Target := File(Raw([1]), true)];
    var after := map[Target := File(Raw([2]), true),
                     FixedJournal := File(Record(Journal(Some(Sha256(Raw([2]))), Sha256(Raw([3])), 0)), true),
                     DocStage(0) := File(Raw([3]), true)];
    assert GoodDir(before) && GoodDir(after);
    assert Raw([1]) != Raw([2]) && Raw([1]) != Raw([3]) by {
      assert [1][0] != [2][0] && [1][0] != [3][0];
    }
  }
}
