/** The side-effect-free look at a store that readers take before any lock is held. */
module Inspection {
  import opened Options
  import opened Documents
  import opened AtomicIo
  import opened StoreProtocol
  import opened AtomicStore

  datatype Inspection = Inspection(
    snapshot: Option<Bytes>,
    journal: Option<Journal>,
    recovery: Preview,
    staged: Option<Bytes>)

  /**
   `inspect_recovery_from_normalized`, which takes no lock: the document, the
   journal and its stage are read one after the other, so the three may come from
   three directories.
  */
  function InspectTorn(first: Dir, second: Dir, third: Dir): Result<Inspection, StoreError> {
    if Foreign(first, Target) then Err(Io)
    else if FixedJournal !in second then Ok(Inspection(TargetOf(first), None, Clean, None))
    else if Foreign(second, FixedJournal) then Err(Io)
    else if JournalOf(second).None? then Err(InvalidJournal)
    else
      var j := JournalOf(second).value;
      var stage := DocStage(j.staged);
      if Foreign(second, stage) then Err(InvalidJournal)
      else
        match RecoveryPreview(DigestOf(TargetOf(first)), Some(j))
        case Clash(live, base, goal) => Err(RecoveryConflict(live, base, goal))
        case recovery =>
          if Foreign(third, stage) then Err(Io)
          else if stage !in third || Sha256(third[stage].bytes) != j.goal then Err(InvalidJournal)
          else Ok(Inspection(TargetOf(first), Some(j), recovery, Some(third[stage].bytes)))
  }

  /** The same when nothing changes meanwhile. */
  function InspectRecovery(d: Dir): Result<Inspection, StoreError> {
    InspectTorn(d, d, d)
  }

  /** The journal's stage is still there and holds what the journal promises. */
  ghost predicate StageIntact(d: Dir, j: Journal) {
    DocStage(j.staged) in d && d[DocStage(j.staged)].File? && Sha256(d[DocStage(j.staged)].bytes) == j.goal
  }

  /**
   On every directory whatever, inspection succeeds exactly if the document is a
   file and the journal, if there is an entry for one, can be parsed, does not
   conflict with the document, and still has its stage.
  */
  lemma ReadableIff(d: Dir)
    ensures InspectRecovery(d).Ok? <==>
              && !Foreign(d, Target)
              && (FixedJournal in d ==>
                    JournalOf(d).Some? && !PreviewOf(d).Clash? && StageIntact(d, JournalOf(d).value))
  {
  }

  /** A conflict is reported exactly if recovery would report it too, and with the same three digests. */
  lemma ConflictIff(d: Dir)
    requires !Foreign(d, Target) && !Foreign(d, FixedJournal)
    requires JournalOf(d).Some? ==> !Foreign(d, DocStage(JournalOf(d).value.staged))
    ensures InspectRecovery(d).Err? && InspectRecovery(d).error.RecoveryConflict? <==> PreviewOf(d).Clash?
    ensures PreviewOf(d).Clash? ==>
              InspectRecovery(d) ==
              Err(RecoveryConflict(DigestOf(TargetOf(d)), JournalOf(d).value.base, JournalOf(d).value.goal))
  {
  }

  /** The protocol leaves no conflict behind, so there only a consumed stage keeps inspection from succeeding. */
  lemma SoundReadableIff(img: Image)
    requires Sound(img)
    ensures !PreviewOf(img.view).Clash?
    ensures InspectRecovery(img.view).Ok? <==>
              (FixedJournal in img.view ==> StageIntact(img.view, JournalOf(img.view).value))
  {
    assert GoodDir(img.view);
    ReadableIff(img.view);
  }

  /** What an inspection reports is what recovery would then do, and the document it would keep. */
  lemma InspectionPredicts(d: Dir)
    requires InspectRecovery(d).Ok?
    ensures var i := InspectRecovery(d).value;
            && i.recovery == PreviewOf(d) && !i.recovery.Clash?
            && i.snapshot == TargetOf(d)
            && (i.staged.Some? <==> !i.recovery.Clean?)
            && (i.recovery.Finalize? ==> i.snapshot == i.staged)
  {
  }

  /**
   The directory left by a crash right after the document was replaced cannot be
   read, although recovery would finish the commit: the rename has consumed the
   stage that inspection asks for.
  */
  lemma UnreadableAfterReplace(a: Image, op: Op)
    requires Sound(a) && Armed(a.view, op) && TargetOf(a.view) == op.pre
    ensures var d := Renamed(a.view, DocStage(op.txid), Target);
            PreviewOf(d) == Finalize && InspectRecovery(d) == Err(InvalidJournal)
  {
    assert GoodDir(a.view);
  }

  /** A smallest instance: the first document was just renamed into place. */
  lemma UnreadableWitness()
    ensures var doc := Raw([1]);
            var d := map[Target := File(doc, true),
                         FixedJournal := File(Record(Journal(None, Sha256(doc), 0)), true)];
            && Sound(Image(d, {d}))
            && PreviewOf(d) == Finalize
            && InspectRecovery(d) == Err(InvalidJournal)
  {
    var doc := Raw([1]);
    var d := map[Target := File(doc, true),
                 FixedJournal := File(Record(Journal(None, Sha256(doc), 0)), true)];
    assert d[Target] == File(doc, true);
    assert TargetOf(d) == Some(doc);
    assert GoodDir(d);
  }
}
