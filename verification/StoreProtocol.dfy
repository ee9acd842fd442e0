/**
 The invariant of the journaled store and the steps it may take.

 A store image stands for an atomic register that may carry one write that is
 visible but not yet certain to survive a crash.  `Next` lists the only ways a
 commit or a recovery may change that register.
 */
module StoreProtocol {
  import opened Options
  import opened Documents
  import opened AtomicIo

  function TargetOf(d: Dir): Option<Bytes> {
    if Target in d && d[Target].File? then Some(d[Target].bytes) else None
  }

  function JournalOf(d: Dir): Option<Journal> {
    if FixedJournal in d && d[FixedJournal].File? && d[FixedJournal].bytes.Record?
    then Some(d[FixedJournal].bytes.journal)
    else None
  }

  /** The journal, if any, is whole and explains the live document. */
  ghost predicate GoodDir(d: Dir) {
    && (Target in d ==> d[Target].File? && d[Target].flushed)
    && (FixedJournal in d ==>
          && d[FixedJournal].File? && d[FixedJournal].flushed && d[FixedJournal].bytes.Record?
          && var j := d[FixedJournal].bytes.journal;
             DigestOf(TargetOf(d)) == Some(j.goal) || DigestOf(TargetOf(d)) == j.base)
  }

  /** Two directories that recovery would treat alike. */
  ghost predicate SameCore(d: Dir, d': Dir) {
    && (Target in d <==> Target in d')
    && (Target in d ==> d[Target] == d'[Target])
    && (FixedJournal in d <==> FixedJournal in d')
    && (FixedJournal in d ==> d[FixedJournal] == d'[FixedJournal])
  }

  ghost predicate Elsewhere(d: Dir, d': Dir, names: set<Name>) {
    forall n | n !in names :: (n in d <==> n in d') && (n in d ==> d[n] == d'[n])
  }

  /** A crash cannot undo the live document. */
  ghost predicate Agreed(img: Image) {
    forall d <- img.held :: TargetOf(d) == TargetOf(img.view)
  }

  /** Where a crash could undo the live document, the journal is durable and names both values. */
  ghost predicate Sound(img: Image) {
    && img.view in img.held
    && (forall d <- img.held :: GoodDir(d))
    && (forall d <- img.held ::
          || TargetOf(d) == TargetOf(img.view)
          || (&& JournalOf(d) == JournalOf(img.view) && JournalOf(d).Some?
              && DigestOf(TargetOf(img.view)) == Some(JournalOf(d).value.goal)))
  }

  /** The register: the value every crash keeps, and a visible value a crash may still undo. */
  datatype Register = Register(value: Option<Bytes>, pending: Option<Bytes>)

  function Undone(base: Option<Digest>): Option<Bytes> {
    match base
    case None => None
    case Some(digest) => Some(digest.preimage)
  }

  ghost function Abs(img: Image): Register {
    if Agreed(img) || JournalOf(img.view).None? then
      Register(TargetOf(img.view), None)
    else
      Register(Undone(JournalOf(img.view).value.base), TargetOf(img.view))
  }

  /** No journal is left and the document is the given one on every crash image. */
  ghost predicate Settled(img: Image, value: Option<Bytes>) {
    Sound(img) && FixedJournal !in img.view && TargetOf(img.view) == value
  }

  /** The compare part of a commit; `Exact(None)` expects that there is no document. */
  datatype ExpectedDigest = Any | Exact(digest: Option<Digest>)

  predicate Matches(expected: ExpectedDigest, actual: Option<Digest>) {
    match expected
    case Any => true
    case Exact(digest) => digest == actual
  }

  /** What one locked operation is allowed to write over the document it found; a recovery writes nothing. */
  datatype Op = Recovery | Commit(expected: ExpectedDigest, pre: Option<Bytes>, bytes: Bytes, txid: Txid)

  ghost function JournalFor(op: Op): Journal
    requires op.Commit?
  {
    Journal(DigestOf(op.pre), Sha256(op.bytes), op.txid)
  }

  ghost predicate Quiet(a: Image, b: Image) {
    Abs(a) == Abs(b) && TargetOf(a.view) == TargetOf(b.view)
  }

  ghost predicate Confirms(a: Image, b: Image) {
    Abs(a).pending.Some? && Abs(b) == Register(Abs(a).pending, None)
    && TargetOf(a.view) == TargetOf(b.view)
  }

  /** Write-ahead: the new value becomes visible only over a durable journal and stage naming it. */
  ghost predicate Prepares(a: Image, b: Image, op: Op) {
    && op.Commit?
    && Matches(op.expected, DigestOf(op.pre))
    && Abs(a) == Register(op.pre, None)
    && Abs(b) == Register(op.pre, Some(op.bytes))
    && forall d <- a.held :: Armed(d, op)
  }

  ghost predicate Armed(d: Dir, op: Op) {
    && op.Commit?
    && JournalOf(d) == Some(JournalFor(op))
    && DocStage(op.txid) in d && d[DocStage(op.txid)] == File(op.bytes, true)
  }

  /** A journal goes only after the stage it names, so that no stage is orphaned by a crash. */
  ghost predicate Tidy(a: Image, b: Image) {
    FixedJournal in a.view && FixedJournal !in b.view && JournalOf(a.view).Some? ==>
      DocStage(JournalOf(a.view).value.staged) !in b.view
  }

  ghost predicate Next(a: Image, b: Image, op: Op) {
    && Sound(a) && Sound(b) && Tidy(a, b)
    && (Quiet(a, b) || Confirms(a, b) || Prepares(a, b, op))
  }

  /** Every image of a log from one index on follows from the one before it. */
  ghost predicate Run(log: seq<Image>, from: nat, op: Op) {
    && from < |log|
    && Sound(log[from])
    && forall i | from <= i < |log| - 1 :: Next(log[i], log[i + 1], op)
  }

  lemma RunStep(log: seq<Image>, from: nat, op: Op, x: Image)
    requires Run(log, from, op)
    requires Next(log[|log| - 1], x, op)
    ensures Run(log + [x], from, op)
  {
    var longer := log + [x];
    forall i | from <= i < |longer| - 1 ensures Next(longer[i], longer[i + 1], op) {
      if i == |log| - 1 { assert longer[i + 1] == x; }
    }
  }

  lemma RunSuffix(log: seq<Image>, from: nat, op: Op)
    requires Run(log, from, op)
    ensures Run(log[from..], 0, op)
  {
    var tail := log[from..];
    forall i | 0 <= i < |tail| - 1 ensures Next(tail[i], tail[i + 1], op) {
      assert tail[i] == log[from + i] && tail[i + 1] == log[from + i + 1];
      assert Next(log[from + i], log[from + i + 1], op);
    }
  }

  lemma SoundAt(log: seq<Image>, from: nat, op: Op, i: nat)
    requires Run(log, from, op) && from <= i < |log|
    ensures Sound(log[i])
  {
    if i > from { assert Next(log[i - 1], log[i - 1 + 1], op); }
  }

  // ---- the individual steps

  lemma SameAbs(a: Image, b: Image)
    requires Sound(a) && Sound(b)
    requires SameCore(a.view, b.view)
    requires Agreed(a) <==> Agreed(b)
    ensures Quiet(a, b)
  {
  }

  /** Stages, locks and foreign entries come and go without touching the register. */
  lemma TouchStep(a: Image, d: Dir, op: Op)
    requires Sound(a) && SameCore(a.view, d)
    ensures Next(a, After(a, d), op)
  {
    var b := After(a, d);
    assert GoodDir(d) by { assert GoodDir(a.view); }
    assert Sound(b);
    SameAbs(a, b);
  }

  lemma TouchRun(log: seq<Image>, from: nat, op: Op, d: Dir)
    requires Run(log, from, op) && SameCore(log[|log| - 1].view, d)
    ensures Run(log + [After(log[|log| - 1], d)], from, op)
    ensures Agreed(log[|log| - 1]) ==> Agreed(After(log[|log| - 1], d))
  {
    SoundAt(log, from, op, |log| - 1);
    TouchStep(log[|log| - 1], d, op);
    RunStep(log, from, op, After(log[|log| - 1], d));
  }

  /** A directory sync makes the visible document certain. */
  lemma SyncStep(a: Image, op: Op)
    requires Sound(a)
    ensures Next(a, Synced(a), op) && Agreed(Synced(a)) && Abs(Synced(a)) == Register(TargetOf(a.view), None)
  {
    var b := Synced(a);
    assert Sound(b);
    if !Agreed(a) {
      var d :| d in a.held && TargetOf(d) != TargetOf(a.view);
      assert TargetOf(a.view).Some?;
    }
  }

  /** Once no crash can undo the document the journal may go. */
  lemma DropJournalStep(a: Image, op: Op)
    requires Sound(a) && Agreed(a)
    requires JournalOf(a.view).Some? ==> DocStage(JournalOf(a.view).value.staged) !in a.view
    ensures Next(a, After(a, a.view - {FixedJournal}), op)
    ensures Agreed(After(a, a.view - {FixedJournal}))
  {
    var d := a.view - {FixedJournal};
    assert TargetOf(d) == TargetOf(a.view);
    assert GoodDir(d) by { assert GoodDir(a.view); }
    assert Sound(After(a, d));
  }

  lemma NoJournalAgrees(a: Image)
    requires Sound(a) && JournalOf(a.view).None?
    ensures Agreed(a) && Abs(a) == Register(TargetOf(a.view), None)
  {
  }

  /** Publishing a journal for the document that is live. */
  lemma PublishStep(a: Image, d: Dir, op: Op)
    requires Sound(a) && JournalOf(a.view).None? && op.Commit?
    requires TargetOf(a.view) == op.pre
    requires Target in a.view <==> Target in d
    requires Target in a.view ==> a.view[Target] == d[Target]
    requires FixedJournal in d && d[FixedJournal] == File(Record(JournalFor(op)), true)
    ensures Next(a, After(a, d), op) && Agreed(After(a, d))
  {
    assert GoodDir(d) by { assert GoodDir(a.view); }
    assert Sound(After(a, d));
  }

  /** Renaming the stage over the document under a durable journal. */
  lemma ReplaceStep(a: Image, d: Dir, op: Op)
    requires Sound(a) && op.Commit? && Agreed(a)
    requires TargetOf(a.view) == op.pre && Matches(op.expected, DigestOf(op.pre))
    requires forall e <- a.held :: Armed(e, op)
    requires Target in d && d[Target] == File(op.bytes, true)
    requires FixedJournal in a.view && FixedJournal in d && d[FixedJournal] == a.view[FixedJournal]
    ensures Next(a, After(a, d), op)
    ensures JournalOf(d) == Some(JournalFor(op)) && TargetOf(d) == Some(op.bytes)
  {
    var b := After(a, d);
    assert GoodDir(d) by { assert GoodDir(a.view); }
    assert forall e <- a.held :: TargetOf(e) == op.pre;
    assert Sound(b);
    if op.pre == Some(op.bytes) {
      assert Agreed(b);
    } else {
      assert a.view in b.held && TargetOf(a.view) != TargetOf(d);
      assert Undone(DigestOf(op.pre)) == op.pre;
    }
  }

  /** Whatever a crash brings back is a sound image again, holding one of the two values. */
  lemma CrashKeeps(img: Image, d': Dir)
    requires Sound(img) && Survives(img, d')
    ensures Sound(Image(d', {d'}))
    ensures Abs(Image(d', {d'})) == Register(TargetOf(d'), None)
    ensures TargetOf(d') == Abs(img).value || (Abs(img).pending.Some? && TargetOf(d') == Abs(img).pending)
  {
    var d :| d in img.held && Torn(d, d');
    assert GoodDir(d);
    assert TargetOf(d') == TargetOf(d) by { if Target in d { assert Target in d'; } }
    assert JournalOf(d') == JournalOf(d) by { if FixedJournal in d { assert FixedJournal in d'; } }
    assert GoodDir(d') by {
      if Target in d { assert Target in d'; }
      if FixedJournal in d { assert FixedJournal in d'; }
    }
    var b := Image(d', {d'});
    assert Agreed(b);
    if TargetOf(d) != TargetOf(img.view) {
      assert !Agreed(img);
      assert DigestOf(TargetOf(d)) == JournalOf(d).value.base;
    }
  }
}
