/**
 Many processes on one store: the lock, crashes at any point, and the register
 they implement together.

 A process holding the lock works through the images of one operation after the
 other.  Between any two of them the process may die, which releases the lock and
 leaves the image, or the machine may crash, which keeps whatever directory the
 disk held.  The history variables record which values the register has had and
 which commit put each of them there.
 */
module CasRegister {
  import opened Options
  import opened Documents
  import opened AtomicIo
  import opened StoreProtocol
  import opened AtomicStore

  type Pid = nat

  datatype Link = Link(pid: Pid, op: Op)

  /** The operation under way, the images still to come, and how many values there were at its start. */
  datatype Work = Work(op: Op, rest: seq<Image>, verdict: Result<CommitReceipt, StoreError>, since: nat)

  /** A commit that returned its receipt, and the index of the value it left behind. */
  datatype Win = Win(link: Link, at: nat)

  datatype System = System(
    image: Image,
    lock: Option<Pid>,
    work: Option<Work>,
    chain: seq<Option<Bytes>>,
    links: seq<Link>,
    pending: Option<Link>,
    wins: seq<Win>)

  ghost predicate Acquires(s: System, s': System, pid: Pid) {
    s.lock.None? && s' == s.(lock := Some(pid))
  }

  ghost predicate Releases(s: System, s': System) {
    s.lock.Some? && s.work.None? && s' == s.(lock := None)
  }

  /** The holder starts an operation that will show exactly these images. */
  ghost predicate Begins(s: System, s': System, op: Op, rest: seq<Image>, r: Result<CommitReceipt, StoreError>) {
    && s.lock.Some? && s.work.None?
    && Episode([s.image] + rest, op, r)
    && s' == s.(work := Some(Work(op, rest, r, |s.chain|)))
  }

  ghost predicate Advances(s: System, s': System) {
    && s.lock.Some? && s.work.Some? && s.work.value.rest != []
    && var w := s.work.value;
       var next := w.rest[0];
       var moved := s.(image := next, work := Some(w.(rest := w.rest[1..])));
       if Abs(next) == Abs(s.image) then s' == moved
       else if Abs(next).pending.Some? then s' == moved.(pending := Some(Link(s.lock.value, w.op)))
       else s' == Confirmed(moved)
  }

  /** The pending value became certain. */
  ghost function Confirmed(s: System): System {
    match s.pending
    case None => s
    case Some(link) =>
      s.(pending := None, chain := s.chain + [Abs(s.image).value], links := s.links + [link])
  }

  ghost predicate Finishes(s: System, s': System) {
    && s.lock.Some? && s.work.Some? && s.work.value.rest == []
    && var w := s.work.value;
       var done := s.(work := None);
       s' == if w.op.Commit? && w.verdict.Ok? && s.chain != []
             then done.(wins := s.wins + [Win(Link(s.lock.value, w.op), |s.chain| - 1)])
             else done
  }

  /** The holder dies in the middle of its operation while the machine keeps running. */
  ghost predicate Dies(s: System, s': System) {
    s.lock.Some? && s' == s.(lock := None, work := None)
  }

  /** The machine stops: every process is gone, and one of the possible directories is what is left. */
  ghost predicate Crashes(s: System, s': System, d: Dir) {
    && Survives(s.image, d)
    && var lost := s.(image := Image(d, {d}), lock := None, work := None);
       s' == if s.pending.Some? && s.pending.value.op.Commit? && TargetOf(d) == Some(s.pending.value.op.bytes)
             then Confirmed(lost)
             else lost.(pending := None)
  }

  ghost predicate Step(s: System, s': System) {
    || (exists pid :: Acquires(s, s', pid))
    || Releases(s, s')
    || (exists op, rest, r :: Begins(s, s', op, rest, r))
    || Advances(s, s')
    || Finishes(s, s')
    || Dies(s, s')
    || (exists d :: Crashes(s, s', d))
  }

  /** Any directory a fresh process may find: a sound image that no crash can change. */
  ghost predicate Initial(s: System) {
    && Sound(s.image) && Agreed(s.image)
    && s == System(s.image, None, None, [TargetOf(s.image.view)], [], None, [])
  }

  /** The value that is certain now. */
  function Current(s: System): Option<Bytes> {
    if s.chain == [] then None else s.chain[|s.chain| - 1]
  }

  // ---- the invariant

  /** Each value of the register was put there by the commit that found the one before it. */
  ghost predicate Linked(chain: seq<Option<Bytes>>, links: seq<Link>) {
    && |chain| == |links| + 1
    && forall i | 0 <= i < |links| ::
         && links[i].op.Commit?
         && links[i].op.pre == chain[i]
         && Matches(links[i].op.expected, DigestOf(chain[i]))
         && chain[i + 1] == Some(links[i].op.bytes)
  }

  ghost predicate PendingFits(s: System) {
    match s.pending
    case None => Abs(s.image).pending.None?
    case Some(link) =>
      && link.op.Commit?
      && Abs(s.image) == Register(link.op.pre, Some(link.op.bytes))
      && Matches(link.op.expected, DigestOf(link.op.pre))
      && link.op.pre != Some(link.op.bytes)
  }

  /** How far the holder's commit has come. */
  ghost predicate Progress(s: System, pid: Pid, w: Work) {
    var mine := Link(pid, w.op);
    var reg := Abs(s.image);
    w.since <= |s.chain| &&
    (w.op.Commit? ==>
      || (reg.pending.Some? && reg.pending == w.op.pre)
      || reg == Register(w.op.pre, None)
      || (s.pending == Some(mine) && reg == Register(w.op.pre, Some(w.op.bytes)))
      || (&& reg == Register(Some(w.op.bytes), None) && w.op.pre != Some(w.op.bytes)
          && w.since < |s.chain| && s.links != [] && s.links[|s.links| - 1] == mine))
  }

  ghost predicate Effective(w: Win) {
    w.link.op.Commit? && w.link.op.pre != Some(w.link.op.bytes)
  }

  /** Receipts for real changes arrive in the order of the values, each for a value of its own. */
  ghost predicate WinsOrdered(s: System) {
    && (forall w <- s.wins :: w.at < if s.work.Some? then s.work.value.since else |s.chain|)
    && (forall i, j | 0 <= i < j < |s.wins| && Effective(s.wins[j]) :: s.wins[i].at < s.wins[j].at)
  }

  ghost predicate Working(s: System) {
    s.work.Some? ==>
      && s.lock.Some?
      && var w := s.work.value;
         var images := [s.image] + w.rest;
         && Run(images, 0, w.op)
         && Progress(s, s.lock.value, w)
         && (w.op.Commit? ==>
               && Truthful(images[|images| - 1], w.op.pre, w.op.bytes, w.verdict)
               && (w.verdict.Ok? ==> Matches(w.op.expected, DigestOf(w.op.pre))))
  }

  /** A receipt names a value the register really had, and the commit that put it there. */
  ghost predicate WinFits(s: System, w: Win) {
    && w.link.op.Commit?
    && w.at < |s.chain|
    && s.chain[w.at] == Some(w.link.op.bytes)
    && Matches(w.link.op.expected, DigestOf(w.link.op.pre))
    && (w.link.op.pre != Some(w.link.op.bytes) ==> 0 < w.at <= |s.links| && s.links[w.at - 1] == w.link)
  }

  ghost predicate Inv(s: System) {
    && Sound(s.image)
    && Linked(s.chain, s.links)
    && Abs(s.image).value == Current(s)
    && PendingFits(s)
    && Working(s)
    && (forall w <- s.wins :: WinFits(s, w))
    && WinsOrdered(s)
  }

  lemma PendingDiffers(img: Image)
    requires Sound(img) && Abs(img).pending.Some?
    ensures Abs(img).value != Abs(img).pending && Abs(img).pending == TargetOf(img.view)
  {
    var d :| d in img.held && TargetOf(d) != TargetOf(img.view);
    assert GoodDir(d) && GoodDir(img.view);
  }

  lemma WinsStay(s: System, s': System)
    requires forall w <- s.wins :: WinFits(s, w)
    requires s.chain <= s'.chain && s.links <= s'.links
    ensures forall w <- s.wins :: WinFits(s', w)
  {
  }

  lemma BeginKeeps(s: System, s': System, op: Op, rest: seq<Image>, r: Result<CommitReceipt, StoreError>)
    requires Inv(s) && Begins(s, s', op, rest, r)
    ensures Inv(s')
  {
    WinsStay(s, s');
    assert Progress(s', s'.lock.value, s'.work.value) by {
      if op.Commit? {
        assert ([s.image] + rest)[0] == s.image;
        if Abs(s.image).pending.Some? { PendingDiffers(s.image); }
      }
    }
  }

  /** What one more image must leave true of the register and of the holder's progress. */
  ghost predicate Consistent(s: System) {
    && Linked(s.chain, s.links)
    && Abs(s.image).value == Current(s)
    && PendingFits(s)
    && (s.work.Some? ==> s.lock.Some? && Progress(s, s.lock.value, s.work.value))
  }

  lemma QuietKeeps(s: System, s': System)
    requires Inv(s) && Advances(s, s') && Quiet(s.image, s'.image)
    ensures Consistent(s') && s.chain <= s'.chain && s.links <= s'.links && s.wins == s'.wins
  {
  }

  lemma ConfirmKeeps(s: System, s': System)
    requires Inv(s) && Advances(s, s') && Confirms(s.image, s'.image)
    ensures Consistent(s') && s.chain <= s'.chain && s.links <= s'.links && s.wins == s'.wins
  {
    PendingDiffers(s.image);
  }

  lemma PrepareKeeps(s: System, s': System)
    requires Inv(s) && Advances(s, s') && Sound(s'.image) && Prepares(s.image, s'.image, s.work.value.op)
    ensures Consistent(s') && s.chain <= s'.chain && s.links <= s'.links && s.wins == s'.wins
  {
    PendingDiffers(s'.image);
  }

  /** The image that comes next follows, and the rest of them still run. */
  lemma NextImage(s: System)
    requires Working(s) && s.work.Some? && s.work.value.rest != []
    ensures var w := s.work.value;
            && Next(s.image, w.rest[0], w.op) && Run([w.rest[0]] + w.rest[1..], 0, w.op)
            && ([w.rest[0]] + w.rest[1..])[|w.rest| - 1] == ([s.image] + w.rest)[|w.rest|]
  {
    var w := s.work.value;
    var images := [s.image] + w.rest;
    assert Next(images[0], images[0 + 1], w.op);
    assert images[1..] == [w.rest[0]] + w.rest[1..];
    RunFrom(images, w.op);
  }

  lemma AdvanceKeeps(s: System, s': System)
    requires Inv(s) && Advances(s, s')
    ensures Inv(s') && s.chain <= s'.chain
  {
    NextImage(s);
    if Quiet(s.image, s'.image) {
      QuietKeeps(s, s');
    } else if Confirms(s.image, s'.image) {
      ConfirmKeeps(s, s');
    } else {
      PrepareKeeps(s, s');
    }
    WinsStay(s, s');
  }

  lemma RunFrom(images: seq<Image>, op: Op)
    requires Run(images, 0, op) && |images| > 1
    ensures Run(images[1..], 0, op)
  {
    SoundAt(images, 0, op, 1);
    RunSuffix(images, 1, op);
  }

  lemma FinishKeeps(s: System, s': System)
    requires Inv(s) && Finishes(s, s')
    ensures Inv(s')
  {
    var w := s.work.value;
    assert [s.image] + w.rest == [s.image];
    if w.op.Commit? && w.verdict.Ok? {
      NoJournalAgrees(s.image);
      var win := Win(Link(s.lock.value, w.op), |s.chain| - 1);
      assert WinFits(s, win);
    }
    WinsStay(s, s');
  }

  lemma CrashStepKeeps(s: System, s': System, d: Dir)
    requires Inv(s) && Crashes(s, s', d)
    ensures Inv(s') && s.chain <= s'.chain
  {
    CrashKeeps(s.image, d);
    WinsStay(s, s');
  }

  lemma StepKeeps(s: System, s': System)
    requires Inv(s) && Step(s, s')
    ensures Inv(s') && s.chain <= s'.chain && s.links <= s'.links && s.wins <= s'.wins
  {
    if op, rest, r :| Begins(s, s', op, rest, r) {
      BeginKeeps(s, s', op, rest, r);
    } else if Advances(s, s') {
      AdvanceKeeps(s, s');
    } else if Finishes(s, s') {
      FinishKeeps(s, s');
    } else if d :| Crashes(s, s', d) {
      CrashStepKeeps(s, s', d);
    } else {
      WinsStay(s, s');
    }
  }

  // ---- what holds of every behaviour

  ghost predicate Behavior(states: seq<System>) {
    && |states| > 0
    && Initial(states[0])
    && forall i | 0 <= i < |states| - 1 :: Step(states[i], states[i + 1])
  }

  lemma {:induction false} Reaches(states: seq<System>, i: nat)
    requires Behavior(states) && i < |states|
    ensures Inv(states[i])
  {
    if i == 0 {
      NoPending(states[0].image);
    } else {
      Reaches(states, i - 1);
      assert Step(states[i - 1], states[i - 1 + 1]);
      StepKeeps(states[i - 1], states[i]);
    }
  }

  lemma NoPending(img: Image)
    requires Agreed(img)
    ensures Abs(img) == Register(TargetOf(img.view), None)
  {
  }

  /** Nothing of the history is ever taken back. */
  ghost predicate Grows(s: System, s': System) {
    s.chain <= s'.chain && s.links <= s'.links && s.wins <= s'.wins
  }

  lemma GrowsStep(states: seq<System>, i: nat)
    requires Behavior(states) && i + 1 < |states|
    ensures Grows(states[i], states[i + 1])
  {
    Reaches(states, i);
    StepKeeps(states[i], states[i + 1]);
  }

  ghost predicate GrowsThroughout(states: seq<System>) {
    forall k, l | 0 <= k < |states| && l == k + 1 < |states| :: Grows(states[k], states[l])
  }

  lemma {:induction false} GrowsBetween(states: seq<System>, i: nat, j: nat)
    requires GrowsThroughout(states) && i <= j < |states|
    ensures Grows(states[i], states[j])
    decreases j
  {
    if i < j {
      GrowsBetween(states, i, j - 1);
      assert Grows(states[j - 1], states[j]);
    }
  }

  lemma HistoryGrows(states: seq<System>, i: nat, j: nat)
    requires Behavior(states) && i <= j < |states|
    ensures Grows(states[i], states[j])
  {
    forall k, l | 0 <= k < |states| && l == k + 1 < |states| ensures Grows(states[k], states[l]) {
      GrowsStep(states, k);
    }
    GrowsBetween(states, i, j);
  }

  /**
   The store is an atomic register with compare-and-swap: its values form one
   chain in which every value was written by a commit whose expectation matched
   the value before it, and whoever looks sees the last value of the chain or
   the single write that may follow it.
  */
  lemma AtomicRegister(states: seq<System>, i: nat)
    requires Behavior(states) && i < |states|
    ensures Linked(states[i].chain, states[i].links)
    ensures var s := states[i];
            var last := Current(s);
            var seen := TargetOf(s.image.view);
            match s.pending
            case None => seen == last
            case Some(link) =>
              && link.op.Commit? && seen == Some(link.op.bytes)
              && link.op.pre == last && Matches(link.op.expected, DigestOf(last))
  {
    Reaches(states, i);
    var img := states[i].image;
    if Abs(img).pending.Some? { PendingDiffers(img); }
  }

  /** A crash at any point leaves the old or the new document, and recovery will find no conflict. */
  lemma CrashAtomicity(states: seq<System>, i: nat, d: Dir)
    requires Behavior(states) && i < |states| && Survives(states[i].image, d)
    ensures var s := states[i];
            var last := Current(s);
            || TargetOf(d) == last
            || (s.pending.Some? && s.pending.value.op.Commit? && TargetOf(d) == Some(s.pending.value.op.bytes)
                && s.pending.value.op.pre == last)
    ensures Sound(Image(d, {d})) && !PreviewOf(d).Clash?
  {
    Reaches(states, i);
    CrashKeeps(states[i].image, d);
    assert GoodDir(d);
  }

  /** A commit that reports a conflict or that it was not applied leaves nothing that could still take effect. */
  lemma RefusalIsVoid(states: seq<System>, i: nat)
    requires Behavior(states) && i < |states| && states[i].work.Some?
    requires var w := states[i].work.value;
             w.op.Commit? && w.rest == [] && w.verdict.Err? && (w.verdict.error.Conflict? || w.verdict.error.Unapplied?)
    ensures states[i].pending.None? && Current(states[i]) == states[i].work.value.op.pre
  {
    Reaches(states, i);
    var s := states[i];
    assert [s.image] + s.work.value.rest == [s.image];
    NoJournalAgrees(s.image);
  }

  /** A receipt is final: whatever happens later, crashes included, its value stays in the chain. */
  lemma ReceiptsAreFinal(states: seq<System>, i: nat, j: nat, w: Win)
    requires Behavior(states) && i <= j < |states| && w in states[i].wins
    ensures w in states[j].wins && WinFits(states[j], w) && w.at < |states[i].chain|
    ensures states[i].chain <= states[j].chain
  {
    Reaches(states, i);
    Reaches(states, j);
    HistoryGrows(states, i, j);
  }

  /**
   No lost update: if two commits that expected one digest both got a receipt for
   a change, then the expected document recurred in between.  The later one
   found it at a later place of the chain.
  */
  lemma NoLostUpdate(states: seq<System>, i: nat, m: nat, n: nat)
    requires Behavior(states) && i < |states| && m < n < |states[i].wins|
    requires Effective(states[i].wins[m]) && Effective(states[i].wins[n])
    requires states[i].wins[m].link.op.expected.Exact?
    requires states[i].wins[m].link.op.expected == states[i].wins[n].link.op.expected
    ensures var s := states[i];
            && 0 < s.wins[m].at < s.wins[n].at < |s.chain|
            && s.chain[s.wins[m].at - 1] == s.chain[s.wins[n].at - 1]
            && DigestOf(s.chain[s.wins[n].at - 1]) == s.wins[n].link.op.expected.digest
  {
    Reaches(states, i);
    var s := states[i];
    var a, b := s.wins[m], s.wins[n];
    assert a in s.wins && b in s.wins;
    assert s.links[a.at - 1] == a.link && s.links[b.at - 1] == b.link;
    assert DigestOf(s.chain[a.at - 1]) == DigestOf(s.chain[b.at - 1]);
    assert Undone(DigestOf(s.chain[a.at - 1])) == s.chain[a.at - 1];
    assert Undone(DigestOf(s.chain[b.at - 1])) == s.chain[b.at - 1];
  }
}
