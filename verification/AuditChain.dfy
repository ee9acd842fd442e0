/**
 What holds of the state document over whole runs of any number of processes:
 revision order, no recurrence, at most one winner for a revision, and a
 complete audit trail.

 `trail` gives the evidence each commit was built with.  A behaviour is
 accountable when every commit any process ever starts is audited, which is
 what `LockedStateTxn` ensures of its attempts.
*/
module AuditChain {
  import opened Options
  import opened StateModel
  import opened StateCodec
  import opened StateTxn
  import opened StateStore
  import opened Documents
  import opened AtomicIo
  import opened StoreProtocol
  import opened AtomicStore
  import opened CasRegister

  ghost predicate OpAudited(op: Op, trail: Op -> Audit, text: Text) {
    op.Commit? ==> Audited(op, trail(op), text)
  }

  ghost predicate WorkAudited(s: System, trail: Op -> Audit, text: Text) {
    s.work.Some? ==> OpAudited(s.work.value.op, trail, text)
  }

  ghost predicate Accountable(states: seq<System>, trail: Op -> Audit, text: Text) {
    Behavior(states) && forall s <- states :: WorkAudited(s, trail, text)
  }

  /**
   What a session does under its lock is what a process of the register may do:
   a recovery episode and then the episode of one audited commit.
  */
  lemma SessionsAreSteps(s: System, log: seq<Image>, at: nat, meanwhile: Image, attempt: Attempt, text: Text)
    requires Serves(log, at, meanwhile, attempt, text)
    requires s.lock.Some? && s.work.None?
    ensures s.image == meanwhile ==>
              var w := Work(Recovery, log[1..at + 1], attempt.verdict, |s.chain|);
              Begins(s, s.(work := Some(w)), Recovery, w.rest, w.verdict)
    ensures s.image == log[at] ==>
              var w := Work(attempt.op, log[at + 1..], attempt.verdict, |s.chain|);
              && Begins(s, s.(work := Some(w)), attempt.op, w.rest, attempt.verdict)
              && (forall trail: Op -> Audit | trail(attempt.op) == attempt.audit ::
                    WorkAudited(s.(work := Some(w)), trail, text))
  {
    assert [log[0]] + log[1..at + 1] == log[..at + 1];
    assert [log[at]] + log[at + 1..] == log[at..];
  }

  /** Everything that ever took or may still take effect is audited. */
  ghost predicate AllAudited(s: System, trail: Op -> Audit, text: Text) {
    && WorkAudited(s, trail, text)
    && (s.pending.Some? ==> OpAudited(s.pending.value.op, trail, text))
    && (forall l <- s.links :: OpAudited(l.op, trail, text))
    && (forall w <- s.wins :: OpAudited(w.link.op, trail, text))
  }

  lemma StepKeepsAudit(s: System, s': System, trail: Op -> Audit, text: Text)
    requires Step(s, s') && AllAudited(s, trail, text) && WorkAudited(s', trail, text)
    ensures AllAudited(s', trail, text)
  {
  }

  lemma {:induction false} AuditReaches(states: seq<System>, i: nat, trail: Op -> Audit, text: Text)
    requires Accountable(states, trail, text) && i < |states|
    ensures AllAudited(states[i], trail, text)
  {
    assert states[i] in states;
    if i > 0 {
      AuditReaches(states, i - 1, trail, text);
      assert Step(states[i - 1], states[i - 1 + 1]);
      StepKeepsAudit(states[i - 1], states[i], trail, text);
    }
  }

  lemma ChainLength(states: seq<System>, i: nat)
    requires Behavior(states) && i < |states|
    ensures |states[i].chain| == |states[i].links| + 1
  {
    Reaches(states, i);
  }

  /** Each value of the chain follows the one before it, with the audit of the commit between them. */
  lemma ChainFollows(states: seq<System>, i: nat, k: nat, trail: Op -> Audit, text: Text)
    requires Accountable(states, trail, text) && i < |states| && k < |states[i].links|
    ensures var s := states[i];
            k + 1 < |s.chain| && s.chain[k + 1].Some?
            && Follows(s.chain[k], s.chain[k + 1].value, trail(s.links[k].op), text)
  {
    Reaches(states, i);
    AuditReaches(states, i, trail, text);
    assert states[i].links[k] in states[i].links;
  }

  function NumberIn(doc: Option<Bytes>, text: Text): nat
    requires Parse(doc, text).Ok?
  {
    NumberOf(Parse(doc, text).value.revision)
  }

  predicate StartsReadable(s: System, text: Text) {
    s.chain != [] && Parse(s.chain[0], text).Ok?
  }

  /** Revision numbers rise by exactly one along the chain. */
  lemma {:induction false} RevisionsRise(states: seq<System>, i: nat, k: nat, trail: Op -> Audit, text: Text)
    requires Accountable(states, trail, text) && i < |states|
    requires StartsReadable(states[i], text)
    requires k < |states[i].chain|
    ensures var doc := states[i].chain[k];
            && Parse(doc, text).Ok?
            && NumberIn(doc, text) == NumberIn(states[i].chain[0], text) + k
            && (k > 0 ==> Parse(doc, text).value.revision.generation.Current?)
  {
    Reaches(states, i);
    if k > 0 {
      RevisionsRise(states, i, k - 1, trail, text);
      ChainFollows(states, i, k - 1, trail, text);
    }
  }

  lemma FirstIsReadable(states: seq<System>, i: nat, trail: Op -> Audit, text: Text)
    requires Accountable(states, trail, text) && i < |states| && states[i].links != []
    ensures StartsReadable(states[i], text)
  {
    ChainFollows(states, i, 0, trail, text);
  }

  /** No document, and so no digest, is ever live twice. */
  lemma NoRecurrence(states: seq<System>, i: nat, j: nat, k: nat, trail: Op -> Audit, text: Text)
    requires Accountable(states, trail, text) && i < |states|
    requires j < k < |states[i].chain|
    ensures states[i].chain[j] != states[i].chain[k]
    ensures DigestOf(states[i].chain[j]) != DigestOf(states[i].chain[k])
  {
    ChainLength(states, i);
    FirstIsReadable(states, i, trail, text);
    RevisionsRise(states, i, j, trail, text);
    RevisionsRise(states, i, k, trail, text);
  }

  /**
   Of all commits that expect one revision at most one takes effect, in whatever
   order processes lock, die, crash and recover, and whether or not the one that
   wins lives to see its receipt.
  */
  lemma OneEffectPerRevision(states: seq<System>, i: nat, a: nat, b: nat, trail: Op -> Audit, text: Text)
    requires Accountable(states, trail, text) && i < |states| && a < b < |states[i].links|
    ensures var first, second := states[i].links[a].op, states[i].links[b].op;
            first.Commit? && second.Commit? && first.expected.Exact? && first.expected != second.expected
  {
    Reaches(states, i);
    AuditReaches(states, i, trail, text);
    var s := states[i];
    assert s.links[a] in s.links && s.links[b] in s.links;
    NoRecurrence(states, i, a, b, trail, text);
  }

  /** The write that is visible but not yet certain follows the last certain document. */
  lemma PendingFollows(states: seq<System>, i: nat, trail: Op -> Audit, text: Text)
    requires Accountable(states, trail, text) && i < |states| && states[i].pending.Some?
    ensures var op := states[i].pending.value.op;
            && op.Commit? && op.expected == Exact(DigestOf(CasRegister.Current(states[i])))
            && TargetOf(states[i].image.view) == Some(op.bytes)
            && Follows(CasRegister.Current(states[i]), op.bytes, trail(op), text)
  {
    Reaches(states, i);
    AuditReaches(states, i, trail, text);
    AtomicRegister(states, i);
  }

  lemma CertainIsVisible(states: seq<System>, i: nat)
    requires Behavior(states) && i < |states| && states[i].pending.None?
    ensures TargetOf(states[i].image.view) == CasRegister.Current(states[i])
  {
    AtomicRegister(states, i);
  }

  lemma LaterDiffers(earlier: Option<Bytes>, pre: Option<Bytes>, bytes: Bytes, audit: Audit, text: Text)
    requires Parse(earlier, text).Ok? && Follows(pre, bytes, audit, text)
    requires NumberIn(earlier, text) <= NumberIn(pre, text)
    ensures DigestOf(Some(bytes)) != DigestOf(earlier)
  {
    assert NumberIn(Some(bytes), text) == NumberIn(pre, text) + 1;
  }

  lemma NumbersOrdered(states: seq<System>, i: nat, a: nat, k: nat, trail: Op -> Audit, text: Text)
    requires Accountable(states, trail, text) && i < |states| && a < k < |states[i].chain|
    ensures Parse(states[i].chain[a], text).Ok? && Parse(states[i].chain[k], text).Ok?
    ensures NumberIn(states[i].chain[a], text) <= NumberIn(states[i].chain[k], text)
  {
    ChainLength(states, i);
    FirstIsReadable(states, i, trail, text);
    RevisionsRise(states, i, a, trail, text);
    RevisionsRise(states, i, k, trail, text);
  }

  lemma VisibleDiffers(
    states: seq<System>, i: nat, earlier: Option<Bytes>, pre: Option<Bytes>, trail: Op -> Audit, text: Text)
    requires Accountable(states, trail, text) && i < |states| && states[i].pending.Some?
    requires CasRegister.Current(states[i]) == pre && Parse(earlier, text).Ok? && Parse(pre, text).Ok?
    requires NumberIn(earlier, text) <= NumberIn(pre, text)
    ensures DigestOf(TargetOf(states[i].image.view)) != DigestOf(earlier)
  {
    PendingFollows(states, i, trail, text);
    var op := states[i].pending.value.op;
    LaterDiffers(earlier, pre, op.bytes, trail(op), text);
  }

  lemma SupersededByPending(states: seq<System>, i: nat, a: nat, trail: Op -> Audit, text: Text)
    requires Accountable(states, trail, text) && i < |states| && a + 1 < |states[i].chain|
    requires states[i].pending.Some?
    ensures DigestOf(TargetOf(states[i].image.view)) != DigestOf(states[i].chain[a])
  {
    NumbersOrdered(states, i, a, |states[i].chain| - 1, trail, text);
    VisibleDiffers(states, i, states[i].chain[a], states[i].chain[|states[i].chain| - 1], trail, text);
  }

  /** No document that was superseded is ever visible again. */
  lemma SupersededIsGone(states: seq<System>, i: nat, a: nat, trail: Op -> Audit, text: Text)
    requires Accountable(states, trail, text) && i < |states| && a + 1 < |states[i].chain|
    ensures DigestOf(TargetOf(states[i].image.view)) != DigestOf(states[i].chain[a])
  {
    if states[i].pending.None? {
      CertainIsVisible(states, i);
      NoRecurrence(states, i, a, |states[i].chain| - 1, trail, text);
    } else {
      SupersededByPending(states, i, a, trail, text);
    }
  }

  lemma LinkExpects(states: seq<System>, i: nat, a: nat, trail: Op -> Audit, text: Text)
    requires Accountable(states, trail, text) && i < |states| && a < |states[i].links|
    ensures a < |states[i].chain| && states[i].links[a].op.Commit?
    ensures states[i].links[a].op.expected == Exact(DigestOf(states[i].chain[a]))
  {
    Reaches(states, i);
    AuditReaches(states, i, trail, text);
    assert states[i].links[a] in states[i].links;
  }

  lemma SupersededNotFound(states: seq<System>, j: nat, a: nat, held: Revision, trail: Op -> Audit, text: Text)
    requires Accountable(states, trail, text) && j < |states| && a + 1 < |states[j].chain|
    requires held.document == DigestOf(states[j].chain[a])
    ensures var found := Parse(TargetOf(states[j].image.view), text);
            found.Ok? ==> found.value.revision != held
  {
    var doc := TargetOf(states[j].image.view);
    SupersededIsGone(states, j, a, trail, text);
    if Parse(doc, text).Ok? { RevisionNamesDocument(doc, text); }
  }

  lemma SupersededNotPending(states: seq<System>, j: nat, a: nat, trail: Op -> Audit, text: Text)
    requires Accountable(states, trail, text) && j < |states| && a + 1 < |states[j].chain|
    ensures states[j].pending.Some? ==>
              && states[j].pending.value.op.Commit?
              && states[j].pending.value.op.expected != Exact(DigestOf(states[j].chain[a]))
  {
    if states[j].pending.Some? {
      PendingFollows(states, j, trail, text);
      NoRecurrence(states, j, a, |states[j].chain| - 1, trail, text);
    }
  }

  lemma SupersededNotLinked(states: seq<System>, j: nat, a: nat, b: nat, trail: Op -> Audit, text: Text)
    requires Accountable(states, trail, text) && j < |states| && a < b < |states[j].links|
    ensures a < |states[j].chain| && states[j].links[b].op.Commit?
    ensures states[j].links[b].op.expected != Exact(DigestOf(states[j].chain[a]))
  {
    LinkExpects(states, j, a, trail, text);
    OneEffectPerRevision(states, j, a, b, trail, text);
  }

  /**
   Everybody else who holds a revision loses once it is superseded: from then on
   no process finds it, so no transaction on it begins, and no commit that
   expects it takes effect or becomes visible.
  */
  lemma SupersededIsRefused(
    states: seq<System>, i: nat, j: nat, a: nat, held: Revision, trail: Op -> Audit, text: Text)
    requires Accountable(states, trail, text) && i <= j < |states| && a + 1 < |states[i].chain|
    requires held.document == DigestOf(states[i].chain[a])
    ensures var found := Parse(TargetOf(states[j].image.view), text);
            found.Ok? ==> found.value.revision != held
    ensures states[j].pending.Some? ==>
              && states[j].pending.value.op.Commit?
              && states[j].pending.value.op.expected != Exact(held.document)
    ensures forall b | a < b < |states[j].links| ::
              states[j].links[b].op.Commit? && states[j].links[b].op.expected != Exact(held.document)
  {
    HistoryGrows(states, i, j);
    assert states[j].chain[a] == states[i].chain[a];
    SupersededNotFound(states, j, a, held, trail, text);
    SupersededNotPending(states, j, a, trail, text);
    forall b | a < b < |states[j].links|
      ensures states[j].links[b].op.Commit? && states[j].links[b].op.expected != Exact(held.document)
    {
      SupersededNotLinked(states, j, a, b, trail, text);
    }
  }

  /** A commit of the state layer always changes the document. */
  lemma WinsAreEffective(states: seq<System>, i: nat, w: Win, trail: Op -> Audit, text: Text)
    requires Accountable(states, trail, text) && i < |states| && w in states[i].wins
    ensures Effective(w) && w.link.op.expected.Exact?
  {
    Reaches(states, i);
    AuditReaches(states, i, trail, text);
    assert WinFits(states[i], w);
    assert Follows(w.link.op.pre, w.link.op.bytes, trail(w.link.op), text);
  }

  /** And so at most one of them gets a receipt. */
  lemma OneWinnerPerRevision(states: seq<System>, i: nat, m: nat, n: nat, trail: Op -> Audit, text: Text)
    requires Accountable(states, trail, text) && i < |states| && m < n < |states[i].wins|
    ensures var a, b := states[i].wins[m].link.op, states[i].wins[n].link.op;
            a.Commit? && b.Commit? && a.expected != b.expected
  {
    var s := states[i];
    WinsAreEffective(states, i, s.wins[m], trail, text);
    WinsAreEffective(states, i, s.wins[n], trail, text);
    if s.wins[m].link.op.expected == s.wins[n].link.op.expected {
      NoLostUpdate(states, i, m, n);
      NoRecurrence(states, i, s.wins[m].at - 1, s.wins[n].at - 1, trail, text);
    }
  }

  // ---- the audit trail

  function Apply(refs: map<string, CredentialRef>, t: CredentialTransition): map<string, CredentialRef> {
    match t.after
    case None => refs - {t.accountId}
    case Some(r) => refs[t.accountId := r]
  }

  function ApplyAll(refs: map<string, CredentialRef>, ts: seq<CredentialTransition>): map<string, CredentialRef> {
    if ts == [] then refs else Apply(ApplyAll(refs, ts[..|ts| - 1]), ts[|ts| - 1])
  }

  function Audits(links: seq<Link>, trail: Op -> Audit): (audits: seq<Audit>)
    ensures |audits| == |links|
  {
    seq(|links|, i requires 0 <= i < |links| => trail(links[i].op))
  }

  /** Fold recorded reference changes, oldest first. */
  function ReplayRefs(refs: map<string, CredentialRef>, audits: seq<Audit>): map<string, CredentialRef> {
    if audits == [] then refs
    else ApplyAll(ReplayRefs(refs, audits[..|audits| - 1]), audits[|audits| - 1].transitions)
  }

  function ReplayProfile(profile: Option<ActiveProfile>, audits: seq<Audit>): Option<ActiveProfile> {
    if audits == [] then profile
    else
      match audits[|audits| - 1].active
      case None => ReplayProfile(profile, audits[..|audits| - 1])
      case Some(t) => t.after
  }

  lemma ApplyAt(refs: map<string, CredentialRef>, t: CredentialTransition, id: string)
    ensures Lookup(Apply(refs, t), id) == if t.accountId == id then t.after else Lookup(refs, id)
  {
  }

  /** Transitions of distinct accounts each decide their own account. */
  lemma {:induction false} ApplyAllAt(refs: map<string, CredentialRef>, ts: seq<CredentialTransition>, id: string)
    requires forall i, j | 0 <= i < j < |ts| :: ts[i].accountId != ts[j].accountId
    ensures (forall t <- ts :: t.accountId != id) ==> Lookup(ApplyAll(refs, ts), id) == Lookup(refs, id)
    ensures forall t <- ts | t.accountId == id :: Lookup(ApplyAll(refs, ts), id) == t.after
  {
    if ts != [] {
      var n := |ts| - 1;
      ApplyAllAt(refs, ts[..n], id);
      ApplyAt(ApplyAll(refs, ts[..n]), ts[n], id);
      assert ts == ts[..n] + [ts[n]];
    }
  }

  lemma SameLookups(m: map<string, CredentialRef>, m': map<string, CredentialRef>)
    requires forall id :: Lookup(m, id) == Lookup(m', id)
    ensures m == m'
  {
    forall id ensures id in m <==> id in m' {
      assert Lookup(m, id) == Lookup(m', id);
    }
    forall id | id in m ensures m[id] == m'[id] {
      assert Lookup(m, id) == Lookup(m', id);
    }
  }

  /** An explanation is a recipe: applying it to the old references gives the new ones. */
  lemma ExplanationReplays(
    before: map<string, CredentialRef>, after: map<string, CredentialRef>, ts: seq<CredentialTransition>)
    requires Explains(before, after, ts)
    ensures ApplyAll(before, ts) == after
  {
    forall id ensures Lookup(ApplyAll(before, ts), id) == Lookup(after, id) {
      ApplyAllAt(before, ts, id);
      if t :| t in ts && t.accountId == id {
      } else {
        assert Lookup(before, id) == Lookup(after, id);
      }
    }
    SameLookups(ApplyAll(before, ts), after);
  }

  /**
   The audit trail is complete: replaying the evidence of the commits that took
   effect over the first document gives the references and the profile of every
   later one, whatever else the processes did or failed to do.
  */
  lemma {:induction false} TrailIsComplete(states: seq<System>, i: nat, k: nat, trail: Op -> Audit, text: Text)
    requires Accountable(states, trail, text) && i < |states|
    requires StartsReadable(states[i], text) && k < |states[i].chain|
    ensures k <= |states[i].links| && Parse(states[i].chain[k], text).Ok?
    ensures var first := Parse(states[i].chain[0], text).value.state;
            var here := Parse(states[i].chain[k], text).value.state;
            var audits := Audits(states[i].links[..k], trail);
            && here.credentialRefs == ReplayRefs(first.credentialRefs, audits)
            && here.activeProfile == ReplayProfile(first.activeProfile, audits)
  {
    Reaches(states, i);
    RevisionsRise(states, i, k, trail, text);
    if k > 0 {
      var s := states[i];
      TrailIsComplete(states, i, k - 1, trail, text);
      ChainFollows(states, i, k - 1, trail, text);
      var audits := Audits(s.links[..k], trail);
      assert audits[..k - 1] == Audits(s.links[..k - 1], trail);
      assert audits[k - 1] == trail(s.links[k - 1].op);
      var before := Parse(s.chain[k - 1], text).value.state;
      var after := Parse(s.chain[k], text).value.state;
      ExplanationReplays(before.credentialRefs, after.credentialRefs, audits[k - 1].transitions);
    }
  }

  /** Two readable documents with the same references and the same profile. */
  ghost predicate SameHoldings(a: Option<Bytes>, b: Option<Bytes>, text: Text) {
    && Parse(a, text).Ok? && Parse(b, text).Ok?
    && Parse(a, text).value.state.credentialRefs == Parse(b, text).value.state.credentialRefs
    && Parse(a, text).value.state.activeProfile == Parse(b, text).value.state.activeProfile
  }

  lemma OrdinaryStep(pre: Option<Bytes>, bytes: Bytes, text: Text)
    requires Follows(pre, bytes, Audit([], None), text)
    ensures SameHoldings(pre, Some(bytes), text)
  {
    ExplanationReplays(
      Parse(pre, text).value.state.credentialRefs, Parse(Some(bytes), text).value.state.credentialRefs, []);
  }

  /** So between two documents joined by ordinary commits only, neither references nor profile differ. */
  lemma {:induction false} OrdinaryCommitsChangeNeither(
    states: seq<System>, i: nat, j: nat, k: nat, trail: Op -> Audit, text: Text)
    requires Accountable(states, trail, text) && i < |states|
    requires StartsReadable(states[i], text) && j <= k <= |states[i].links|
    requires forall n | j <= n < k :: trail(states[i].links[n].op) == Audit([], None)
    ensures k < |states[i].chain| && SameHoldings(states[i].chain[j], states[i].chain[k], text)
  {
    if j == k {
      ChainLength(states, i);
      RevisionsRise(states, i, k, trail, text);
    } else {
      OrdinaryCommitsChangeNeither(states, i, j, k - 1, trail, text);
      ChainFollows(states, i, k - 1, trail, text);
      OrdinaryStep(states[i].chain[k - 1], states[i].chain[k].value, text);
    }
  }
}
