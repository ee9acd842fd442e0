/** Transactions on the state document while its lock is held: `LockedStateTxn` of src/core/state_store.rs. */
module StateTxn {
  import opened Options
  import opened StateModel
  import opened StateCodec
  import opened Documents
  import opened AtomicIo
  import opened StoreProtocol
  import opened AtomicStore
  import opened Adoption

  const U64_MAX: nat := 0xFFFF_FFFF_FFFF_FFFF

  datatype StateStoreError =
    | MigrationRequired
    | RevisionConflict(expected: Revision, actual: Revision)
    | Atomic(error: StoreError)
    | Invalid

  /** Evidence that a credential journal was written for one account. */
  datatype CredentialProof = CredentialProof(
    accountId: string, txid: nat, base: Revision, before: Option<CredentialRef>, after: Option<CredentialRef>)

  /** Evidence that the active home was switched from one profile to another. */
  datatype ActiveHomeProof = ActiveHomeProof(
    accountId: string, txid: nat, base: Revision,
    before: Option<ActiveProfile>, after: Option<ActiveProfile>, targetRef: Option<CredentialRef>)

  datatype CredentialTransition = CredentialTransition(
    accountId: string, txid: nat, base: Revision, committed: Option<Revision>,
    before: Option<CredentialRef>, after: Option<CredentialRef>)

  datatype ActiveTransition = ActiveTransition(
    accountId: string, txid: nat, base: Revision, committed: Option<Revision>,
    before: Option<ActiveProfile>, after: Option<ActiveProfile>, targetRef: Option<CredentialRef>)

  datatype Receipt = Receipt(
    revision: Revision, transitions: seq<CredentialTransition>, active: Option<ActiveTransition>)

  datatype MigrationPermit = MigrationPermit(expected: Revision, proofs: seq<CredentialProof>)

  /**
   What the platform decides: text sizes, whether a proof's journal is really on
   disk, and which root directories a reader and an adoption accept.
  */
  datatype Platform = Platform(
    text: Text,
    credentialDurable: CredentialProof -> bool,
    homeDurable: ActiveHomeProof -> bool,
    listable: Dir -> bool,
    acceptsRoot: Preflight -> bool)

  // ---- what a commit must account for

  datatype Audit = Audit(transitions: seq<CredentialTransition>, active: Option<ActiveTransition>)

  /** The transitions name, once each, every account whose reference differs, with both values. */
  ghost predicate Explains(
    before: map<string, CredentialRef>, after: map<string, CredentialRef>, ts: seq<CredentialTransition>)
  {
    && (forall i, j | 0 <= i < j < |ts| :: ts[i].accountId != ts[j].accountId)
    && (forall t <- ts :: Lookup(before, t.accountId) == t.before && Lookup(after, t.accountId) == t.after)
    && (forall id | Lookup(before, id) != Lookup(after, id) :: exists t <- ts :: t.accountId == id)
  }

  ghost predicate ExplainsProfile(
    before: Option<ActiveProfile>, after: Option<ActiveProfile>, active: Option<ActiveTransition>)
  {
    match active
    case None => before == after
    case Some(t) => t.before == before && t.after == after
  }

  function NumberOf(r: Revision): nat {
    match r.generation
    case Current(n) => n
    case _ => 0
  }

  /** A document that follows another: one revision later, with every change accounted for. */
  ghost predicate Follows(pre: Option<Bytes>, bytes: Bytes, audit: Audit, text: Text) {
    && Parse(pre, text).Ok? && Parse(Some(bytes), text).Ok?
    && var before, after := Parse(pre, text).value, Parse(Some(bytes), text).value;
       && after.revision.generation == Current(NumberOf(before.revision) + 1)
       && Explains(before.state.credentialRefs, after.state.credentialRefs, audit.transitions)
       && ExplainsProfile(before.state.activeProfile, after.state.activeProfile, audit.active)
  }

  /** What is handed to the store, and why: justified whenever the expectation holds. */
  ghost predicate Audited(op: Op, audit: Audit, text: Text) {
    && op.Commit? && op.expected.Exact?
    && (op.expected.digest == DigestOf(op.pre) ==> Follows(op.pre, op.bytes, audit, text))
  }

  datatype Attempt = Attempt(op: Op, audit: Audit, verdict: Result<CommitReceipt, StoreError>)

  /** A revision that some readable document really has. */
  ghost predicate Genuine(r: Revision, text: Text) {
    Parse(Undone(r.document), text).Ok? && Parse(Undone(r.document), text).value.revision == r
  }

  predicate ProofFits(before: State, candidate: State, revision: Revision, p: CredentialProof, platform: Platform) {
    && p.base == revision
    && platform.credentialDurable(p)
    && Lookup(before.credentialRefs, p.accountId) == p.before
    && Lookup(candidate.credentialRefs, p.accountId) == p.after
  }

  /** The exact condition under which a set of proofs justifies a candidate. */
  ghost predicate ProofsCover(
    before: State, candidate: State, revision: Revision, ps: seq<CredentialProof>, platform: Platform)
  {
    && (forall p <- ps :: ProofFits(before, candidate, revision, p, platform))
    && Unrepeated(ps)
    && (forall id | Lookup(before.credentialRefs, id) != Lookup(candidate.credentialRefs, id) ::
          exists p <- ps :: p.accountId == id)
  }

  ghost predicate HomeProofFits(
    before: State, candidate: State, revision: Revision, p: ActiveHomeProof, platform: Platform)
  {
    && p.base == revision
    && p.before == before.activeProfile
    && p.after == candidate.activeProfile
    && p.targetRef == (if p.accountId in candidate.credentialRefs then Some(candidate.credentialRefs[p.accountId])
                       else Lookup(before.credentialRefs, p.accountId))
    && platform.homeDurable(p)
  }

  /**
   The reference a home switch is made for is the one that counts after the
   commit: that of the new active profile, and where a credential proof goes with
   the switch the new reference of that proof, or the old one if it has no new one.
  */
  ghost predicate TargetIsCurrent(candidate: State, ps: seq<CredentialProof>, home: ActiveHomeProof) {
    && (candidate.activeProfile.Some? && candidate.activeProfile.value.accountId == home.accountId ==>
          && home.targetRef.Some?
          && home.targetRef.value.fingerprint == candidate.activeProfile.value.credentialFingerprint)
    && (forall p <- ps | p.accountId == home.accountId ::
          home.targetRef == if p.after.Some? then p.after else p.before)
  }

  lemma TargetFollowsCredentials(
    before: State, candidate: State, number: nat, revision: Revision, ps: seq<CredentialProof>, home: ActiveHomeProof,
    platform: Platform)
    requires StateInvariants(Numbered(candidate, number))
    requires ProofsCover(before, candidate, revision, ps, platform)
    requires HomeProofFits(before, candidate, revision, home, platform)
    ensures TargetIsCurrent(candidate, ps, home)
  {
    var next := Numbered(candidate, number);
    if candidate.activeProfile.Some? {
      assert ValidActiveProfile(next, next.activeProfile.value);
    }
    forall p | p in ps && p.accountId == home.accountId
      ensures home.targetRef == if p.after.Some? then p.after else p.before
    {
      assert ProofFits(before, candidate, revision, p, platform);
    }
  }

  /** The evidence holds of the document that is live, and covers all that the candidate changes in it. */
  ghost predicate Backed(
    pre: Option<Bytes>, candidate: State, revision: Revision, ps: seq<CredentialProof>, home: Option<ActiveHomeProof>,
    platform: Platform)
  {
    && Parse(pre, platform.text).Ok?
    && var before := Parse(pre, platform.text).value.state;
       && ProofsCover(before, candidate, revision, ps, platform)
       && (home.Some? ==> HomeProofFits(before, candidate, revision, home.value, platform))
  }

  /** The live document can be parsed and has the active profile of the candidate. */
  ghost predicate ProfileKept(pre: Option<Bytes>, candidate: State, text: Text) {
    Parse(pre, text).Ok? && Parse(pre, text).value.state.activeProfile == candidate.activeProfile
  }

  ghost predicate RefsKept(pre: Option<Bytes>, candidate: State, text: Text) {
    Parse(pre, text).Ok? && Parse(pre, text).value.state.credentialRefs == candidate.credentialRefs
  }

  /** What needs no transition to be explained has not changed. */
  lemma NothingToExplain(before: map<string, CredentialRef>, after: map<string, CredentialRef>)
    requires Explains(before, after, [])
    ensures before == after
  {
    forall id ensures id in before <==> id in after {
      assert Lookup(before, id) == Lookup(after, id);
    }
    forall id | id in before ensures before[id] == after[id] {
      assert Lookup(before, id) == Lookup(after, id);
    }
  }

  /** What backs an attempt: every proof and the home switch were made for this revision and are durable on the disk. */
  lemma EvidenceIsCurrent(
    pre: Option<Bytes>, candidate: State, revision: Revision, ps: seq<CredentialProof>, home: Option<ActiveHomeProof>,
    platform: Platform)
    requires Backed(pre, candidate, revision, ps, home, platform)
    ensures forall p <- ps :: p.base == revision && platform.credentialDurable(p)
    ensures forall i, j | 0 <= i < j < |ps| :: ps[i].accountId != ps[j].accountId && ps[i].txid != ps[j].txid
    ensures home.Some? ==> home.value.base == revision && platform.homeDurable(home.value)
    ensures home.Some? ==> home.value.after == candidate.activeProfile
    ensures home.Some? ==> home.value.before == Parse(pre, platform.text).value.state.activeProfile
    // Each proof names the reference before and after, and no change of a reference is without one.
    ensures var before := Parse(pre, platform.text).value.state.credentialRefs;
            && (forall p <- ps ::
                  Lookup(before, p.accountId) == p.before && Lookup(candidate.credentialRefs, p.accountId) == p.after)
            && (forall id | id in before.Keys + candidate.credentialRefs.Keys
                            && (forall p <- ps :: p.accountId != id) ::
                  id in before && id in candidate.credentialRefs && before[id] == candidate.credentialRefs[id])
  {
    var before := Parse(pre, platform.text).value.state;
    assert ProofsCover(before, candidate, revision, ps, platform);
    forall p | p in ps
      ensures p.base == revision && platform.credentialDurable(p)
      ensures Lookup(before.credentialRefs, p.accountId) == p.before
      ensures Lookup(candidate.credentialRefs, p.accountId) == p.after
    {
      assert ProofFits(before, candidate, revision, p, platform);
    }
    forall id | id in before.credentialRefs.Keys + candidate.credentialRefs.Keys
                && (forall p <- ps :: p.accountId != id)
      ensures id in before.credentialRefs && id in candidate.credentialRefs
      ensures before.credentialRefs[id] == candidate.credentialRefs[id]
    {
      assert Lookup(before.credentialRefs, id) == Lookup(candidate.credentialRefs, id);
    }
  }

  /** So what `CommitCoordinated` promises of an attempt includes that its home switch is for the current reference. */
  lemma HomeIsCurrent(
    pre: Option<Bytes>, candidate: State, revision: Revision, ps: seq<CredentialProof>, home: Option<ActiveHomeProof>,
    platform: Platform)
    requires Backed(pre, candidate, revision, ps, home, platform)
    requires EncodeV2(Numbered(candidate, NumberOf(revision) + 1), platform.text).Ok?
    ensures home.Some? ==> TargetIsCurrent(candidate, ps, home.value)
  {
    if home.Some? {
      var before := Parse(pre, platform.text).value.state;
      TargetFollowsCredentials(before, candidate, NumberOf(revision) + 1, revision, ps, home.value, platform);
    }
  }

  function Pending(p: CredentialProof): CredentialTransition {
    CredentialTransition(p.accountId, p.txid, p.base, None, p.before, p.after)
  }

  /** The transitions once the committed revision is known. */
  function Stamped(ts: seq<CredentialTransition>, r: Revision): (out: seq<CredentialTransition>)
    ensures |out| == |ts|
    ensures forall i | 0 <= i < |ts| :: out[i] == ts[i].(committed := Some(r))
  {
    seq(|ts|, i requires 0 <= i < |ts| => ts[i].(committed := Some(r)))
  }

  lemma StampedExplains(
    before: map<string, CredentialRef>, after: map<string, CredentialRef>, ts: seq<CredentialTransition>, r: Revision)
    requires Explains(before, after, ts)
    ensures Explains(before, after, Stamped(ts, r))
  {
    var out := Stamped(ts, r);
    forall id | Lookup(before, id) != Lookup(after, id) ensures exists t <- out :: t.accountId == id {
      var t :| t in ts && t.accountId == id;
      var i :| 0 <= i < |ts| && ts[i] == t;
      assert out[i] in out;
    }
  }

  function ChangedIds(before: State, candidate: State): (ids: set<string>)
    ensures forall id :: id in ids <==> Lookup(before.credentialRefs, id) != Lookup(candidate.credentialRefs, id)
  {
    set id | id in before.credentialRefs.Keys + candidate.credentialRefs.Keys
             && Lookup(before.credentialRefs, id) != Lookup(candidate.credentialRefs, id)
  }

  predicate Unrepeated(ps: seq<CredentialProof>) {
    forall i, j | 0 <= i < j < |ps| :: ps[i].accountId != ps[j].accountId && ps[i].txid != ps[j].txid
  }

  function TxidsOf(ps: seq<CredentialProof>): set<nat> {
    set p | p in ps :: p.txid
  }

  lemma OneMoreProof(ps: seq<CredentialProof>, n: nat)
    requires n < |ps| && Unrepeated(ps[..n])
    ensures AccountsOf(ps[..n + 1]) == AccountsOf(ps[..n]) + {ps[n].accountId}
    ensures TxidsOf(ps[..n + 1]) == TxidsOf(ps[..n]) + {ps[n].txid}
    ensures ps[n].accountId in AccountsOf(ps[..n]) || ps[n].txid in TxidsOf(ps[..n]) ==> !Unrepeated(ps)
    ensures ps[n].accountId !in AccountsOf(ps[..n]) && ps[n].txid !in TxidsOf(ps[..n]) ==> Unrepeated(ps[..n + 1])
  {
    OneMoreName(ps, n);
    if ps[n].accountId !in AccountsOf(ps[..n]) && ps[n].txid !in TxidsOf(ps[..n]) { NewProof(ps[..n], ps[n]); }
    assert ps[..n + 1] == ps[..n] + [ps[n]];
    if ps[n].accountId in AccountsOf(ps[..n]) || ps[n].txid in TxidsOf(ps[..n]) {
      var twin :| twin in ps[..n] && (twin.accountId == ps[n].accountId || twin.txid == ps[n].txid);
      var i :| 0 <= i < n && ps[i] == twin;
    }
  }

  lemma OneMoreName(ps: seq<CredentialProof>, n: nat)
    requires n < |ps|
    ensures AccountsOf(ps[..n + 1]) == AccountsOf(ps[..n]) + {ps[n].accountId}
    ensures TxidsOf(ps[..n + 1]) == TxidsOf(ps[..n]) + {ps[n].txid}
  {
    assert ps[..n + 1] == ps[..n] + [ps[n]];
  }

  lemma NewProof(ps: seq<CredentialProof>, p: CredentialProof)
    requires Unrepeated(ps) && p.accountId !in AccountsOf(ps) && p.txid !in TxidsOf(ps)
    ensures Unrepeated(ps + [p])
  {
    assert forall k | 0 <= k < |ps| :: ps[k].accountId in AccountsOf(ps) && ps[k].txid in TxidsOf(ps);
  }

  lemma CoversChanges(before: State, candidate: State, proofs: seq<CredentialProof>)
    ensures ChangedIds(before, candidate) <= AccountsOf(proofs) <==>
              forall id | Lookup(before.credentialRefs, id) != Lookup(candidate.credentialRefs, id) ::
                exists p <- proofs :: p.accountId == id
  {
    if ChangedIds(before, candidate) <= AccountsOf(proofs) {
      forall id | Lookup(before.credentialRefs, id) != Lookup(candidate.credentialRefs, id)
        ensures exists p <- proofs :: p.accountId == id
      {
        assert id in ChangedIds(before, candidate) && id in AccountsOf(proofs);
      }
    }
  }

  /** Covering proofs make transitions that explain every change. */
  lemma CoveredIsExplained(
    before: State, candidate: State, revision: Revision, ps: seq<CredentialProof>, ts: seq<CredentialTransition>,
    platform: Platform)
    requires ProofsCover(before, candidate, revision, ps, platform)
    requires |ts| == |ps| && forall i | 0 <= i < |ps| :: ts[i] == Pending(ps[i])
    ensures Explains(before.credentialRefs, candidate.credentialRefs, ts)
  {
    assert forall i | 0 <= i < |ps| :: ps[i] in ps;
    forall id | Lookup(before.credentialRefs, id) != Lookup(candidate.credentialRefs, id)
      ensures exists t <- ts :: t.accountId == id
    {
      var p :| p in ps && p.accountId == id;
      var k :| 0 <= k < |ps| && ps[k] == p;
      assert ts[k] in ts;
    }
  }

  /** What a transaction stands on: its revision, the images of its root, and the directory. */
  datatype Standing = Standing(revision: Revision, log: seq<Image>, view: Dir)

  /**
   What a commit promises.  Without an attempt nothing was written; an
   attempt is audited whatever its verdict; and a receipt is for the next
   revision of exactly the given state.
  */
  ghost predicate Outcome(
    was: Standing, now: Standing, state: State, r: Result<Receipt, StateStoreError>, attempt: Option<Attempt>,
    text: Text)
  {
    match attempt
    case None => r.Err? && !r.error.Atomic? && now == was
    case Some(Attempt(op, audit, verdict)) =>
      && was.log <= now.log && |was.log| > 0
      && Audited(op, audit, text)
      && op.pre == TargetOf(was.view) && op.expected == Exact(was.revision.document)
      && EncodeV2(Numbered(state, NumberOf(was.revision) + 1), text) == Ok(op.bytes)
      && Episode(now.log[|was.log| - 1..], op, verdict)
      && match verdict
         case Err(error) => r == Err(Atomic(error)) && now.revision == was.revision
         case Ok(_) =>
           && now.revision == Revision(Current(NumberOf(was.revision) + 1), Some(Sha256(op.bytes)))
           && r == Ok(Receipt(now.revision, audit.transitions, audit.active))
  }

  function Numbered(s: State, number: nat): State {
    s.(version := STATE_V2_VERSION, revision := number)
  }

  /** The audit lists the given transitions in order; only the committed revision was filled in. */
  ghost predicate Reports(audit: Audit, ts: seq<CredentialTransition>, active: Option<ActiveTransition>) {
    && |audit.transitions| == |ts|
    && (forall i | 0 <= i < |ts| :: audit.transitions[i].(committed := None) == ts[i].(committed := None))
    && (audit.active.Some? <==> active.Some?)
    && (active.Some? ==> audit.active.value.(committed := None) == active.value.(committed := None))
  }

  /** One transition for each proof, none without. */
  ghost predicate Certifies(audit: Audit, ps: seq<CredentialProof>, home: Option<ActiveHomeProof>) {
    && |audit.transitions| == |ps|
    && (forall i | 0 <= i < |ps| :: audit.transitions[i].(committed := None) == Pending(ps[i]))
    && (audit.active.Some? <==> home.Some?)
    && (home.Some? ==>
          && var t, p := audit.active.value, home.value;
             && t.accountId == p.accountId && t.txid == p.txid && t.base == p.base
             && t.before == p.before && t.after == p.after && t.targetRef == p.targetRef)
  }

  lemma ReportsCertify(
    audit: Audit, ts: seq<CredentialTransition>, active: Option<ActiveTransition>, ps: seq<CredentialProof>,
    home: Option<ActiveHomeProof>)
    requires Reports(audit, ts, active) && Certifies(Audit(ts, active), ps, home)
    ensures Certifies(audit, ps, home)
  {
    forall i | 0 <= i < |ps| ensures audit.transitions[i].(committed := None) == Pending(ps[i]) {
      assert ts[i].(committed := None) == Pending(ps[i]);
    }
  }

  /** A migration under a sealed permit leaves a transition for every account of the old document. */
  lemma MigrationIsComplete(legacy: State, permit: MigrationPermit, audit: Audit, platform: Platform)
    requires PermitCovers(legacy, permit.proofs, platform) && Certifies(audit, permit.proofs, None)
    ensures forall id <- Ids(legacy.accounts) :: exists t <- audit.transitions :: t.accountId == id
    ensures audit.active.None?
  {
    forall id <- Ids(legacy.accounts) ensures exists t <- audit.transitions :: t.accountId == id {
      var p :| p in permit.proofs && p.accountId == id;
      var i :| 0 <= i < |permit.proofs| && permit.proofs[i] == p;
      assert audit.transitions[i] in audit.transitions;
      assert audit.transitions[i].(committed := None).accountId == Pending(p).accountId;
    }
  }

  /** Every account of the document to migrate has a durable journal, and no account has two. */
  ghost predicate PermitCovers(legacy: State, ps: seq<CredentialProof>, platform: Platform) {
    && (forall id <- Ids(legacy.accounts) :: exists p <- ps :: p.accountId == id)
    && Distinct(ps)
    && (forall p <- ps :: platform.credentialDurable(p))
  }

  /** What a permit needs, proof by proof: each of them durable, one for each account, and none twice. */
  lemma PermitsAreBacked(legacy: State, ps: seq<CredentialProof>, platform: Platform)
    requires PermitCovers(legacy, ps, platform)
    ensures forall p <- ps :: platform.credentialDurable(p)
    ensures forall a <- legacy.accounts :: exists p <- ps :: p.accountId == a.id
    ensures forall i, j | 0 <= i < j < |ps| :: ps[i].accountId != ps[j].accountId
  {
    forall a | a in legacy.accounts ensures exists p <- ps :: p.accountId == a.id {
      assert a.id in Ids(legacy.accounts);
    }
  }

  predicate Distinct(ps: seq<CredentialProof>) {
    forall i, j | 0 <= i < j < |ps| :: ps[i].accountId != ps[j].accountId
  }

  function AccountsOf(ps: seq<CredentialProof>): set<string> {
    set p | p in ps :: p.accountId
  }

  lemma {:induction false} CountsDistinct(ps: seq<CredentialProof>)
    ensures |AccountsOf(ps)| <= |ps|
    ensures |AccountsOf(ps)| == |ps| <==> Distinct(ps)
  {
    if ps != [] {
      var n := |ps| - 1;
      CountsDistinct(ps[..n]);
      OneMoreAccount(ps, n);
    }
  }

  lemma OneMoreAccount(ps: seq<CredentialProof>, n: nat)
    requires |ps| == n + 1
    ensures AccountsOf(ps) == AccountsOf(ps[..n]) + {ps[n].accountId}
    ensures ps[n].accountId in AccountsOf(ps[..n]) ==> AccountsOf(ps) == AccountsOf(ps[..n])
    ensures ps[n].accountId !in AccountsOf(ps[..n]) ==> forall i | 0 <= i < n :: ps[i].accountId != ps[n].accountId
  {
    assert ps == ps[..n] + [ps[n]];
    assert forall i | 0 <= i < n :: ps[..n][i].accountId in AccountsOf(ps[..n]);
  }

  function StampedActive(active: Option<ActiveTransition>, r: Revision): Option<ActiveTransition> {
    if active.Some? then Some(active.value.(committed := Some(r))) else None
  }

  /** The evidence covers what the candidate changes in the document that is live. */
  ghost predicate Accounted(
    pre: Option<Bytes>, next: State, transitions: seq<CredentialTransition>, active: Option<ActiveTransition>,
    text: Text)
  {
    && Parse(pre, text).Ok?
    && var before := Parse(pre, text).value.state;
       && Explains(before.credentialRefs, next.credentialRefs, transitions)
       && ExplainsProfile(before.activeProfile, next.activeProfile, active)
  }

  lemma EpisodeEndsSound(log: seq<Image>, from: nat, op: Op, r: Result<CommitReceipt, StoreError>)
    requires from < |log| && Episode(log[from..], op, r)
    ensures Sound(log[|log| - 1])
  {
    SoundAt(log[from..], 0, op, |log[from..]| - 1);
  }

  lemma EncodingIsGenuine(next: State, bytes: Bytes, text: Text)
    requires EncodeV2(next, text) == Ok(bytes) && next.revision > 0
    ensures Genuine(Revision(Current(next.revision), Some(Sha256(bytes))), text)
  {
    WriteThenRead(next, text);
  }

  /** An accounted candidate written over the revision it was derived from follows it. */
  lemma AuditedWhenAccounted(
    op: Op, next: State, revision: Revision, transitions: seq<CredentialTransition>, active: Option<ActiveTransition>,
    text: Text)
    requires op.Commit? && op.expected == Exact(revision.document)
    requires Genuine(revision, text) && EncodeV2(next, text) == Ok(op.bytes)
    requires next.revision == NumberOf(revision) + 1
    requires Accounted(op.pre, next, transitions, active, text)
    ensures var result := Revision(Current(next.revision), Some(Sha256(op.bytes)));
            Audited(op, Audit(Stamped(transitions, result), StampedActive(active, result)), text)
  {
    var result := Revision(Current(next.revision), Some(Sha256(op.bytes)));
    WriteThenRead(next, text);
    var before := Parse(op.pre, text).value.state;
    StampedExplains(before.credentialRefs, next.credentialRefs, transitions, result);
    if revision.document == DigestOf(op.pre) {
      assert Undone(revision.document) == op.pre;
    }
  }

  class LockedStateTxn {
    const guard: LockedAtomicStore
    const platform: Platform
    var revision: Revision

    constructor (guard: LockedAtomicStore, revision: Revision, platform: Platform)
      ensures this.guard == guard && this.revision == revision && this.platform == platform
    {
      this.guard, this.revision, this.platform := guard, revision, platform;
    }

    ghost function Root(): OwnedRoot {
      guard.store.root
    }

    ghost predicate Valid()
      reads this, Root(), guard.store.lock
    {
      guard.store.lock.held && Root().Valid() && Sound(Root().Now()) && Genuine(revision, platform.text)
    }

    /** Without a fault nothing but missing evidence stands in the way of committing this state. */
    ghost predicate Unhindered(state: State, txid: Txid)
      reads this, Root()
    {
      var next := Numbered(state, NumberOf(revision) + 1);
      && Root().faults == 0 && Committable(Root().view, Exact(revision.document), txid)
      && NumberOf(revision) < U64_MAX && Parse(TargetOf(Root().view), platform.text).Ok?
      && StateInvariants(next) && EncodeV2(next, platform.text).Ok?
    }

    ghost function Stands(): Standing
      reads this, Root()
    {
      Standing(revision, Root().log, Root().view)
    }

    method Snapshot() returns (r: Result<StateRead, StateStoreError>)
      ensures r.Ok? ==> Parse(TargetOf(Root().view), platform.text) == Ok(r.value)
      ensures r.Err? ==> r.error == Invalid
      ensures Root().faults == 0 && !Foreign(Root().view, Target) && Parse(TargetOf(Root().view), platform.text).Ok? ==>
                r.Ok?
    {
      var snapshot := guard.store.ReadSnapshot();
      if snapshot.Err? { return Err(Invalid); }
      var parsed := Parse(snapshot.value, platform.text);
      return if parsed.Ok? then Ok(parsed.value) else Err(Invalid);
    }

    /** One proof against the durable state and the candidate. */
    method CheckProof(before: State, candidate: State, p: CredentialProof)
      returns (r: Result<CredentialTransition, StateStoreError>)
      ensures r.Ok? <==> ProofFits(before, candidate, revision, p, platform)
      ensures r.Ok? ==> r.value == Pending(p)
      ensures r.Err? ==> r.error == Invalid || r.error.RevisionConflict?
    {
      if p.base != revision { return Err(RevisionConflict(revision, p.base)); }
      if !platform.credentialDurable(p) { return Err(Invalid); }
      if Lookup(before.credentialRefs, p.accountId) != p.before { return Err(Invalid); }
      if Lookup(candidate.credentialRefs, p.accountId) != p.after { return Err(Invalid); }
      return Ok(Pending(p));
    }

    /** Check every proof, each account and transaction once, then that none is missing. */
    method ValidateCoordinatedProofs(before: State, candidate: State, proofs: seq<CredentialProof>)
      returns (r: Result<seq<CredentialTransition>, StateStoreError>)
      ensures r.Ok? <==> ProofsCover(before, candidate, revision, proofs, platform)
      ensures r.Ok? ==> |r.value| == |proofs| && forall i | 0 <= i < |proofs| :: r.value[i] == Pending(proofs[i])
      ensures r.Ok? ==> Explains(before.credentialRefs, candidate.credentialRefs, r.value)
      ensures r.Err? ==> r.error == Invalid || r.error.RevisionConflict?
    {
      var accounts: set<string>, txids: set<nat> := {}, {};
      var transitions: seq<CredentialTransition> := [];
      for i := 0 to |proofs|
        invariant accounts == AccountsOf(proofs[..i]) && txids == TxidsOf(proofs[..i])
        invariant Unrepeated(proofs[..i])
        invariant forall k | 0 <= k < i :: ProofFits(before, candidate, revision, proofs[k], platform)
        invariant |transitions| == i && forall k | 0 <= k < i :: transitions[k] == Pending(proofs[k])
      {
        var p := proofs[i];
        OneMoreProof(proofs, i);
        if p.accountId in accounts { return Err(Invalid); }
        accounts := accounts + {p.accountId};
        if p.txid in txids { return Err(Invalid); }
        txids := txids + {p.txid};
        assert p in proofs;
        var checked := CheckProof(before, candidate, p);
        if checked.Err? { return Err(checked.error); }
        transitions := transitions + [checked.value];
      }
      assert proofs[..|proofs|] == proofs;
      CoversChanges(before, candidate, proofs);
      if !(ChangedIds(before, candidate) <= accounts) { return Err(Invalid); }
      CoveredIsExplained(before, candidate, revision, proofs, transitions, platform);
      return Ok(transitions);
    }

    method ValidateActiveHomeProof(before: State, candidate: State, p: ActiveHomeProof)
      returns (r: Result<ActiveTransition, StateStoreError>)
      ensures r.Ok? <==> HomeProofFits(before, candidate, revision, p, platform)
      ensures r.Ok? ==> r.value == ActiveTransition(p.accountId, p.txid, p.base, None, p.before, p.after, p.targetRef)
      ensures r.Err? ==> r.error == Invalid || r.error.RevisionConflict?
    {
      if p.base != revision { return Err(RevisionConflict(revision, p.base)); }
      if before.activeProfile != p.before { return Err(Invalid); }
      if candidate.activeProfile != p.after { return Err(Invalid); }
      var candidateRef := Lookup(candidate.credentialRefs, p.accountId);
      var expectedRef := if candidateRef.Some? then candidateRef else Lookup(before.credentialRefs, p.accountId);
      if expectedRef != p.targetRef { return Err(Invalid); }
      if !platform.homeDurable(p) { return Err(Invalid); }
      return Ok(ActiveTransition(p.accountId, p.txid, p.base, None, p.before, p.after, p.targetRef));
    }

    /** The changes a commit may make on behalf of the evidence it carries. */
    ghost predicate Justified(state: State, ts: seq<CredentialTransition>, active: Option<ActiveTransition>)
      reads Root()
    {
      ts != [] || active.Some? ==>
        && Parse(TargetOf(Root().view), platform.text).Ok?
        && var before := Parse(TargetOf(Root().view), platform.text).value.state;
           && (ts != [] ==> Explains(before.credentialRefs, state.credentialRefs, ts))
           && (active.Some? ==> ExplainsProfile(before.activeProfile, state.activeProfile, active))
    }

    /** What the candidate must satisfy before a byte is written; its encoding if it does. */
    method CheckCandidate(next: State, transitions: seq<CredentialTransition>, active: Option<ActiveTransition>)
      returns (r: Result<Bytes, StateStoreError>)
      requires Justified(next, transitions, active)
      ensures r.Err? ==> r.error == Invalid
      ensures r.Ok? ==>
                && EncodeV2(next, platform.text) == Ok(r.value)
                && Accounted(TargetOf(Root().view), next, transitions, active, platform.text)
      ensures Root().faults == 0 && !Foreign(Root().view, Target)
              && StateInvariants(next) && EncodeV2(next, platform.text).Ok?
              && Accounted(TargetOf(Root().view), next, transitions, active, platform.text) ==>
                r.Ok?
    {
      if active.None? || transitions == [] {
        var before := Snapshot();
        if before.Err? { return Err(before.error); }
        if transitions == [] && Explains(before.value.state.credentialRefs, next.credentialRefs, []) {
          NothingToExplain(before.value.state.credentialRefs, next.credentialRefs);
        }
        if active.None? && before.value.state.activeProfile != next.activeProfile { return Err(Invalid); }
        if transitions == [] && before.value.state.credentialRefs != next.credentialRefs { return Err(Invalid); }
      }
      var valid := ValidateStateInvariants(next);
      if !valid { return Err(Invalid); }
      var encoded := EncodeV2(next, platform.text);
      return if encoded.Ok? then Ok(encoded.value) else Err(Invalid);
    }

    method CompareAndSwap(bytes: Bytes, txid: Txid) returns (r: Result<CommitReceipt, StoreError>)
      requires guard.store.lock.held && Root().Valid() && Sound(Root().Now())
      modifies Root()
      ensures Root().Valid() && Sound(Root().Now()) && old(Root().log) <= Root().log
      ensures Root().faults <= old(Root().faults)
      ensures Episode(Root().log[old(|Root().log|) - 1..],
                      Commit(Exact(revision.document), old(TargetOf(Root().view)), bytes, txid), r)
      ensures old(Root().faults == 0 && Committable(Root().view, Exact(revision.document), txid)) ==> r.Ok?
      ensures old(Root().faults <= 1 && Committable(Root().view, Exact(revision.document), txid)) ==>
                r.Err? ==> TargetOf(Root().view) == old(TargetOf(Root().view))
    {
      r := guard.store.CommitLocked(Exact(revision.document), bytes, txid);
      EpisodeEndsSound(
        Root().log, old(|Root().log|) - 1,
        Commit(Exact(revision.document), old(TargetOf(Root().view)), bytes, txid), r);
    }

    /** The compare-and-swap of an accounted candidate, and the receipt for it. */
    method Publish(
      next: State, bytes: Bytes, transitions: seq<CredentialTransition>, active: Option<ActiveTransition>, txid: Txid)
      returns (r: Result<Receipt, StateStoreError>, ghost attempt: Attempt)
      requires Valid() && next.revision == NumberOf(revision) + 1
      requires EncodeV2(next, platform.text) == Ok(bytes)
      requires Accounted(TargetOf(Root().view), next, transitions, active, platform.text)
      modifies this, Root()
      ensures Valid() && old(Root().log) <= Root().log && Root().faults <= old(Root().faults)
      ensures attempt.op == Commit(Exact(old(revision.document)), old(TargetOf(Root().view)), bytes, txid)
      ensures Audited(attempt.op, attempt.audit, platform.text)
      ensures Reports(attempt.audit, transitions, active)
      ensures Episode(Root().log[old(|Root().log|) - 1..], attempt.op, attempt.verdict)
      ensures attempt.verdict.Err? ==> r == Err(Atomic(attempt.verdict.error)) && revision == old(revision)
      ensures attempt.verdict.Ok? ==>
                && revision == Revision(Current(next.revision), Some(Sha256(bytes)))
                && r == Ok(Receipt(revision, attempt.audit.transitions, attempt.audit.active))
      ensures old(Root().faults == 0 && Committable(Root().view, Exact(revision.document), txid)) ==> r.Ok?
      // With at most one fault there is a receipt exactly if the new document is live.
      ensures old(Root().faults <= 1 && Committable(Root().view, Exact(revision.document), txid)) ==>
                TargetOf(Root().view) == if r.Ok? then Some(bytes) else old(TargetOf(Root().view))
    {
      var result := Revision(Current(next.revision), Some(Sha256(bytes)));
      var stamped := Stamped(transitions, result);
      var stampedActive := StampedActive(active, result);
      ghost var op := Commit(Exact(revision.document), TargetOf(Root().view), bytes, txid);
      ghost var audit := Audit(stamped, stampedActive);
      AuditedWhenAccounted(op, next, revision, transitions, active, platform.text);
      EncodingIsGenuine(next, bytes, platform.text);
      var committed := CompareAndSwap(bytes, txid);
      attempt := Attempt(op, audit, committed);
      if committed.Err? { return Err(Atomic(committed.error)), attempt; }
      revision := result;
      return Ok(Receipt(result, stamped, stampedActive)), attempt;
    }

    /** `commit_state_with_transitions`: the one place that writes the state document. */
    method CommitStateWithTransitions(
      state: State, allowMigration: bool, transitions: seq<CredentialTransition>, active: Option<ActiveTransition>,
      txid: Txid)
      returns (r: Result<Receipt, StateStoreError>, ghost attempt: Option<Attempt>)
      requires Valid() && Justified(state, transitions, active)
      modifies this, Root()
      ensures Valid() && old(Root().log) <= Root().log && Root().faults <= old(Root().faults)
      ensures Outcome(old(Stands()), Stands(), state, r, attempt, platform.text)
      ensures !allowMigration && !old(revision.generation.Current?) ==> r == Err(MigrationRequired)
      ensures old(NumberOf(revision)) >= 0xFFFF_FFFF_FFFF_FFFF ==> r.Err? && attempt.None?
      ensures attempt.Some? ==> Reports(attempt.value.audit, transitions, active)
      ensures old(Unhindered(state, txid)) && (allowMigration || old(revision.generation.Current?))
              && old(Accounted(TargetOf(Root().view), state, transitions, active, platform.text)) ==>
                r.Ok?
    {
      attempt := None;
      if !allowMigration && !revision.generation.Current? { return Err(MigrationRequired), attempt; }
      if NumberOf(revision) >= U64_MAX { return Err(Invalid), attempt; }
      var next := Numbered(state, NumberOf(revision) + 1);
      var checked := CheckCandidate(next, transitions, active);
      if checked.Err? { return Err(checked.error), attempt; }
      ghost var one: Attempt;
      r, one := Publish(next, checked.value, transitions, active, txid);
      attempt := Some(one);
    }

    /** `commit_exact`: an ordinary commit carries no evidence, so it may change neither reference nor profile. */
    method CommitExact(state: State, txid: Txid)
      returns (r: Result<Receipt, StateStoreError>, ghost attempt: Option<Attempt>)
      requires Valid()
      modifies this, Root()
      ensures Valid() && old(Root().log) <= Root().log && Root().faults <= old(Root().faults)
      ensures Outcome(old(Stands()), Stands(), state, r, attempt, platform.text)
      ensures !old(revision.generation.Current?) ==> r == Err(MigrationRequired)
      ensures attempt.Some? ==> attempt.value.audit == Audit([], None)
      // Unhindered, a state that changes neither a reference nor the profile is committed.
      ensures old(Unhindered(state, txid)) && old(revision.generation.Current?)
              && old(RefsKept(TargetOf(Root().view), state, platform.text))
              && old(ProfileKept(TargetOf(Root().view), state, platform.text)) ==>
                r.Ok?
    {
      if !revision.generation.Current? { return Err(MigrationRequired), None; }
      r, attempt := CommitStateWithTransitions(state, false, [], None, txid);
    }

    /** `commit_coordinated_with_active`: every proof is checked before a byte is written. */
    method CommitCoordinated(state: State, proofs: seq<CredentialProof>, home: Option<ActiveHomeProof>, txid: Txid)
      returns (r: Result<Receipt, StateStoreError>, ghost attempt: Option<Attempt>)
      requires Valid()
      modifies this, Root()
      ensures Valid() && old(Root().log) <= Root().log && Root().faults <= old(Root().faults)
      ensures Outcome(old(Stands()), Stands(), state, r, attempt, platform.text)
      ensures proofs == [] && home.None? ==> attempt.None?
      ensures attempt.Some? ==>
                && Backed(old(TargetOf(Root().view)), state, old(revision), proofs, home, platform)
                && Certifies(attempt.value.audit, proofs, home)
      // Unhindered, evidence that covers the change suffices.
      ensures old(Unhindered(state, txid)) && (proofs != [] || home.Some?)
              && old(Backed(TargetOf(Root().view), state, revision, proofs, home, platform))
              && (home.None? ==> old(ProfileKept(TargetOf(Root().view), state, platform.text))) ==>
                r.Ok?
    {
      attempt := None;
      if proofs == [] && home.None? { return Err(Invalid), attempt; }
      var checked := CheckEvidence(state, proofs, home);
      if checked.Err? { return Err(checked.error), attempt; }
      var (transitions, active) := checked.value;
      r, attempt := CommitEvidenced(state, transitions, active, txid, proofs, home);
    }

    /** Commit with the evidence that the proofs gave. */
    method CommitEvidenced(
      state: State, transitions: seq<CredentialTransition>, active: Option<ActiveTransition>, txid: Txid,
      ghost proofs: seq<CredentialProof>, ghost home: Option<ActiveHomeProof>)
      returns (r: Result<Receipt, StateStoreError>, ghost attempt: Option<Attempt>)
      requires Valid() && Justified(state, transitions, active)
      requires Certifies(Audit(transitions, active), proofs, home)
      modifies this, Root()
      ensures Valid() && old(Root().log) <= Root().log && Root().faults <= old(Root().faults)
      ensures Outcome(old(Stands()), Stands(), state, r, attempt, platform.text)
      ensures attempt.Some? ==> Certifies(attempt.value.audit, proofs, home)
      ensures old(Unhindered(state, txid))
              && old(Accounted(TargetOf(Root().view), state, transitions, active, platform.text)) ==>
                r.Ok?
    {
      r, attempt := CommitStateWithTransitions(state, !revision.generation.Current?, transitions, active, txid);
      if attempt.Some? { ReportsCertify(attempt.value.audit, transitions, active, proofs, home); }
    }

    method CheckEvidence(state: State, proofs: seq<CredentialProof>, home: Option<ActiveHomeProof>)
      returns (r: Result<(seq<CredentialTransition>, Option<ActiveTransition>), StateStoreError>)
      ensures r.Err? ==> r.error == Invalid || r.error.RevisionConflict?
      ensures r.Ok? ==>
                && Justified(state, r.value.0, r.value.1)
                && Certifies(Audit(r.value.0, r.value.1), proofs, home)
                && Backed(TargetOf(Root().view), state, revision, proofs, home, platform)
      ensures Root().faults == 0 && !Foreign(Root().view, Target)
              && Backed(TargetOf(Root().view), state, revision, proofs, home, platform) ==>
                && r.Ok?
                && ((home.None? ==> ProfileKept(TargetOf(Root().view), state, platform.text)) ==>
                      Accounted(TargetOf(Root().view), state, r.value.0, r.value.1, platform.text))
    {
      var before := Snapshot();
      if before.Err? { return Err(before.error); }
      var transitions := ValidateCoordinatedProofs(before.value.state, state, proofs);
      if transitions.Err? { return Err(transitions.error); }
      if home.None? { return Ok((transitions.value, None)); }
      var checked := ValidateActiveHomeProof(before.value.state, state, home.value);
      if checked.Err? { return Err(checked.error); }
      return Ok((transitions.value, Some(checked.value)));
    }

    /** `migration_commit_permit`: one durable journal for every account of the document to migrate. */
    method SealMigration(proofs: seq<CredentialProof>) returns (r: Result<MigrationPermit, StateStoreError>)
      ensures r.Ok? ==>
                && !revision.generation.Current?
                && r.value == MigrationPermit(revision, proofs)
                && Parse(TargetOf(Root().view), platform.text).Ok?
                && PermitCovers(Parse(TargetOf(Root().view), platform.text).value.state, proofs, platform)
      ensures r.Err? ==> r.error == Invalid
      ensures Root().faults == 0 && !Foreign(Root().view, Target) && !revision.generation.Current?
              && Parse(TargetOf(Root().view), platform.text).Ok?
              && PermitCovers(Parse(TargetOf(Root().view), platform.text).value.state, proofs, platform) ==>
                r.Ok?
    {
      if revision.generation.Current? { return Err(Invalid); }
      var snapshot := Snapshot();
      if snapshot.Err? { return Err(snapshot.error); }
      var expected := Ids(snapshot.value.state.accounts);
      var actual := AccountsOf(proofs);
      CountsDistinct(proofs);
      if !(expected <= actual) || |proofs| != |actual| { return Err(Invalid); }
      for i := 0 to |proofs|
        invariant forall k | 0 <= k < i :: platform.credentialDurable(proofs[k])
      {
        if !platform.credentialDurable(proofs[i]) { return Err(Invalid); }
      }
      return Ok(MigrationPermit(revision, proofs));
    }

    /** `commit_migration`: an empty permit may only bootstrap an empty document. */
    method CommitMigration(state: State, permit: MigrationPermit, txid: Txid)
      returns (r: Result<Receipt, StateStoreError>, ghost attempt: Option<Attempt>)
      requires Valid()
      modifies this, Root()
      ensures Valid() && old(Root().log) <= Root().log && Root().faults <= old(Root().faults)
      ensures Outcome(old(Stands()), Stands(), state, r, attempt, platform.text)
      ensures permit.expected != old(revision) ==> r == Err(RevisionConflict(permit.expected, old(revision)))
      ensures attempt.Some? && permit.proofs == [] ==> state.accounts == [] && state.credentialRefs == map[]
      ensures attempt.Some? ==> Certifies(attempt.value.audit, permit.proofs, None)
      // Unhindered, the permit of the present revision suffices if it covers the change.
      ensures old(Unhindered(state, txid)) && permit.expected == old(revision)
              && old(ProfileKept(TargetOf(Root().view), state, platform.text))
              && (if permit.proofs == []
                  then state.accounts == [] && state.credentialRefs == map[]
                       && old(RefsKept(TargetOf(Root().view), state, platform.text))
                  else old(Backed(TargetOf(Root().view), state, revision, permit.proofs, None, platform))) ==>
                r.Ok?
    {
      attempt := None;
      if permit.expected != revision { return Err(RevisionConflict(permit.expected, revision)), attempt; }
      if permit.proofs == [] {
        if state.accounts != [] || state.credentialRefs != map[] { return Err(Invalid), attempt; }
        r, attempt := CommitStateWithTransitions(state, true, [], None, txid);
      } else {
        r, attempt := CommitCoordinated(state, permit.proofs, None, txid);
      }
    }
  }
}
