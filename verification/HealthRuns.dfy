/** What holds of an account's health over whole runs of reads and observations. */
module HealthRuns {
  import opened Options
  import opened Int64
  import opened Health

  datatype Event = Read(now: int64) | Observe(outcome: ProbeOutcome, observedAt: int64, now: int64)

  function Apply(u: UsageSnapshot, e: Event): UsageSnapshot {
    match e
    case Read(now) => Normal(u, now)
    case Observe(outcome, observedAt, now) => Reduced(u, outcome, observedAt, now)
  }

  function Final(u: UsageSnapshot, events: seq<Event>): UsageSnapshot {
    if events == [] then u else Apply(Final(u, events[..|events| - 1]), events[|events| - 1])
  }

  /** The clock never goes back, starting from `from`. */
  predicate Clocked(events: seq<Event>, from: int64) {
    && (forall i | 0 <= i < |events| :: from <= events[i].now)
    && forall i, j | 0 <= i < j < |events| :: events[i].now <= events[j].now
  }

  /** A window no longer than an hour that has started and not ended. */
  predicate Bounded(c: Cooldown, now: int64) {
    c.startedAt <= now < c.until <= SaturatingAdd(c.startedAt, MAX_RETRY_SECS) && c.lastEvidenceAt <= now
  }

  /** Normalising early and then late is normalising late. */
  lemma NormalizeLate(c: Cooldown, early: int64, late: int64)
    requires early <= late && NormalizeCooldown(c, early).Some?
    ensures Normalized1(NormalizeCooldown(c, early), late) == NormalizeCooldown(c, late)
  {
  }

  lemma NormalizeBounds(c: Option<Cooldown>, now: int64)
    ensures Normalized1(c, now).Some? ==> Bounded(Normalized1(c, now).value, now)
  {
  }

  lemma ReducedBounds(u: UsageSnapshot, outcome: ProbeOutcome, observedAt: int64, now: int64)
    ensures var c := Reduced(u, outcome, observedAt, now).cooldown;
            c.Some? ==> Bounded(c.value, now)
  {
    NormalizeBounds(u.cooldown, now);
    if outcome.Http429? {
      var c := NewCooldown(Min(observedAt, now), outcome.retryAfter);
      assert c.until <= SaturatingAdd(c.startedAt, MAX_RETRY_SECS);
    }
  }

  /** Whatever is read or observed, and whatever was stored before, no window outlasts an hour. */
  lemma {:induction false} CooldownBounded(u: UsageSnapshot, events: seq<Event>)
    requires events != []
    ensures var c := Final(u, events).cooldown;
            c.Some? ==> Bounded(c.value, events[|events| - 1].now)
  {
    var before := Final(u, events[..|events| - 1]);
    match events[|events| - 1]
    case Read(now) => NormalizeBounds(before.cooldown, now);
    case Observe(outcome, observedAt, now) => ReducedBounds(before, outcome, observedAt, now);
  }

  predicate SameWindow(u: UsageSnapshot, c: Cooldown) {
    u.cooldown.Some? && u.cooldown.value.startedAt == c.startedAt && u.cooldown.value.until == c.until
  }

  /** A success that is not older than the newest probe on record. */
  predicate CountingSuccess(u: UsageSnapshot, e: Event) {
    e.Observe? && e.outcome.Http200? && !Stale(u, e.observedAt, e.now)
  }

  predicate NoCountingSuccess(u: UsageSnapshot, events: seq<Event>) {
    events != [] ==>
      var shorter := events[..|events| - 1];
      NoCountingSuccess(u, shorter) && !CountingSuccess(Final(u, shorter), events[|events| - 1])
  }

  lemma EventKeepsWindow(u: UsageSnapshot, c: Cooldown, e: Event)
    requires SameWindow(u, c) && Bounded(u.cooldown.value, e.now)
    requires !CountingSuccess(u, e)
    ensures SameWindow(Apply(u, e), c) && Bounded(Apply(u, e).cooldown.value, e.now)
  {
    var before := u.cooldown.value;
    assert NormalizeCooldown(before, e.now)
           == Some(before.(lastEvidenceAt := Max(before.lastEvidenceAt, before.startedAt)));
  }

  function LastClock(events: seq<Event>, from: int64): int64 {
    if events == [] then from else events[|events| - 1].now
  }

  /**
   An open window keeps its end through any number of reads, repeated rate
   limits, failures and stale successes, however long the server now asks to wait:
   the account is blocked exactly until then.  Only a success that counts ends a
   window early.
  */
  lemma {:induction false} WindowNeverMoves(u: UsageSnapshot, c: Cooldown, events: seq<Event>, from: int64)
    requires u.cooldown == Some(c) && Bounded(c, from)
    requires Clocked(events, from)
    requires NoCountingSuccess(u, events) && forall e <- events :: e.now < c.until
    ensures SameWindow(Final(u, events), c)
    ensures Bounded(Final(u, events).cooldown.value, LastClock(events, from))
    ensures forall now: int64 | LastClock(events, from) <= now :: InCooldown(Final(u, events), now) <==> now < c.until
    decreases |events|
  {
    if events != [] {
      var shorter := events[..|events| - 1];
      var e := events[|events| - 1];
      WindowNeverMoves(u, c, shorter, from);
      assert e in events && LastClock(shorter, from) <= e.now;
      EventKeepsWindow(Final(u, shorter), c, e);
    }
  }

  /** And a success that counts does end it. */
  lemma SuccessEndsWindow(u: UsageSnapshot, e: Event)
    requires CountingSuccess(u, e)
    ensures Apply(u, e).cooldown.None? && forall now: int64 :: !InCooldown(Apply(u, e), now)
  {
  }

  // ---- transport failures

  predicate IsTransport(outcome: ProbeOutcome) {
    outcome.Timeout? || outcome.Network? || outcome.HttpUnexpected? || outcome.Http5xx? || outcome.OtherTransient?
  }

  predicate OnlyTransport(events: seq<Event>) {
    forall e <- events :: e.Observe? ==> IsTransport(e.outcome)
  }

  /** No amount of transport failure washes a rejection away. */
  lemma {:induction false} RejectionStays(u: UsageSnapshot, events: seq<Event>)
    requires IsCredentialRejection(u.health) && OnlyTransport(events)
    ensures Final(u, events).health == u.health
    decreases |events|
  {
    if events != [] {
      var e := events[|events| - 1];
      assert e in events;
      RejectionStays(u, events[..|events| - 1]);
    }
  }

  /** The newest word on the account is that the probe did not get through. */
  predicate Unreached(u: UsageSnapshot) {
    ProbeChannelUnreachable(u) && u.remainingQuotaPercent.None?
  }

  /** From the first failure that counts on, an account that was not rejected stays merely unreached. */
  lemma {:induction false} UnreachedStays(u: UsageSnapshot, events: seq<Event>, k: nat)
    requires !IsCredentialRejection(u.health) && OnlyTransport(events)
    requires k < |events| && events[k].Observe?
    requires !Stale(Final(u, events[..k]), events[k].observedAt, events[k].now)
    ensures Unreached(Final(u, events))
    decreases |events|
  {
    var shorter := events[..|events| - 1];
    var e := events[|events| - 1];
    assert e in events;
    if k == |events| - 1 {
      NeverRejected(u, shorter);
    } else {
      assert shorter[..k] == events[..k];
      UnreachedStays(u, shorter, k);
    }
  }

  lemma {:induction false} NeverRejected(u: UsageSnapshot, events: seq<Event>)
    requires !IsCredentialRejection(u.health) && OnlyTransport(events)
    ensures !IsCredentialRejection(Final(u, events).health)
    decreases |events|
  {
    if events != [] {
      var e := events[|events| - 1];
      assert e in events;
      NeverRejected(u, events[..|events| - 1]);
    }
  }

  /** Once a verdict of the service rejected a credential, no run of inconclusive probes changes that verdict. */
  lemma VerdictStays(u: UsageSnapshot, rejection: ProbeOutcome, observedAt: int64, now: int64, events: seq<Event>)
    requires !Stale(u, observedAt, now)
    requires forall e <- events | e.Observe? :: Inconclusive(e.outcome)
    ensures var health := Final(Reduced(u, rejection, observedAt, now), events).health;
            && (rejection.Http403? ==> health == PermissionDenied)
            && (rejection.Http401? && rejection.subject != AuthorizedUser ==> health == AuthInvalid)
            && (rejection.Http400? && rejection.subject != AuthorizedUser ==> health == InvalidCredential)
  {
    if rejection.Http400? || rejection.Http401? || rejection.Http403? {
      if IsCredentialRejection(Reduced(u, rejection, observedAt, now).health) {
        assert forall e <- events | e.Observe? :: IsTransport(e.outcome);
        RejectionStays(Reduced(u, rejection, observedAt, now), events);
      }
    }
  }
}
