/** Account health: the reducer over typed probe outcomes of src/core/health.rs. */
module Health {
  import opened Options
  import opened Int64

  const PROBE_TTL_SECS: int64 := 300
  const TRANSIENT_BACKOFF_SECS: int64 := 30
  const DEFAULT_RETRY_SECS: int64 := 300
  const MIN_RETRY_SECS: int64 := 30
  const MAX_RETRY_SECS: int64 := 3600

  datatype HealthStatus =
    | Unverified
    | Ready
    | RefreshRequired
    | RateLimited
    | AuthInvalid
    | PermissionDenied
    | InvalidCredential
    | TransientFailure

  predicate IsCredentialRejection(h: HealthStatus) {
    h.AuthInvalid? || h.PermissionDenied? || h.InvalidCredential?
  }

  datatype HealthErrorKind =
    | Unauthorized
    | Denied
    | Limited
    | ServerFailure
    | Gateway
    | TimedOut
    | NetworkDown
    | InvalidJwt
    | VertexSigning
    | BadCredential
    | Unknown

  predicate IsTransportFailure(e: HealthErrorKind) {
    e.TimedOut? || e.NetworkDown? || e.Gateway? || e.ServerFailure?
  }

  datatype ProbeSubject = RawToken | AuthorizedUser | ApiKeySubject | VertexSubject

  /** The generic forms carry the subject; the fixed forms of the source are instances of them. */
  datatype ProbeOutcome =
    | Http200(subject: ProbeSubject)
    | Http400(subject: ProbeSubject)
    | Http401(subject: ProbeSubject)
    | Http403(subject: ProbeSubject)
    | Http429(subject: ProbeSubject, retryAfter: Option<int64>)
    | Http5xx(subject: ProbeSubject)
    | HttpUnexpected(subject: ProbeSubject)
    | Timeout(subject: ProbeSubject)
    | Network(subject: ProbeSubject)
    | JwtRefused
    | SigningFailed
    | CredentialRefused
    | OtherTransient

  datatype Cooldown = Cooldown(startedAt: int64, until: int64, lastEvidenceAt: int64)

  datatype UsageSnapshot = UsageSnapshot(
    plan: Option<string>,
    health: HealthStatus,
    cooldown: Option<Cooldown>,
    remainingQuotaPercent: Option<nat>,
    lastProbeAt: Option<int64>,
    lastSuccessAt: Option<int64>,
    lastRateLimitAt: Option<int64>,
    lastError: Option<HealthErrorKind>)

  const DEFAULT_USAGE := UsageSnapshot(None, Unverified, None, None, None, None, None, None)

  datatype ProbeDecision = UseCached | Probe | SkipCooldown

  function ClampRetryAfter(retry: Option<int64>): int64 {
    var r := if retry.Some? then retry.value else DEFAULT_RETRY_SECS;
    Min(Max(r, MIN_RETRY_SECS), MAX_RETRY_SECS)
  }

  function NewCooldown(startedAt: int64, retry: Option<int64>): Cooldown {
    Cooldown(startedAt, SaturatingAdd(startedAt, ClampRetryAfter(retry)), startedAt)
  }

  predicate IsActive(c: Cooldown, now: int64) {
    c.until > now
  }

  /** `Cooldown::normalize`: drop skewed or expired windows, cut long ones from their start. */
  function NormalizeCooldown(c: Cooldown, now: int64): Option<Cooldown> {
    if c.startedAt > now || c.lastEvidenceAt > now || c.until <= c.startedAt then None
    else
      var until := Min(c.until, SaturatingAdd(c.startedAt, MAX_RETRY_SECS));
      if until <= now then None
      else Some(Cooldown(c.startedAt, until, Max(c.lastEvidenceAt, c.startedAt)))
  }

  function Normalized1(c: Option<Cooldown>, now: int64): Option<Cooldown> {
    match c
    case None => None
    case Some(c) => NormalizeCooldown(c, now)
  }

  predicate InCooldown(u: UsageSnapshot, now: int64) {
    var c := Normalized1(u.cooldown, now);
    c.Some? && IsActive(c.value, now)
  }

  predicate ProbeChannelUnreachable(u: UsageSnapshot) {
    u.health.TransientFailure? && u.lastError.Some? && IsTransportFailure(u.lastError.value)
  }

  function Past(t: Option<int64>, now: int64): Option<int64> {
    if t.Some? && t.value > now then None else t
  }

  /** The snapshot with everything that is no longer evidence at `now` taken out. */
  function Normal(u: UsageSnapshot, now: int64): UsageSnapshot {
    var cooldown := Normalized1(u.cooldown, now);
    var expired := u.cooldown.Some? && cooldown.None? && u.health.RateLimited?;
    UsageSnapshot(
      u.plan,
      if expired then Unverified else u.health,
      cooldown,
      if expired || u.remainingQuotaPercent.None? then None
      else Some(if u.remainingQuotaPercent.value > 100 then 100 else u.remainingQuotaPercent.value),
      Past(u.lastProbeAt, now),
      Past(u.lastSuccessAt, now),
      Past(u.lastRateLimitAt, now),
      if expired then None else u.lastError)
  }

  /** `normalized`, field by field as the code assigns them. */
  method Normalize(u: UsageSnapshot, now: int64) returns (next: UsageSnapshot)
    ensures next == Normal(u, now)
  {
    next := u;
    if next.remainingQuotaPercent.Some? && next.remainingQuotaPercent.value > 100 {
      next := next.(remainingQuotaPercent := Some(100));
    }
    var hadCooldown := next.cooldown.Some?;
    next := next.(cooldown := Normalized1(next.cooldown, now));
    if hadCooldown && next.cooldown.None? && next.health.RateLimited? {
      next := next.(health := Unverified);
      next := next.(remainingQuotaPercent := None);
      next := next.(lastError := None);
    }
    if next.lastProbeAt.Some? && next.lastProbeAt.value > now { next := next.(lastProbeAt := None); }
    if next.lastSuccessAt.Some? && next.lastSuccessAt.value > now { next := next.(lastSuccessAt := None); }
    if next.lastRateLimitAt.Some? && next.lastRateLimitAt.value > now { next := next.(lastRateLimitAt := None); }
  }

  function DecideProbe(previous: UsageSnapshot, now: int64, force: bool): ProbeDecision {
    var u := Normal(previous, now);
    if InCooldown(u, now) then SkipCooldown
    else if force then Probe
    else if u.health.Unverified? then Probe
    else if u.lastProbeAt.None? || u.lastProbeAt.value > now then Probe
    else
      var age := SaturatingSub(now, u.lastProbeAt.value);
      var window :=
        if u.health.TransientFailure? || (u.lastError.Some? && IsTransportFailure(u.lastError.value))
        then TRANSIENT_BACKOFF_SECS else PROBE_TTL_SECS;
      if age < window then UseCached else Probe
  }

  function TransportFailureHealth(previous: HealthStatus): HealthStatus {
    if IsCredentialRejection(previous) then previous else TransientFailure
  }

  /** The health and error class an unsuccessful, not rate-limited outcome stands for. */
  function Verdict(outcome: ProbeOutcome, previous: HealthStatus): (HealthStatus, HealthErrorKind)
    requires !outcome.Http200? && !outcome.Http429?
  {
    match outcome
    case Http401(AuthorizedUser) => (RefreshRequired, Unauthorized)
    case Http401(_) => (AuthInvalid, Unauthorized)
    case Http400(AuthorizedUser) => (RefreshRequired, Unauthorized)
    case Http400(_) => (InvalidCredential, BadCredential)
    case Http403(_) => (PermissionDenied, Denied)
    case Http5xx(_) => (TransportFailureHealth(previous), ServerFailure)
    case OtherTransient => (TransportFailureHealth(previous), ServerFailure)
    case HttpUnexpected(_) => (TransportFailureHealth(previous), Gateway)
    case Timeout(_) => (TransportFailureHealth(previous), TimedOut)
    case Network(_) => (TransportFailureHealth(previous), NetworkDown)
    case JwtRefused => (InvalidCredential, InvalidJwt)
    case SigningFailed => (InvalidCredential, VertexSigning)
    case CredentialRefused => (InvalidCredential, BadCredential)
  }

  /** An observation older than the newest probe on record. */
  predicate Stale(previous: UsageSnapshot, observedAt: int64, now: int64) {
    previous.lastProbeAt.Some? && previous.lastProbeAt.value > Min(observedAt, now)
  }

  function Reduced(previous: UsageSnapshot, outcome: ProbeOutcome, observedAt: int64, now: int64): UsageSnapshot {
    var u := Normal(previous, now);
    var at := Min(observedAt, now);
    if Stale(previous, observedAt, now) then u
    else
      match outcome
      case Http200(_) =>
        u.(lastProbeAt := Some(at), health := Ready, cooldown := None, lastError := None,
           lastSuccessAt := Some(at), remainingQuotaPercent := None)
      case Http429(_, retry) =>
        var newest := NewCooldown(at, retry);
        var window :=
          if u.cooldown.Some? && IsActive(u.cooldown.value, now) then
            Some(u.cooldown.value.(lastEvidenceAt := Max(u.cooldown.value.lastEvidenceAt, at)))
          else if newest.until > now then Some(newest)
          else None;
        u.(lastProbeAt := Some(at), remainingQuotaPercent := None, lastRateLimitAt := Some(at), cooldown := window,
           health := if window.Some? then RateLimited else Unverified,
           lastError := if window.Some? then Some(Limited) else None)
      case _ =>
        var (health, error) := Verdict(outcome, previous.health);
        u.(lastProbeAt := Some(at), health := health, remainingQuotaPercent := None, lastError := Some(error),
           cooldown := if u.cooldown.Some? && IsActive(u.cooldown.value, now) then u.cooldown else None)
  }

  method ApplyError(usage: UsageSnapshot, health: HealthStatus, error: HealthErrorKind, now: int64)
    returns (next: UsageSnapshot)
    ensures next == usage.(health := health, remainingQuotaPercent := None, lastError := Some(error),
                           cooldown := if usage.cooldown.Some? && IsActive(usage.cooldown.value, now)
                                       then usage.cooldown else None)
  {
    next := usage.(health := health);
    if next.cooldown.Some? && !IsActive(next.cooldown.value, now) { next := next.(cooldown := None); }
    next := next.(remainingQuotaPercent := None);
    next := next.(lastError := Some(error));
  }

  /** `reduce_usage_observed`, with the assignments of the code in their order. */
  method ReduceUsageObserved(previous: UsageSnapshot, outcome: ProbeOutcome, observedAt: int64, now: int64)
    returns (next: UsageSnapshot)
    ensures next == Reduced(previous, outcome, observedAt, now)
  {
    next := Normalize(previous, now);
    var at := Min(observedAt, now);
    if previous.lastProbeAt.Some? && previous.lastProbeAt.value > at { return; }
    next := next.(lastProbeAt := Some(at));
    match outcome
    case Http200(_) =>
      next := next.(health := Ready);
      next := next.(cooldown := None);
      next := next.(lastError := None);
      next := next.(lastSuccessAt := Some(at));
      next := next.(remainingQuotaPercent := None);
    case Http429(_, retry) =>
      next := next.(health := RateLimited);
      next := next.(remainingQuotaPercent := None);
      next := next.(lastError := Some(Limited));
      next := next.(lastRateLimitAt := Some(at));
      if next.cooldown.Some? && IsActive(next.cooldown.value, now) {
        var open := next.cooldown.value;
        open := open.(lastEvidenceAt := Max(open.lastEvidenceAt, at));
        next := next.(cooldown := Some(open));
      } else {
        var newest := NewCooldown(at, retry);
        next := next.(cooldown := if newest.until > now then Some(newest) else None);
      }
      if next.cooldown.None? {
        next := next.(health := Unverified);
        next := next.(lastError := None);
      }
    case _ =>
      var (health, error) := Verdict(outcome, previous.health);
      next := ApplyError(next, health, error, now);
  }

  /** `validate_usage_snapshot` of src/core/state.rs. */
  predicate ValidUsage(u: UsageSnapshot) {
    && (u.remainingQuotaPercent.Some? ==> u.remainingQuotaPercent.value <= 100)
    && (u.health.Unverified? || u.health.TransientFailure? || IsCredentialRejection(u.health) ==>
          u.remainingQuotaPercent.None?)
    && (u.health.RateLimited? && u.remainingQuotaPercent.Some? ==> u.remainingQuotaPercent.value == 0)
    && (u.cooldown.Some? ==> u.health.RateLimited?)
  }

  /** The probe ended in neither a success nor a rate limit. */
  predicate IsFailure(outcome: ProbeOutcome) {
    !outcome.Http200? && !outcome.Http429?
  }

  /**
   The reducer keeps valid snapshots valid, with one exact exception: a fresh
   failure reduced inside an open cooldown leaves the window on a snapshot that
   is no longer rate-limited.
  */
  lemma ReducerClosure(u: UsageSnapshot, outcome: ProbeOutcome, observedAt: int64, now: int64)
    requires ValidUsage(u)
    ensures ValidUsage(Reduced(u, outcome, observedAt, now)) <==>
              !(InCooldown(u, now) && !Stale(u, observedAt, now) && IsFailure(outcome))
  {
  }

  /** One such case: a token is refused while a rate limit is still open. */
  lemma ClosureWitness()
    ensures var open := Some(Cooldown(0, 300, 0));
            var u := UsageSnapshot(None, RateLimited, open, None, Some(0), None, Some(0), Some(Limited));
            var v := Reduced(u, Http401(RawToken), 10, 10);
            ValidUsage(u) && !ValidUsage(v) && v.health == AuthInvalid && v.cooldown.Some?
  {
  }

  /** The guard callers use before probing rules that exception out, and nothing else does so needlessly. */
  lemma ProbeGuardSuffices(u: UsageSnapshot, now: int64, force: bool)
    ensures DecideProbe(u, now, force).SkipCooldown? <==> InCooldown(u, now)
    ensures ValidUsage(u) && !DecideProbe(u, now, force).SkipCooldown? ==>
              forall outcome, observedAt :: ValidUsage(Reduced(u, outcome, observedAt, now))
  {
    if ValidUsage(u) && !DecideProbe(u, now, force).SkipCooldown? {
      forall outcome, observedAt ensures ValidUsage(Reduced(u, outcome, observedAt, now)) {
        ReducerClosure(u, outcome, observedAt, now);
      }
    }
  }

  // ---- what the parts of the reducer mean

  /** A rate limit lasts as long as the server asks, from half a minute to an hour, and else five minutes. */
  lemma CooldownLength(at: int64, retry: Option<int64>)
    ensures NewCooldown(at, retry).startedAt == at && NewCooldown(at, retry).lastEvidenceAt == at
    ensures exists length: int64 ::
              && NewCooldown(at, retry).until == SaturatingAdd(at, length) && 30 <= length <= 3600
              && (retry.None? ==> length == 300)
              && (retry.Some? && 30 <= retry.value <= 3600 ==> length == retry.value)
              && (retry.Some? && retry.value < 30 ==> length == 30)
              && (retry.Some? && retry.value > 3600 ==> length == 3600)
  {
    var length := ClampRetryAfter(retry);
    assert NewCooldown(at, retry).until == SaturatingAdd(at, length);
  }

  /** A window counts from its start to its end, but no longer than an hour, and not on evidence from the future. */
  lemma CoolingExactly(u: UsageSnapshot, now: int64)
    ensures InCooldown(u, now) <==>
              && u.cooldown.Some?
              && u.cooldown.value.startedAt <= now && u.cooldown.value.lastEvidenceAt <= now
              && now < u.cooldown.value.until && now < SaturatingAdd(u.cooldown.value.startedAt, 3600)
  {
  }

  /** What a read leaves: nothing from the future, no more than all of a quota, and no window that is over. */
  lemma NormalMeans(u: UsageSnapshot, now: int64)
    ensures var v := Normal(u, now);
            && v.plan == u.plan
            && (v.cooldown.Some? <==> InCooldown(u, now))
            && (v.cooldown.Some? ==>
                  var old', kept := u.cooldown.value, v.cooldown.value;
                  && kept.startedAt == old'.startedAt
                  && kept.until == Min(old'.until, SaturatingAdd(old'.startedAt, 3600))
                  && kept.lastEvidenceAt == Max(old'.lastEvidenceAt, old'.startedAt))
            && (forall t | t in {(u.lastProbeAt, v.lastProbeAt), (u.lastSuccessAt, v.lastSuccessAt),
                                 (u.lastRateLimitAt, v.lastRateLimitAt)} ::
                  t.1 == if t.0.Some? && t.0.value <= now then t.0 else None)
            && (v.health != u.health ==> u.health.RateLimited? && v.health.Unverified?)
    // A rate limit whose window is over leaves an account of which nothing is known.
    ensures var v := Normal(u, now);
            if u.health.RateLimited? && u.cooldown.Some? && !InCooldown(u, now) then
              v.health.Unverified? && v.remainingQuotaPercent.None? && v.lastError.None?
            else
              && v.health == u.health && v.lastError == u.lastError
              && (v.remainingQuotaPercent.Some? <==> u.remainingQuotaPercent.Some?)
              && (u.remainingQuotaPercent.Some? ==>
                    v.remainingQuotaPercent.value <= u.remainingQuotaPercent.value
                    && v.remainingQuotaPercent.value <= 100
                    && (u.remainingQuotaPercent.value <= 100 ==> v.remainingQuotaPercent == u.remainingQuotaPercent))
    ensures Normal(Normal(u, now), now) == Normal(u, now)
  {
  }

  /** When a probe is spared: never for an unknown account or on demand, and else while the last one is fresh. */
  lemma CachedExactly(u: UsageSnapshot, now: int64, force: bool)
    ensures DecideProbe(u, now, force).UseCached? <==>
              var v := Normal(u, now);
              && !InCooldown(u, now) && !force && !v.health.Unverified? && v.lastProbeAt.Some?
              && SaturatingSub(now, v.lastProbeAt.value) <
                 if v.health.TransientFailure? || v.lastError in {Some(TimedOut), Some(NetworkDown), Some(Gateway),
                                                                  Some(ServerFailure)}
                 then 30 else 300
  {
  }

  /** The service was not reached, or answered with something else than a verdict on the credential. */
  predicate Inconclusive(outcome: ProbeOutcome) {
    match outcome
    case Timeout(_) => true
    case Network(_) => true
    case Http5xx(_) => true
    case HttpUnexpected(_) => true
    case OtherTransient => true
    case _ => false
  }

  /** Refused, but a refresh may help: only where the account has a refresh token. */
  predicate AsksForRefresh(outcome: ProbeOutcome) {
    outcome == Http401(AuthorizedUser) || outcome == Http400(AuthorizedUser)
  }

  /** What each class of outcomes says of the credential. */
  lemma VerdictsByClass(outcome: ProbeOutcome, previous: HealthStatus)
    requires !outcome.Http200? && !outcome.Http429?
    ensures var (health, error) := Verdict(outcome, previous);
            && (Inconclusive(outcome) <==> IsTransportFailure(error))
            && (Inconclusive(outcome) ==>
                  health == if previous in {AuthInvalid, PermissionDenied, InvalidCredential} then previous
                            else TransientFailure)
            && (AsksForRefresh(outcome) <==> health == RefreshRequired)
            && (!Inconclusive(outcome) && !AsksForRefresh(outcome) ==>
                  && IsCredentialRejection(health)
                  && (health == AuthInvalid <==> outcome.Http401?)
                  && (health == PermissionDenied <==> outcome.Http403?)
                  && (health == InvalidCredential <==>
                        || outcome.Http400? || outcome.JwtRefused? || outcome.SigningFailed?
                        || outcome.CredentialRefused?))
    ensures var error := Verdict(outcome, previous).1;
            && (error == TimedOut <==> outcome.Timeout?) && (error == NetworkDown <==> outcome.Network?)
            && (error == Gateway <==> outcome.HttpUnexpected?)
            && (error == ServerFailure <==> outcome.Http5xx? || outcome.OtherTransient?)
            && (error == Denied <==> outcome.Http403?)
            && (error == Unauthorized <==> outcome.Http401? || outcome == Http400(AuthorizedUser))
            && (error == InvalidJwt <==> outcome.JwtRefused?) && (error == VertexSigning <==> outcome.SigningFailed?)
            && (error == BadCredential <==>
                  outcome.CredentialRefused? || (outcome.Http400? && outcome != Http400(AuthorizedUser)))
  {
  }

  /** What a fresh observation leaves behind, whatever was known before. */
  lemma FreshObservation(u: UsageSnapshot, outcome: ProbeOutcome, observedAt: int64, now: int64)
    requires !Stale(u, observedAt, now)
    ensures var v, at := Reduced(u, outcome, observedAt, now), Min(observedAt, now);
            && v.lastProbeAt == Some(at) && v.remainingQuotaPercent.None? && v.plan == u.plan
            && (outcome.Http200? ==>
                  v.health == Ready && v.cooldown.None? && v.lastError.None? && v.lastSuccessAt == Some(at))
            && (!outcome.Http200? ==> v.lastSuccessAt == Normal(u, now).lastSuccessAt)
            && (outcome.Http429? ==> v.lastRateLimitAt == Some(at))
            && (!outcome.Http429? ==> v.lastRateLimitAt == Normal(u, now).lastRateLimitAt)
            && (IsFailure(outcome) ==>
                  && (v.health, v.lastError) == (Verdict(outcome, u.health).0, Some(Verdict(outcome, u.health).1))
                  && v.cooldown == Normal(u, now).cooldown)
    // A rate limit opens a window unless one is open or the new one would be over already.
    ensures outcome.Http429? ==>
              var v, at := Reduced(u, outcome, observedAt, now), Min(observedAt, now);
              var asked := NewCooldown(at, outcome.retryAfter);
              if InCooldown(u, now) then
                && v.health == RateLimited && v.lastError == Some(Limited)
                && v.cooldown.Some? && v.cooldown.value.startedAt == u.cooldown.value.startedAt
              else if asked.until > now then
                v.health == RateLimited && v.lastError == Some(Limited) && v.cooldown == Some(asked)
              else
                v.health == Unverified && v.lastError.None? && v.cooldown.None?
  {
  }

  /** A stale observation is a read. */
  lemma StaleObservation(u: UsageSnapshot, outcome: ProbeOutcome, observedAt: int64, now: int64)
    ensures u.lastProbeAt.Some? && u.lastProbeAt.value > observedAt ==>
              Reduced(u, outcome, observedAt, now) == Normal(u, now)
    ensures u.lastProbeAt.Some? && u.lastProbeAt.value > now ==> Reduced(u, outcome, observedAt, now) == Normal(u, now)
    ensures Stale(u, observedAt, now) ==>
              u.lastProbeAt.Some? && (u.lastProbeAt.value > observedAt || u.lastProbeAt.value > now)
  {
  }
}
