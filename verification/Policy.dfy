/** Account eligibility and selection of src/core/policy.rs. */
module Policy {
  import opened Options
  import opened Int64
  import opened StringOrder
  import opened Health
  import opened HealthRuns
  import opened StateModel

  datatype Eligibility = Primary | Secondary | Fallback | Degraded | Ineligible

  function Rank(e: Eligibility): Option<nat> {
    match e
    case Primary => Some(4)
    case Secondary => Some(3)
    case Fallback => Some(2)
    case Degraded => Some(1)
    case Ineligible => None
  }

  function EligibilityOf(
    account: AccountRecord, reference: Option<CredentialRef>, usage: Option<UsageSnapshot>, validated: bool, now: int64)
    : Eligibility
  {
    if reference.None? || !Compatible(account.accountType, reference.value.kind) then Ineligible
    else
      var u := if usage.Some? then usage.value else DEFAULT_USAGE;
      if u.remainingQuotaPercent == Some(0) || InCooldown(u, now) then Ineligible
      else
        match u.health
        case Ready => Primary
        case RefreshRequired => if reference.value.kind.OauthAuthorizedUser? then Secondary else Ineligible
        case Unverified => if validated then Fallback else Ineligible
        case TransientFailure => if validated && ProbeChannelUnreachable(u) then Degraded else Ineligible
        case _ => Ineligible
  }

  function TierOf(s: State, a: AccountRecord, validated: set<string>, now: int64): Eligibility {
    EligibilityOf(a, Lookup(s.credentialRefs, a.id), Lookup(s.usageCache, a.id), a.id in validated, now)
  }

  function SnapshotOf(s: State, a: AccountRecord): UsageSnapshot {
    if a.id in s.usageCache then s.usageCache[a.id] else DEFAULT_USAGE
  }

  // ---- scoring

  function ToLower(c: char): char {
    if 'A' <= c <= 'Z' then c + ('a' - 'A') else c
  }

  predicate OccursAt(text: string, word: string, i: int)
    requires 0 <= i <= |text| - |word|
  {
    forall k | 0 <= k < |word| :: ToLower(text[i + k]) == word[k]
  }

  predicate Contains(text: string, word: string) {
    exists i | 0 <= i <= |text| - |word| :: OccursAt(text, word, i)
  }

  predicate PaidPlan(plan: Option<string>) {
    plan.Some? && (Contains(plan.value, "pro") || Contains(plan.value, "advanced") || Contains(plan.value, "ultra"))
  }

  const FRESH_SECS: int64 := 24 * 60 * 60

  /** Used within the last day: what the freshness bonus is for. */
  predicate UsedToday(lastUsed: Option<int64>, now: int64) {
    lastUsed.Some? && lastUsed.value <= now && now - lastUsed.value < FRESH_SECS
  }

  /** The test as the code makes it: the subtraction is a plain 64-bit one, which wraps where it is not checked. */
  predicate CountsAsFresh(lastUsed: Option<int64>, now: int64) {
    lastUsed.Some? && lastUsed.value <= now && Wrapped(now - lastUsed.value) < FRESH_SECS
  }

  /** The age does not fit into 64 bits. */
  predicate AgeOverflows(lastUsed: Option<int64>, now: int64) {
    lastUsed.Some? && lastUsed.value <= now && now - lastUsed.value > Int64.MAX
  }

  /** The two agree exactly if the age fits; if it does not, an account unused for ages counts as fresh. */
  lemma FreshExactly(lastUsed: Option<int64>, now: int64)
    ensures (CountsAsFresh(lastUsed, now) <==> UsedToday(lastUsed, now)) <==> !AgeOverflows(lastUsed, now)
    ensures AgeOverflows(lastUsed, now) ==> CountsAsFresh(lastUsed, now) && !UsedToday(lastUsed, now)
  {
    if lastUsed.Some? && lastUsed.value <= now {
      var age := now - lastUsed.value;
      if age <= Int64.MAX {
        assert (age - Int64.MIN) % 0x1_0000_0000_0000_0000 == age - Int64.MIN;
      } else {
        assert (age - Int64.MIN) % 0x1_0000_0000_0000_0000 == age - Int64.MIN - 0x1_0000_0000_0000_0000;
      }
    }
  }

  /** No clock that shows a time after 1970 meets such an account, unless its last use lies before 1970. */
  lemma FreshWitness()
    ensures CountsAsFresh(Some(Int64.MIN), 0) && !UsedToday(Some(Int64.MIN), 0)
    ensures forall lastUsed: Option<int64>, now: int64 | lastUsed.Some? && lastUsed.value >= 0 && now >= 0 ::
              !AgeOverflows(lastUsed, now)
  {
    FreshExactly(Some(Int64.MIN), 0);
  }

  /** Everything the score adds on top of the tier. */
  function Bonus(a: AccountRecord, u: UsageSnapshot, now: int64): nat {
    (if u.remainingQuotaPercent.Some? then u.remainingQuotaPercent.value * 5 else 0)
    + (if a.accountType.OAuth? then 50 else 0)
    + (if PaidPlan(a.plan) then 100 else 0)
    + (if CountsAsFresh(a.lastUsedAt, now) then 10 else 0)
  }

  /** `score_account`, adding up as the code does. */
  method ScoreAccount(a: AccountRecord, u: UsageSnapshot, now: int64, tier: nat) returns (score: nat)
    ensures score == tier * 10_000 + Bonus(a, u, now)
  {
    score := tier * 10_000;
    if u.remainingQuotaPercent.Some? { score := score + u.remainingQuotaPercent.value * 5; }
    if a.accountType.OAuth? { score := score + 50; }
    if PaidPlan(a.plan) { score := score + 100; }
    if a.lastUsedAt.Some? && a.lastUsedAt.value <= now && Wrapped(now - a.lastUsedAt.value) < FRESH_SECS {
      score := score + 10;
    }
  }

  function ScoreOf(s: State, a: AccountRecord, validated: set<string>, now: int64): Option<nat> {
    match Rank(TierOf(s, a, validated, now))
    case None => None
    case Some(tier) => Some(tier * 10_000 + Bonus(a, SnapshotOf(s, a), now))
  }

  /** A quota byte is at most 255, so the bonuses never add up to a tier. */
  lemma TiersDominate(s: State, a: AccountRecord, b: AccountRecord, validated: set<string>, now: int64)
    requires Rank(TierOf(s, a, validated, now)).Some? && Rank(TierOf(s, b, validated, now)).Some?
    requires Rank(TierOf(s, a, validated, now)).value > Rank(TierOf(s, b, validated, now)).value
    requires SnapshotOf(s, b).remainingQuotaPercent.Some? ==> SnapshotOf(s, b).remainingQuotaPercent.value <= 255
    ensures ScoreOf(s, a, validated, now).value > ScoreOf(s, b, validated, now).value
  {
    assert Bonus(b, SnapshotOf(s, b), now) <= 255 * 5 + 160;
  }

  // ---- what eligibility and score mean

  /** The credential fits the account, quota is left, and no rate limit is open. */
  predicate Usable(s: State, a: AccountRecord, now: int64) {
    && a.id in s.credentialRefs
    && (var kind := s.credentialRefs[a.id].kind;
        || (a.accountType.OAuth? && (kind.OauthAccessToken? || kind.OauthAuthorizedUser?))
        || (a.accountType.ApiKey? && kind.ApiKeyRef?)
        || (a.accountType.Vertex? && kind.VertexServiceAccount?))
    && SnapshotOf(s, a).remainingQuotaPercent != Some(0) && !InCooldown(SnapshotOf(s, a), now)
  }

  /** The last probe got through. */
  predicate Probed(s: State, a: AccountRecord, now: int64) {
    Usable(s, a, now) && SnapshotOf(s, a).health == Ready
  }

  /** The access was refused, and the credential can be refreshed. */
  predicate Refreshable(s: State, a: AccountRecord, now: int64) {
    && Usable(s, a, now) && SnapshotOf(s, a).health == RefreshRequired
    && s.credentialRefs[a.id].kind.OauthAuthorizedUser?
  }

  /** Nothing is known but that the credential file is there. */
  predicate Unprobed(s: State, a: AccountRecord, validated: set<string>, now: int64) {
    Usable(s, a, now) && a.id in validated && SnapshotOf(s, a).health == Unverified
  }

  /** The probe did not get through to the service. */
  predicate NotReached(s: State, a: AccountRecord, validated: set<string>, now: int64) {
    && Usable(s, a, now) && a.id in validated && SnapshotOf(s, a).health == TransientFailure
    && SnapshotOf(s, a).lastError in {Some(TimedOut), Some(NetworkDown), Some(Gateway), Some(ServerFailure)}
  }

  /** Exactly these four kinds of accounts can be selected. */
  lemma EligibleExactly(s: State, a: AccountRecord, validated: set<string>, now: int64)
    ensures Rank(TierOf(s, a, validated, now)).Some? <==>
              || Probed(s, a, now) || Refreshable(s, a, now) || Unprobed(s, a, validated, now)
              || NotReached(s, a, validated, now)
  {
  }

  /** A quota byte. */
  predicate QuotaFits(s: State, a: AccountRecord) {
    var quota := SnapshotOf(s, a).remainingQuotaPercent;
    quota.Some? ==> quota.value <= 255
  }

  ghost predicate Beats(s: State, a: AccountRecord, b: AccountRecord, validated: set<string>, now: int64) {
    && ScoreOf(s, a, validated, now).Some? && ScoreOf(s, b, validated, now).Some?
    && ScoreOf(s, a, validated, now).value > ScoreOf(s, b, validated, now).value
  }

  /** Whatever the bonuses: a probed account beats a refreshable one, that an unprobed one, and that one not reached. */
  lemma HealthDecides(s: State, a: AccountRecord, b: AccountRecord, validated: set<string>, now: int64)
    requires QuotaFits(s, b)
    ensures Probed(s, a, now) && Refreshable(s, b, now) ==> Beats(s, a, b, validated, now)
    ensures Probed(s, a, now) && Unprobed(s, b, validated, now) ==> Beats(s, a, b, validated, now)
    ensures Probed(s, a, now) && NotReached(s, b, validated, now) ==> Beats(s, a, b, validated, now)
    ensures Refreshable(s, a, now) && Unprobed(s, b, validated, now) ==> Beats(s, a, b, validated, now)
    ensures Refreshable(s, a, now) && NotReached(s, b, validated, now) ==> Beats(s, a, b, validated, now)
    ensures Unprobed(s, a, validated, now) && NotReached(s, b, validated, now) ==> Beats(s, a, b, validated, now)
  {
    assert Bonus(b, SnapshotOf(s, b), now) <= 255 * 5 + 160;
  }

  /** What each bonus is worth, in points of quota: a paid plan 20, an OAuth account 10, a use within a day 2. */
  lemma ExchangeRates(a: AccountRecord, u: UsageSnapshot, now: int64, q: nat)
    ensures var with := (n: nat) => u.(remainingQuotaPercent := Some(n));
            && Bonus(a, with(q + 1), now) == Bonus(a, with(q), now) + 5
            && Bonus(a, with(0), now) == Bonus(a, u.(remainingQuotaPercent := None), now)
            && (PaidPlan(a.plan) ==> Bonus(a, with(q), now) == Bonus(a.(plan := None), with(q + 20), now))
            && (!PaidPlan(a.plan) ==> Bonus(a, with(q), now) == Bonus(a.(plan := None), with(q), now))
            && Bonus(a.(accountType := OAuth), with(q), now) == Bonus(a.(accountType := ApiKey), with(q + 10), now)
            && Bonus(a.(accountType := Vertex), with(q), now) == Bonus(a.(accountType := ApiKey), with(q), now)
            && Bonus(a, with(q), now) ==
               Bonus(a.(lastUsedAt := None), with(if CountsAsFresh(a.lastUsedAt, now) then q + 2 else q), now)
            && Bonus(a.(accountType := ApiKey, plan := None, lastUsedAt := None), with(0), now) == 0
  {
  }

  /** A paid plan has the first letter of one of the three words. */
  lemma NotPaid(plan: string)
    requires forall c <- plan :: ToLower(c) != 'p' && ToLower(c) != 'a' && ToLower(c) != 'u'
    ensures !PaidPlan(Some(plan))
  {
    forall word, i | word in {"pro", "advanced", "ultra"} && 0 <= i <= |plan| - |word|
      ensures !OccursAt(plan, word, i)
    {
      assert plan[i] in plan && ToLower(plan[i + 0]) != word[0];
    }
  }

  /** Which plans count as paid, by examples. */
  lemma PaidPlans()
    ensures PaidPlan(Some("Google AI Pro")) && PaidPlan(Some("ADVANCED")) && PaidPlan(Some("ultra"))
    ensures !PaidPlan(None) && !PaidPlan(Some("")) && !PaidPlan(Some("free")) && !PaidPlan(Some("none"))
  {
    assert OccursAt("Google AI Pro", "pro", 10) && OccursAt("ADVANCED", "advanced", 0) && OccursAt("ultra", "ultra", 0);
    NotPaid("free");
    NotPaid("none");
  }

  // ---- the order of the candidates

  datatype Candidate = Candidate(account: AccountRecord, usage: UsageSnapshot, score: nat)

  /** Higher scores first, then smaller ids. */
  predicate Before(a: Candidate, b: Candidate) {
    a.score > b.score || (a.score == b.score && Less(a.account.id, b.account.id))
  }

  predicate BeforeOrSame(a: Candidate, b: Candidate) {
    Before(a, b) || (a.score == b.score && a.account.id == b.account.id)
  }

  lemma OrderFacts(a: Candidate, b: Candidate, c: Candidate)
    ensures BeforeOrSame(a, b) || BeforeOrSame(b, a)
    ensures BeforeOrSame(a, b) && BeforeOrSame(b, c) ==> BeforeOrSame(a, c)
  {
    LessTotal(a.account.id, b.account.id);
    if Less(a.account.id, b.account.id) && Less(b.account.id, c.account.id) {
      LessTransitive(a.account.id, b.account.id, c.account.id);
    }
  }

  predicate Sorted(cs: seq<Candidate>) {
    forall i, j | 0 <= i < j < |cs| :: BeforeOrSame(cs[i], cs[j])
  }

  /** A stable insertion, one step of the sort. */
  method Insert(c: Candidate, cs: seq<Candidate>) returns (r: seq<Candidate>)
    requires Sorted(cs)
    ensures Sorted(r) && multiset(r) == multiset(cs) + multiset{c}
  {
    var i := |cs|;
    while i > 0 && Before(c, cs[i - 1])
      invariant 0 <= i <= |cs|
      invariant forall k | i <= k < |cs| :: BeforeOrSame(c, cs[k])
    {
      i := i - 1;
    }
    if i > 0 { LessTotal(c.account.id, cs[i - 1].account.id); }
    SortedAround(cs, i, c);
    r := cs[..i] + [c] + cs[i..];
    assert cs == cs[..i] + cs[i..];
  }

  lemma SortedAround(cs: seq<Candidate>, i: nat, c: Candidate)
    requires Sorted(cs) && i <= |cs|
    requires i > 0 ==> BeforeOrSame(cs[i - 1], c)
    requires forall k | i <= k < |cs| :: BeforeOrSame(c, cs[k])
    ensures Sorted(cs[..i] + [c] + cs[i..])
  {
    forall k | 0 <= k < i ensures BeforeOrSame(cs[k], c) {
      OrderFacts(cs[k], cs[i - 1], c);
    }
  }

  method SortCandidates(cs: seq<Candidate>) returns (r: seq<Candidate>)
    ensures Sorted(r) && multiset(r) == multiset(cs)
  {
    r := [];
    for i := 0 to |cs|
      invariant Sorted(r) && multiset(r) == multiset(cs[..i])
    {
      assert cs[..i + 1] == cs[..i] + [cs[i]];
      r := Insert(cs[i], r);
    }
    assert cs[..|cs|] == cs;
  }

  // ---- selection

  predicate Eligible(s: State, a: AccountRecord, validated: set<string>, now: int64) {
    !TierOf(s, a, validated, now).Ineligible?
  }

  predicate IsCurrent(s: State, a: AccountRecord) {
    s.currentAccountId == Some(a.id)
  }

  /** No eligible account scores higher, or the same with a smaller id. */
  ghost predicate IsBest(s: State, accounts: set<AccountRecord>, a: AccountRecord, validated: set<string>, now: int64) {
    && a in accounts && Eligible(s, a, validated, now)
    && forall b <- accounts | Eligible(s, b, validated, now) ::
         BeforeOrSame(
           Candidate(a, SnapshotOf(s, a), ScoreOf(s, a, validated, now).value),
           Candidate(b, SnapshotOf(s, b), ScoreOf(s, b, validated, now).value))
  }

  /** Which account the selection must return, said without any order of the list. */
  ghost predicate Chosen(
    s: State, accounts: set<AccountRecord>, a: Option<AccountRecord>, validated: set<string>, now: int64)
  {
    if exists c <- accounts :: IsCurrent(s, c) && Eligible(s, c, validated, now) then
      a.Some? && a.value in accounts && IsCurrent(s, a.value) && Eligible(s, a.value, validated, now)
    else
      match a
      case None => forall b <- accounts :: !Eligible(s, b, validated, now)
      case Some(best) => IsBest(s, accounts, best, validated, now)
  }

  /** The choice in terms of health: the current account while it is usable, and otherwise the best kind there is. */
  ghost predicate FollowsHealth(
    s: State, accounts: set<AccountRecord>, best: Option<AccountRecord>, validated: set<string>, now: int64)
  {
    if exists c <- accounts ::
         IsCurrent(s, c)
         && (Probed(s, c, now) || Refreshable(s, c, now) || Unprobed(s, c, validated, now)
             || NotReached(s, c, validated, now))
    then best.Some? && IsCurrent(s, best.value)
    else if exists c <- accounts :: Probed(s, c, now) then best.Some? && Probed(s, best.value, now)
    else if exists c <- accounts :: Refreshable(s, c, now) then best.Some? && Refreshable(s, best.value, now)
    else if exists c <- accounts :: Unprobed(s, c, validated, now) then
      best.Some? && Unprobed(s, best.value, validated, now)
    else if exists c <- accounts :: NotReached(s, c, validated, now) then
      best.Some? && NotReached(s, best.value, validated, now)
    else best.None?
  }

  lemma ChoiceFollowsHealth(
    s: State, accounts: set<AccountRecord>, best: Option<AccountRecord>, validated: set<string>, now: int64)
    requires Chosen(s, accounts, best, validated, now)
    requires forall c <- accounts :: QuotaFits(s, c)
    ensures FollowsHealth(s, accounts, best, validated, now)
  {
    forall c | c in accounts
      ensures Eligible(s, c, validated, now) <==>
                || Probed(s, c, now) || Refreshable(s, c, now) || Unprobed(s, c, validated, now)
                || NotReached(s, c, validated, now)
    {
      EligibleExactly(s, c, validated, now);
    }
    if best.Some? && IsBest(s, accounts, best.value, validated, now) {
      forall c | c in accounts && Eligible(s, c, validated, now) ensures !Beats(s, c, best.value, validated, now) {
      }
      forall c | c in accounts && Eligible(s, c, validated, now)
        ensures Probed(s, c, now) ==> Probed(s, best.value, now)
        ensures Refreshable(s, c, now) ==> Probed(s, best.value, now) || Refreshable(s, best.value, now)
        ensures Unprobed(s, c, validated, now) ==> !NotReached(s, best.value, validated, now)
      {
        HealthDecides(s, c, best.value, validated, now);
      }
    }
  }

  function ToSet(accounts: seq<AccountRecord>): set<AccountRecord> {
    set a | a in accounts
  }

  method FilterCandidates(s: State, accounts: seq<AccountRecord>, validated: set<string>, now: int64)
    returns (candidates: seq<Candidate>)
    ensures forall c <- candidates ::
              && c.account in accounts && Eligible(s, c.account, validated, now)
              && c == Candidate(c.account, SnapshotOf(s, c.account), ScoreOf(s, c.account, validated, now).value)
    ensures forall a <- accounts | Eligible(s, a, validated, now) ::
              Candidate(a, SnapshotOf(s, a), ScoreOf(s, a, validated, now).value) in candidates
  {
    candidates := [];
    for i := 0 to |accounts|
      invariant forall c <- candidates ::
                  && c.account in accounts && Eligible(s, c.account, validated, now)
                  && c == Candidate(c.account, SnapshotOf(s, c.account), ScoreOf(s, c.account, validated, now).value)
      invariant forall k | 0 <= k < i && Eligible(s, accounts[k], validated, now) ::
                  Candidate(accounts[k], SnapshotOf(s, accounts[k]), ScoreOf(s, accounts[k], validated, now).value)
                  in candidates
    {
      var a := accounts[i];
      var rank := Rank(TierOf(s, a, validated, now));
      if rank.Some? {
        var score := ScoreAccount(a, SnapshotOf(s, a), now, rank.value);
        candidates := candidates + [Candidate(a, SnapshotOf(s, a), score)];
      }
    }
  }

  /** The first account in list order with this id. */
  method FindAccount(accounts: seq<AccountRecord>, id: string) returns (found: Option<AccountRecord>)
    ensures found.Some? ==> found.value in accounts && found.value.id == id
    ensures found.None? ==> forall a <- accounts :: a.id != id
  {
    for i := 0 to |accounts|
      invariant forall k | 0 <= k < i :: accounts[k].id != id
    {
      if accounts[i].id == id { return Some(accounts[i]); }
    }
    return None;
  }

  /** Sort the candidates and take the first one. */
  method TopCandidate(candidates: seq<Candidate>) returns (top: Option<Candidate>)
    ensures top.None? <==> candidates == []
    ensures top.Some? ==> top.value in candidates && forall c <- candidates :: BeforeOrSame(top.value, c)
  {
    var sorted := SortCandidates(candidates);
    assert |sorted| == |multiset(sorted)| == |multiset(candidates)| == |candidates|;
    if sorted == [] { return None; }
    assert sorted[0] in multiset(candidates);
    forall c <- candidates ensures BeforeOrSame(sorted[0], c) {
      assert c in multiset(sorted);
      OrderFacts(c, c, c);
    }
    return Some(sorted[0]);
  }

  /** The current account, if it is listed and eligible. */
  method CurrentAccount(s: State, accounts: seq<AccountRecord>, validated: set<string>, now: int64)
    returns (current: Option<AccountRecord>)
    ensures current.Some? ==>
              current.value in accounts && IsCurrent(s, current.value) && Eligible(s, current.value, validated, now)
    ensures UniqueIds(accounts) && current.None? ==>
              forall a <- accounts :: !(IsCurrent(s, a) && Eligible(s, a, validated, now))
  {
    if s.currentAccountId.None? { return None; }
    current := FindAccount(accounts, s.currentAccountId.value);
    if UniqueIds(accounts) { SameIdSameAccount(accounts); }
    if current.Some? && Rank(TierOf(s, current.value, validated, now)).None? { current := None; }
  }

  method SelectBestAccount(s: State, accounts: seq<AccountRecord>, validated: set<string>, now: int64)
    returns (best: Option<(AccountRecord, UsageSnapshot)>)
    ensures UniqueIds(accounts) ==>
              Chosen(s, ToSet(accounts), if best.Some? then Some(best.value.0) else None, validated, now)
    ensures UniqueIds(accounts) && (forall a <- accounts :: QuotaFits(s, a)) ==>
              FollowsHealth(s, ToSet(accounts), if best.Some? then Some(best.value.0) else None, validated, now)
    ensures best.Some? ==>
              && best.value.0 in accounts && Eligible(s, best.value.0, validated, now)
              && best.value.1 == SnapshotOf(s, best.value.0)
  {
    best := None;
    if accounts != [] {
      var current := CurrentAccount(s, accounts, validated, now);
      if current.Some? {
        assert current.value in ToSet(accounts);
        best := Some((current.value, SnapshotOf(s, current.value)));
      } else {
        var candidates := FilterCandidates(s, accounts, validated, now);
        var top := TopCandidate(candidates);
        if top.Some? { best := Some((top.value.account, top.value.usage)); }
      }
    }
    if UniqueIds(accounts) && forall a <- accounts :: QuotaFits(s, a) {
      ChoiceFollowsHealth(s, ToSet(accounts), if best.Some? then Some(best.value.0) else None, validated, now);
    }
  }

  lemma SameIdSameAccount(accounts: seq<AccountRecord>)
    requires UniqueIds(accounts)
    ensures forall a, b | a in accounts && b in accounts && a.id == b.id :: a == b
  {
  }

  /** The choice is unique: it depends on which accounts there are, not on how they are listed. */
  lemma SelectionIsDeterministic(
    s: State, accounts: seq<AccountRecord>, accounts': seq<AccountRecord>,
    a: Option<AccountRecord>, b: Option<AccountRecord>, validated: set<string>, now: int64)
    requires UniqueIds(accounts) && multiset(accounts) == multiset(accounts')
    requires Chosen(s, ToSet(accounts), a, validated, now) && Chosen(s, ToSet(accounts'), b, validated, now)
    ensures a == b
  {
    assert ToSet(accounts) == ToSet(accounts') by {
      assert forall x :: x in accounts <==> x in multiset(accounts);
      assert forall x :: x in accounts' <==> x in multiset(accounts');
    }
    SameIdSameAccount(accounts);
    if a.Some? && b.Some? { LessTotal(a.value.id, b.value.id); }
  }

  // ---- transport failures and selectability

  /** Over any run of transport failures a rejected account is never selectable. */
  lemma RejectedStaysIneligible(
    account: AccountRecord, reference: Option<CredentialRef>, u: UsageSnapshot, events: seq<Event>,
    validated: bool, now: int64)
    requires IsCredentialRejection(u.health) && OnlyTransport(events)
    ensures EligibilityOf(account, reference, Some(Final(u, events)), validated, now) == Ineligible
  {
    RejectionStays(u, events);
  }

  /**
   A validated account that was not rejected is selectable, in the lowest tier,
   exactly while it is outside any cooldown, once a transport failure counted.
  */
  lemma UnreachedIsDegraded(
    account: AccountRecord, reference: CredentialRef, u: UsageSnapshot, events: seq<Event>, k: nat, now: int64)
    requires Compatible(account.accountType, reference.kind)
    requires !IsCredentialRejection(u.health) && OnlyTransport(events)
    requires k < |events| && events[k].Observe?
    requires !Stale(Final(u, events[..k]), events[k].observedAt, events[k].now)
    ensures var e := EligibilityOf(account, Some(reference), Some(Final(u, events)), true, now);
            e == if InCooldown(Final(u, events), now) then Ineligible else Degraded
  {
    UnreachedStays(u, events, k);
  }
}
