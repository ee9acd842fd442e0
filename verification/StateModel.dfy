/** The account state of src/core/state.rs and the invariants every reader and writer checks. */
module StateModel {
  import opened Options
  import opened Int64
  import opened Health

  const STATE_VERSION := 1
  const STATE_V2_VERSION := 2

  datatype AccountType = OAuth | ApiKey | Vertex

  datatype CredentialRefKind = OauthAccessToken | OauthAuthorizedUser | ApiKeyRef | VertexServiceAccount

  datatype CredentialRef = CredentialRef(kind: CredentialRefKind, fingerprint: string)

  datatype AccountRecord = AccountRecord(
    id: string,
    email: string,
    accountType: AccountType,
    providerId: Option<string>,
    projectId: Option<string>,
    accountId: Option<string>,
    identityFingerprint: Option<string>,
    plan: Option<string>,
    authPath: string,
    configPath: Option<string>,
    oauthToken: Option<string>,
    refreshToken: Option<string>,
    apiKey: Option<string>,
    addedAt: int64,
    updatedAt: int64,
    lastUsedAt: Option<int64>)

  datatype SlotState = Absent | Filled(sha256: string)

  datatype ManagedLayout = ManagedLayout(antigravityToken: SlotState, geminiAuthorizedUser: SlotState)

  datatype ActiveProfile = ActiveProfile(
    accountId: string,
    credentialFingerprint: string,
    homeScopeId: string,
    managedLayout: ManagedLayout)

  datatype SyncWatermark = SyncWatermark(generation: nat, semanticSha256: string)

  datatype State = State(
    version: nat,
    accounts: seq<AccountRecord>,
    usageCache: map<string, UsageSnapshot>,
    currentAccountId: Option<string>,
    revision: nat,
    activeProfile: Option<ActiveProfile>,
    syncWatermarks: map<string, SyncWatermark>,
    credentialRefs: map<string, CredentialRef>)

  const DEFAULT_STATE := State(STATE_VERSION, [], map[], None, 0, None, map[], map[])

  // ---- text shapes

  predicate IsLowerAlnum(c: char) {
    'a' <= c <= 'z' || '0' <= c <= '9'
  }

  predicate ValidAccountId(id: string) {
    && 1 <= |id| <= 64
    && IsLowerAlnum(id[0])
    && forall i | 1 <= i < |id| :: IsLowerAlnum(id[i]) || id[i] == '_' || id[i] == '-'
  }

  predicate IsLowerHex(c: char) {
    '0' <= c <= '9' || 'a' <= c <= 'f'
  }

  predicate ValidSha256(s: string) {
    |s| == 64 && forall c <- s :: IsLowerHex(c)
  }

  predicate ValidFingerprint(s: string) {
    "sha256:" <= s && ValidSha256(s[7..])
  }

  predicate IsControl(c: char) {
    c < ' ' || '\U{7f}' <= c <= '\U{9f}'
  }

  predicate ValidText(s: string) {
    |s| <= 16 * 1024 && forall c <- s :: !IsControl(c)
  }

  predicate ValidOptionalText(s: Option<string>) {
    s.Some? ==> ValidText(s.value)
  }

  predicate CanonicalUuid(s: string) {
    && |s| == 36
    && forall i | 0 <= i < 36 ::
         if i == 8 || i == 13 || i == 18 || i == 23 then s[i] == '-' else IsLowerHex(s[i])
  }

  // ---- invariants

  predicate Compatible(t: AccountType, kind: CredentialRefKind) {
    match t
    case OAuth => kind.OauthAccessToken? || kind.OauthAuthorizedUser?
    case ApiKey => kind.ApiKeyRef?
    case Vertex => kind.VertexServiceAccount?
  }

  predicate ValidSlot(s: SlotState) {
    s.Filled? ==> ValidSha256(s.sha256)
  }

  predicate ValidLayout(t: AccountType, kind: CredentialRefKind, layout: ManagedLayout) {
    && ValidSlot(layout.antigravityToken) && ValidSlot(layout.geminiAuthorizedUser)
    && match t
       case OAuth =>
         (match kind
          case OauthAccessToken => layout.antigravityToken.Filled? && layout.geminiAuthorizedUser.Absent?
          case OauthAuthorizedUser => layout.antigravityToken.Absent? && layout.geminiAuthorizedUser.Filled?
          case _ => false)
       case _ => layout == ManagedLayout(Absent, Absent)
  }

  predicate ValidAccount(s: State, a: AccountRecord) {
    && ValidAccountId(a.id) && ValidText(a.email)
    && ValidOptionalText(a.providerId) && ValidOptionalText(a.projectId)
    && ValidOptionalText(a.accountId) && ValidOptionalText(a.plan)
    && (s.version == STATE_V2_VERSION ==> a.id in s.credentialRefs)
    && (a.id in s.credentialRefs ==>
          && ValidFingerprint(s.credentialRefs[a.id].fingerprint)
          && Compatible(a.accountType, s.credentialRefs[a.id].kind))
  }

  predicate UniqueIds(accounts: seq<AccountRecord>) {
    forall i, j | 0 <= i < j < |accounts| :: accounts[i].id != accounts[j].id
  }

  function Ids(accounts: seq<AccountRecord>): set<string> {
    set a | a in accounts :: a.id
  }

  predicate ValidActiveProfile(s: State, p: ActiveProfile) {
    && s.version == STATE_V2_VERSION
    && ValidAccountId(p.accountId)
    && s.currentAccountId == Some(p.accountId)
    && p.accountId in s.credentialRefs
    && s.credentialRefs[p.accountId].fingerprint == p.credentialFingerprint
    && ValidSha256(p.homeScopeId)
    && exists a <- s.accounts ::
         a.id == p.accountId && ValidLayout(a.accountType, s.credentialRefs[p.accountId].kind, p.managedLayout)
  }

  /** `validate_state_invariants`, stated over the whole state at once. */
  predicate StateInvariants(s: State) {
    && (s.version == STATE_VERSION || s.version == STATE_V2_VERSION)
    && (forall a <- s.accounts :: ValidAccount(s, a))
    && UniqueIds(s.accounts)
    && (s.version == STATE_V2_VERSION ==> s.credentialRefs.Keys <= Ids(s.accounts))
    && (s.currentAccountId.Some? ==>
          ValidAccountId(s.currentAccountId.value) && s.currentAccountId.value in Ids(s.accounts))
    && (s.version == STATE_V2_VERSION ==> (s.currentAccountId.Some? <==> s.activeProfile.Some?))
    && (forall id <- s.usageCache :: ValidAccountId(id) && id in Ids(s.accounts) && ValidUsage(s.usageCache[id]))
    && (s.activeProfile.Some? ==> ValidActiveProfile(s, s.activeProfile.value))
    && (forall pool <- s.syncWatermarks ::
          CanonicalUuid(pool) && ValidSha256(s.syncWatermarks[pool].semanticSha256))
  }

  /** The loop of the validator: one pass over the accounts that collects their ids. */
  method CheckAccounts(s: State) returns (ok: bool, ids: set<string>)
    ensures ok <==> (forall a <- s.accounts :: ValidAccount(s, a)) && UniqueIds(s.accounts)
    ensures ok ==> ids == Ids(s.accounts)
  {
    ids := {};
    for i := 0 to |s.accounts|
      invariant forall k | 0 <= k < i :: ValidAccount(s, s.accounts[k])
      invariant UniqueIds(s.accounts[..i])
      invariant ids == Ids(s.accounts[..i])
    {
      var a := s.accounts[i];
      if !ValidAccount(s, a) { return false, ids; }
      if a.id in ids {
        var twin :| twin in s.accounts[..i] && twin.id == a.id;
        return false, ids;
      }
      assert s.accounts[..i + 1] == s.accounts[..i] + [a];
      assert forall k | 0 <= k < i :: s.accounts[..i][k].id in Ids(s.accounts[..i]);
      ids := ids + {a.id};
    }
    assert s.accounts[..|s.accounts|] == s.accounts;
    return true, ids;
  }

  method ValidateStateInvariants(s: State) returns (ok: bool)
    ensures ok <==> StateInvariants(s)
  {
    if s.version != STATE_VERSION && s.version != STATE_V2_VERSION { return false; }
    var accountsOk, ids := CheckAccounts(s);
    if !accountsOk { return false; }
    if s.version == STATE_V2_VERSION && !(s.credentialRefs.Keys <= ids) { return false; }
    if s.currentAccountId.Some? {
      var current := s.currentAccountId.value;
      if !ValidAccountId(current) || current !in ids { return false; }
    }
    if s.version == STATE_V2_VERSION && s.currentAccountId.Some? != s.activeProfile.Some? { return false; }
    if exists id <- s.usageCache :: !ValidAccountId(id) || id !in ids || !ValidUsage(s.usageCache[id]) {
      return false;
    }
    if s.activeProfile.Some? && !ValidActiveProfile(s, s.activeProfile.value) { return false; }
    return forall pool <- s.syncWatermarks ::
        CanonicalUuid(pool) && ValidSha256(s.syncWatermarks[pool].semanticSha256);
  }

  function IndexOf(accounts: seq<AccountRecord>, id: string): (i: nat)
    requires id in Ids(accounts)
    ensures i < |accounts| && accounts[i].id == id
    ensures forall k | 0 <= k < i :: accounts[k].id != id
  {
    if accounts[0].id == id then 0 else 1 + IndexOf(accounts[1..], id)
  }

  // ---- what the validator promises

  /** The credential of every account fits it. */
  lemma ReferencesFit(s: State, a: AccountRecord)
    requires StateInvariants(s) && a in s.accounts
    ensures s.version == 2 ==> a.id in s.credentialRefs
    ensures a.id in s.credentialRefs ==>
              var r := s.credentialRefs[a.id];
              && |r.fingerprint| == 71 && r.fingerprint[..7] == "sha256:"
              && (a.accountType == OAuth <==> r.kind in {OauthAccessToken, OauthAuthorizedUser})
              && (a.accountType == ApiKey <==> r.kind == ApiKeyRef)
              && (a.accountType == Vertex <==> r.kind == VertexServiceAccount)
  {
    assert ValidAccount(s, a);
  }

  /** Nothing is said of an account that is not there, and the current one is the one whose profile is active. */
  lemma OnlyKnownAccounts(s: State)
    requires StateInvariants(s)
    ensures s.version in {1, 2}
    ensures forall i, j | 0 <= i < j < |s.accounts| :: s.accounts[i].id != s.accounts[j].id
    ensures forall id | id in s.usageCache :: id in Ids(s.accounts) && ValidUsage(s.usageCache[id])
    ensures s.version == 2 ==> s.credentialRefs.Keys == Ids(s.accounts)
    ensures s.currentAccountId.Some? ==> s.currentAccountId.value in Ids(s.accounts)
    ensures s.version == 2 ==> (s.currentAccountId.Some? <==> s.activeProfile.Some?)
    ensures s.activeProfile.Some? ==>
              var p := s.activeProfile.value;
              && s.version == 2 && s.currentAccountId == Some(p.accountId) && p.accountId in s.credentialRefs
              && s.credentialRefs[p.accountId].fingerprint == p.credentialFingerprint
  {
    forall a | a in s.accounts ensures s.version == 2 ==> a.id in s.credentialRefs {
      ReferencesFit(s, a);
    }
  }

  /** The active home holds exactly the one slot that belongs to the kind of the credential. */
  lemma SlotsFit(s: State)
    requires StateInvariants(s) && s.activeProfile.Some?
    ensures var p := s.activeProfile.value;
            && p.accountId in s.credentialRefs
            && var kind := s.credentialRefs[p.accountId].kind;
               && (p.managedLayout.antigravityToken.Filled? <==> kind == OauthAccessToken)
               && (p.managedLayout.geminiAuthorizedUser.Filled? <==> kind == OauthAuthorizedUser)
  {
    var p := s.activeProfile.value;
    var a :| a in s.accounts && a.id == p.accountId
             && ValidLayout(a.accountType, s.credentialRefs[p.accountId].kind, p.managedLayout);
    ReferencesFit(s, a);
  }

  /** Which ids are accepted: up to 64 lower-case letters and digits, after the first also underscores and dashes. */
  lemma IdShapes(id: string)
    ensures (forall c <- id :: c == 'a') ==> (ValidAccountId(id) <==> 0 < |id| <= 64)
    ensures ValidAccountId(id) ==> 0 < |id| <= 64 && forall c <- id :: c in "abcdefghijklmnopqrstuvwxyz0123456789_-"
    ensures ValidAccountId("0a_-") && !ValidAccountId("_a") && !ValidAccountId("-a")
  {
    assert forall i | 0 <= i < |id| :: id[i] in id;
    assert "_a"[0] == '_' && "-a"[0] == '-';
  }

  /** Digests have 64 hexadecimal digits. */
  lemma DigestShapes(digits: string)
    ensures ValidSha256(digits) <==> |digits| == 64 && forall c <- digits :: c in "0123456789abcdef"
    ensures ValidFingerprint("sha256:" + digits) <==> ValidSha256(digits)
    ensures !ValidFingerprint(digits) || digits[..7] == "sha256:"
  {
    assert ("sha256:" + digits)[7..] == digits;
  }

  /** Texts have no control characters and at most 16384 characters. */
  lemma LineShapes(text: string)
    ensures (forall c <- text :: c == 'x' || c == ' ') ==> (ValidText(text) <==> |text| <= 16384)
    ensures ValidText(text) ==> '\n' !in text && '\t' !in text && '\U{7f}' !in text && '\U{85}' !in text
  {
  }
}
