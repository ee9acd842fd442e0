/** Encoding and parsing of the state document in src/core/state_store.rs. */
module StateCodec {
  import opened Options
  import opened Int64
  import opened Health
  import opened StateModel
  import opened StateWire
  import opened Documents

  const MAX_STATE_BYTES: nat := 16 * 1024 * 1024
  const MAX_ACCOUNTS: nat := 4096
  const MAX_USAGE_ENTRIES: nat := 4096
  const MAX_WATERMARKS: nat := 4096

  datatype Generation = Missing | Legacy | Current(number: nat)

  datatype Revision = Revision(generation: Generation, document: Option<Digest>)

  datatype MigrationStatus = NoMigration | NoState | LegacyV1

  datatype StateRead = StateRead(state: State, revision: Revision, migration: MigrationStatus)

  /** What the text layer contributes: the length of a document, and the reference a v1 secret yields. */
  datatype Text = Text(size: Bytes -> nat, derive: AccountV1Wire -> Option<CredentialRef>)

  // ---- version 2

  function ToWire(a: AccountRecord, reference: CredentialRef): AccountV2Wire {
    AccountV2Wire(a.id, a.email, a.accountType, a.providerId, a.projectId, a.accountId, a.plan,
                  a.addedAt, a.updatedAt, a.lastUsedAt, reference)
  }

  /** The secrets and paths of an account live only in memory. */
  function Blanked(a: AccountRecord): AccountRecord {
    a.(identityFingerprint := None, authPath := "", configPath := None,
       oauthToken := None, refreshToken := None, apiKey := None)
  }

  function FromWire(w: AccountV2Wire): AccountRecord {
    AccountRecord(w.id, w.email, w.accountType, w.providerId, w.projectId, w.accountId, None, w.plan,
                  "", None, None, None, None, w.addedAt, w.updatedAt, w.lastUsedAt)
  }

  function WireAccounts(accounts: seq<AccountRecord>, refs: map<string, CredentialRef>): (ws: seq<AccountV2Wire>)
    requires forall a <- accounts :: a.id in refs
    ensures |ws| == |accounts|
    ensures forall i | 0 <= i < |ws| :: ws[i] == ToWire(accounts[i], refs[accounts[i].id])
  {
    seq(|accounts|, i requires 0 <= i < |accounts| => ToWire(accounts[i], refs[accounts[i].id]))
  }

  predicate WithinLimits(accounts: nat, usage: nat, watermarks: nat) {
    accounts <= MAX_ACCOUNTS && usage <= MAX_USAGE_ENTRIES && watermarks <= MAX_WATERMARKS
  }

  function EncodeV2(s: State, text: Text): Result<Bytes, ()> {
    if s.version != STATE_V2_VERSION || !StateInvariants(s) then Err(())
    else if !WithinLimits(|s.accounts|, |s.usageCache|, |s.syncWatermarks|) then Err(())
    else
      var bytes := V2(StateV2Wire(STATE_V2_VERSION, s.revision, WireAccounts(s.accounts, s.credentialRefs),
                                  s.usageCache, s.currentAccountId, s.activeProfile, s.syncWatermarks));
      if text.size(bytes) > MAX_STATE_BYTES then Err(()) else Ok(bytes)
  }

  /** The reference map a reader collects; a later account wins over an earlier one with its id. */
  function CollectRefs(ws: seq<AccountV2Wire>): map<string, CredentialRef> {
    if ws == [] then map[]
    else CollectRefs(ws[..|ws| - 1])[ws[|ws| - 1].id := ws[|ws| - 1].credentialRef]
  }

  /** The reader's loop over the accounts: records and references side by side. */
  method ReadAccounts(ws: seq<AccountV2Wire>) returns (accounts: seq<AccountRecord>, refs: map<string, CredentialRef>)
    ensures |accounts| == |ws| && forall i | 0 <= i < |ws| :: accounts[i] == FromWire(ws[i])
    ensures refs == CollectRefs(ws)
  {
    accounts, refs := [], map[];
    for i := 0 to |ws|
      invariant |accounts| == i && forall k | 0 <= k < i :: accounts[k] == FromWire(ws[k])
      invariant refs == CollectRefs(ws[..i])
    {
      assert ws[..i + 1][..i] == ws[..i];
      refs := refs[ws[i].id := ws[i].credentialRef];
      accounts := accounts + [FromWire(ws[i])];
    }
    assert ws[..|ws|] == ws;
  }

  function DecodeV2(w: StateV2Wire): State {
    State(STATE_V2_VERSION, seq(|w.accounts|, i requires 0 <= i < |w.accounts| => FromWire(w.accounts[i])),
          w.usageCache, w.currentAccountId, w.revision, w.activeProfile, w.syncWatermarks, CollectRefs(w.accounts))
  }

  function ParseV2(w: StateV2Wire): Result<StateRead, ()> {
    if w.version != STATE_V2_VERSION || w.revision == 0 then Err(())
    else if !WithinLimits(|w.accounts|, |w.usageCache|, |w.syncWatermarks|) then Err(())
    else
      var s := DecodeV2(w);
      if !StateInvariants(s) then Err(())
      else Ok(StateRead(s, Revision(Current(w.revision), Some(Sha256(V2(w)))), NoMigration))
  }

  // ---- version 1

  function Lower(s: string): string {
    seq(|s|, i requires 0 <= i < |s| => if 'A' <= s[i] <= 'Z' then s[i] + ('a' - 'A') else s[i])
  }

  predicate IsSpace(c: char) {
    c == ' ' || '\t' <= c <= '\r'
  }

  function TrimLeft(s: string): string {
    if s != "" && IsSpace(s[0]) then TrimLeft(s[1..]) else s
  }

  function TrimRight(s: string): string {
    if s != "" && IsSpace(s[|s| - 1]) then TrimRight(s[..|s| - 1]) else s
  }

  function Trim(s: string): string {
    TrimRight(TrimLeft(s))
  }

  predicate IsPlaceholder(a: AccountV1Wire) {
    Lower(a.email) == "google_accounts" && a.oauthToken.None? && a.apiKey.None? && a.refreshToken.None?
  }

  function MigrateHealth(u: UsageV1Wire): HealthStatus {
    var status := Lower(Trim(u.status));
    if u.needsRelogin then AuthInvalid
    else if u.lastSyncError.Some? && Trim(u.lastSyncError.value) != "" then TransientFailure
    else if status == "ready" then Ready
    else if status == "stale" || status == "refresh_required" then RefreshRequired
    else if status == "ratelimited" || status == "rate_limited" then RateLimited
    else if status == "expired" || status == "autherror" || status == "auth_invalid" then AuthInvalid
    else if status == "invalidkey" || status == "invalid_credential" then InvalidCredential
    else if status == "permissiondenied" || status == "permission_denied" then PermissionDenied
    else if status == "" then Unverified
    else TransientFailure
  }

  function MigrateUsage(u: UsageV1Wire): UsageSnapshot {
    var health := MigrateHealth(u);
    var synced: int64 := if u.lastSyncedAt.Some? then u.lastSyncedAt.value else 0;
    UsageSnapshot(
      u.plan,
      health,
      if health.RateLimited? && u.cooldownUntil.Some?
      then Some(Cooldown(synced, u.cooldownUntil.value, synced))
      else None,
      if u.remainingQuotaPercent.Some? && (health.Ready? || health.RefreshRequired?)
      then Some(if u.remainingQuotaPercent.value < 0 then 0
                else if u.remainingQuotaPercent.value > 100 then 100
                else u.remainingQuotaPercent.value)
      else None,
      u.lastSyncedAt,
      if health.Ready? then u.lastSyncedAt else None,
      if health.RateLimited? then u.lastSyncedAt else None,
      match health
      case AuthInvalid => Some(Unauthorized)
      case PermissionDenied => Some(Denied)
      case InvalidCredential => Some(BadCredential)
      case RateLimited => Some(Limited)
      case TransientFailure => Some(Unknown)
      case _ => None)
  }

  /** Whatever a v1 file says, the migrated snapshot is valid and a failed probe stays non-ready. */
  lemma MigratedUsageIsValid(u: UsageV1Wire)
    ensures ValidUsage(MigrateUsage(u))
    ensures u.needsRelogin || (u.lastSyncError.Some? && Trim(u.lastSyncError.value) != "") ==>
              !MigrateUsage(u).health.Ready? && MigrateUsage(u).remainingQuotaPercent.None?
    ensures MigrateUsage(u).health.TransientFailure? ==> !ProbeChannelUnreachable(MigrateUsage(u))
  {
  }

  function MigrateAccount(a: AccountV1Wire): AccountRecord {
    AccountRecord(a.id, a.email, a.accountType, a.providerId, a.projectId, a.accountId, a.identityFingerprint,
                  a.plan, a.authPath, a.configPath, a.oauthToken, a.refreshToken, a.apiKey,
                  a.addedAt, a.updatedAt, a.lastUsedAt)
  }

  function Kept(accounts: seq<AccountV1Wire>): seq<AccountV1Wire> {
    if accounts == [] then []
    else if IsPlaceholder(accounts[|accounts| - 1]) then Kept(accounts[..|accounts| - 1])
    else Kept(accounts[..|accounts| - 1]) + [accounts[|accounts| - 1]]
  }

  function Dropped(accounts: seq<AccountV1Wire>): set<string> {
    set a | a in accounts && IsPlaceholder(a) :: a.id
  }

  function DeriveRefs(accounts: seq<AccountV1Wire>, text: Text): map<string, CredentialRef> {
    if accounts == [] then map[]
    else
      var last := accounts[|accounts| - 1];
      var refs := DeriveRefs(accounts[..|accounts| - 1], text);
      match text.derive(last)
      case None => refs
      case Some(r) => refs[last.id := r]
  }

  function DecodeV1(w: StateV1Wire, text: Text): State {
    var kept := Kept(w.accounts);
    var dropped := Dropped(w.accounts);
    State(STATE_VERSION,
          seq(|kept|, i requires 0 <= i < |kept| => MigrateAccount(kept[i])),
          map id | id in w.usageCache && id !in dropped :: MigrateUsage(w.usageCache[id]),
          if w.currentAccountId.Some? && w.currentAccountId.value in dropped then None else w.currentAccountId,
          0, None, map[], DeriveRefs(kept, text))
  }

  function ParseV1(w: StateV1Wire, text: Text): Result<StateRead, ()> {
    if |w.accounts| > MAX_ACCOUNTS || |w.usageCache| > MAX_USAGE_ENTRIES then Err(())
    else
      var s := DecodeV1(w, text);
      if !StateInvariants(s) then Err(())
      else Ok(StateRead(s, Revision(Legacy, Some(Sha256(V1(w)))), LegacyV1))
  }

  // ---- the document

  /** `parse_snapshot`: a missing document is an empty state without a digest. */
  function Parse(doc: Option<Bytes>, text: Text): Result<StateRead, ()> {
    match doc
    case None => Ok(StateRead(DEFAULT_STATE, Revision(Missing, None), NoState))
    case Some(bytes) =>
      if text.size(bytes) > MAX_STATE_BYTES then Err(())
      else
        match bytes
        case V1(w) => ParseV1(w, text)
        case V2(w) => ParseV2(w)
        case _ => Err(())
  }

  lemma LegacyRevision(w: StateV1Wire, text: Text)
    requires ParseV1(w, text).Ok?
    ensures ParseV1(w, text).value.revision == Revision(Legacy, Some(Sha256(V1(w))))
  {
  }

  lemma CurrentRevision(w: StateV2Wire)
    requires ParseV2(w).Ok?
    ensures ParseV2(w).value.revision == Revision(Current(w.revision), Some(Sha256(V2(w)))) && w.revision > 0
  {
  }

  /** A revision names exactly one document, and its number is the one inside it. */
  lemma RevisionNamesDocument(doc: Option<Bytes>, text: Text)
    requires Parse(doc, text).Ok?
    ensures var r := Parse(doc, text).value.revision;
            && r.document == DigestOf(doc)
            && (r.generation.Missing? <==> doc.None?)
            && (r.generation.Current? <==> doc.Some? && doc.value.V2?)
            && (doc.Some? && doc.value.V2? ==>
                  r.generation == Current(doc.value.state.revision) && r.generation.number > 0)
  {
    if doc.Some? && doc.value.V1? { LegacyRevision(doc.value.legacy, text); }
    if doc.Some? && doc.value.V2? { CurrentRevision(doc.value.state); }
  }

  lemma {:induction false} CollectedRefs(
    ws: seq<AccountV2Wire>, accounts: seq<AccountRecord>, refs: map<string, CredentialRef>)
    requires |ws| == |accounts| && UniqueIds(accounts)
    requires forall a <- accounts :: a.id in refs
    requires forall i | 0 <= i < |ws| :: ws[i] == ToWire(accounts[i], refs[accounts[i].id])
    ensures CollectRefs(ws).Keys == Ids(accounts)
    ensures forall id <- Ids(accounts) :: CollectRefs(ws)[id] == refs[id]
  {
    if ws != [] {
      var n := |ws| - 1;
      assert accounts == accounts[..n] + [accounts[n]];
      CollectedRefs(ws[..n], accounts[..n], refs);
      assert Ids(accounts) == Ids(accounts[..n]) + {accounts[n].id};
    }
  }

  lemma SameIds(accounts: seq<AccountRecord>, others: seq<AccountRecord>)
    requires |accounts| == |others| && forall i | 0 <= i < |accounts| :: accounts[i].id == others[i].id
    ensures Ids(accounts) == Ids(others)
  {
    forall id ensures id in Ids(accounts) <==> id in Ids(others) {
      if a :| a in accounts && a.id == id {
        var i :| 0 <= i < |accounts| && accounts[i] == a;
        assert others[i] in others;
      }
      if b :| b in others && b.id == id {
        var i :| 0 <= i < |others| && others[i] == b;
        assert accounts[i] in accounts;
      }
    }
  }

  function BlankedState(s: State): State {
    s.(accounts := seq(|s.accounts|, i requires 0 <= i < |s.accounts| => Blanked(s.accounts[i])))
  }

  lemma BlankedProfile(s: State, p: ActiveProfile)
    requires ValidActiveProfile(s, p)
    ensures ValidActiveProfile(BlankedState(s), p)
  {
    var t := BlankedState(s);
    var a :| a in s.accounts && a.id == p.accountId
             && ValidLayout(a.accountType, s.credentialRefs[p.accountId].kind, p.managedLayout);
    var i :| 0 <= i < |s.accounts| && s.accounts[i] == a;
    assert t.accounts[i] in t.accounts && t.accounts[i].id == p.accountId;
  }

  lemma BlankedInvariants(s: State)
    requires StateInvariants(s)
    ensures StateInvariants(BlankedState(s))
  {
    var t := BlankedState(s);
    SameIds(s.accounts, t.accounts);
    forall b <- t.accounts ensures ValidAccount(t, b) {
      var i :| 0 <= i < |t.accounts| && t.accounts[i] == b;
      assert ValidAccount(s, s.accounts[i]);
    }
    if s.activeProfile.Some? { BlankedProfile(s, s.activeProfile.value); }
  }

  /**
   Whatever the writer accepts the reader accepts, and it reads the same state
   back: only the in-memory secrets and paths are gone, the revision is the one
   written, and the references regrouped into the accounts form the same map.
  */
  lemma WriteThenRead(s: State, text: Text)
    requires EncodeV2(s, text).Ok? && s.revision > 0
    ensures var bytes := EncodeV2(s, text).value;
            Parse(Some(bytes), text) ==
              Ok(StateRead(BlankedState(s), Revision(Current(s.revision), Some(Sha256(bytes))), NoMigration))
  {
    var w := EncodeV2(s, text).value.state;
    DecodesBlanked(s, w);
    BlankedInvariants(s);
    assert ParseV2(w).Ok?;
  }

  lemma DecodesBlanked(s: State, w: StateV2Wire)
    requires s.version == STATE_V2_VERSION && StateInvariants(s)
    requires w == StateV2Wire(STATE_V2_VERSION, s.revision, WireAccounts(s.accounts, s.credentialRefs),
                              s.usageCache, s.currentAccountId, s.activeProfile, s.syncWatermarks)
    ensures DecodeV2(w) == BlankedState(s)
  {
    CollectedRefs(w.accounts, s.accounts, s.credentialRefs);
    assert CollectRefs(w.accounts) == s.credentialRefs;
  }

  /** Reading and writing back reproduces the record, so a state that was read has one record only. */
  lemma ReadThenWrite(w: StateV2Wire, text: Text)
    requires Parse(Some(V2(w)), text).Ok?
    ensures EncodeV2(Parse(Some(V2(w)), text).value.state, text) == Ok(V2(w))
  {
    var s := DecodeV2(w);
    Rewired(w.accounts, s.accounts);
  }

  lemma {:induction false} Rewired(ws: seq<AccountV2Wire>, accounts: seq<AccountRecord>)
    requires |accounts| == |ws| && UniqueIds(accounts)
    requires forall k | 0 <= k < |ws| :: accounts[k] == FromWire(ws[k])
    requires forall a <- accounts :: a.id in CollectRefs(ws)
    ensures WireAccounts(accounts, CollectRefs(ws)) == ws
  {
    forall i | 0 <= i < |ws| ensures ToWire(accounts[i], CollectRefs(ws)[accounts[i].id]) == ws[i] {
      assert accounts[i] in accounts;
      CollectedAt(ws, accounts, i);
    }
  }

  lemma {:induction false} CollectedAt(ws: seq<AccountV2Wire>, accounts: seq<AccountRecord>, i: nat)
    requires i < |ws| == |accounts| && UniqueIds(accounts)
    requires forall k | 0 <= k < |ws| :: accounts[k].id == ws[k].id
    ensures ws[i].id in CollectRefs(ws) && CollectRefs(ws)[ws[i].id] == ws[i].credentialRef
  {
    var n := |ws| - 1;
    if i < n { CollectedAt(ws[..n], accounts[..n], i); }
  }

  // ---- what is kept and what is lost

  /** Blanking takes the secrets and the paths, and nothing else. */
  lemma BlankingTakesSecrets(a: AccountRecord)
    ensures var b := Blanked(a);
            && b.authPath == "" && b.configPath.None? && b.oauthToken.None? && b.refreshToken.None?
            && b.apiKey.None? && b.identityFingerprint.None?
            && (b.id, b.email, b.accountType, b.plan) == (a.id, a.email, a.accountType, a.plan)
            && (b.providerId, b.projectId, b.accountId) == (a.providerId, a.projectId, a.accountId)
            && (b.addedAt, b.updatedAt, b.lastUsedAt) == (a.addedAt, a.updatedAt, a.lastUsedAt)
  {
  }

  /** No document holds more than 4096 accounts, snapshots or watermarks, or more than 16 MiB. */
  lemma DocumentsAreBounded(s: State, text: Text)
    ensures EncodeV2(s, text).Ok? ==>
              && |s.accounts| <= 4096 && |s.usageCache| <= 4096 && |s.syncWatermarks| <= 4096
              && text.size(EncodeV2(s, text).value) <= 16777216
    ensures s.version == 2 && StateInvariants(s) && EncodeV2(s, text).Err? ==>
              || |s.accounts| > 4096 || |s.usageCache| > 4096 || |s.syncWatermarks| > 4096
              || exists bytes: Bytes :: text.size(bytes) > 16777216
  {
  }
}
