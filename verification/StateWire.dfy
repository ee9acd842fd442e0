/** The private wire records of the state document, as src/core/state_store.rs declares them. */
module StateWire {
  import opened Options
  import opened Int64
  import opened Health
  import opened StateModel

  datatype AccountV1Wire = AccountV1Wire(
    id: string,
    email: string,
    accountType: AccountType,
    providerId: Option<string>,
    projectId: Option<string>,
    accountId: Option<string>,
    identityFingerprint: Option<string>,
    plan: Option<string>,
    authPath: string,
    configPath: Option<string>,
    oauthToken: Option<string>,
    refreshToken: Option<string>,
    apiKey: Option<string>,
    addedAt: int64,
    updatedAt: int64,
    lastUsedAt: Option<int64>)

  datatype UsageV1Wire = UsageV1Wire(
    plan: Option<string>,
    status: string,
    cooldownUntil: Option<int64>,
    remainingQuotaPercent: Option<int64>,
    lastSyncedAt: Option<int64>,
    lastSyncError: Option<string>,
    needsRelogin: bool)

  datatype StateV1Wire = StateV1Wire(
    accounts: seq<AccountV1Wire>,
    usageCache: map<string, UsageV1Wire>,
    currentAccountId: Option<string>)

  datatype AccountV2Wire = AccountV2Wire(
    id: string,
    email: string,
    accountType: AccountType,
    providerId: Option<string>,
    projectId: Option<string>,
    accountId: Option<string>,
    plan: Option<string>,
    addedAt: int64,
    updatedAt: int64,
    lastUsedAt: Option<int64>,
    credentialRef: CredentialRef)

  datatype StateV2Wire = StateV2Wire(
    version: nat,
    revision: nat,
    accounts: seq<AccountV2Wire>,
    usageCache: map<string, UsageSnapshot>,
    currentAccountId: Option<string>,
    activeProfile: Option<ActiveProfile>,
    syncWatermarks: map<string, SyncWatermark>)
}
