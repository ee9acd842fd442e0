/** What becomes of a version 1 state document when src/core/state_store.rs reads it. */
module LegacyState {
  import opened Options
  import opened Int64
  import opened Health
  import opened StateModel
  import opened StateWire
  import opened StateCodec

  lemma {:induction false} TrimsLeft(pad: string, core: string)
    requires (forall c <- pad :: IsSpace(c)) && (core != "" ==> !IsSpace(core[0]))
    ensures TrimLeft(pad + core) == core
  {
    if pad == "" {
      assert pad + core == core;
    } else {
      assert pad[0] in pad && (pad + core)[1..] == pad[1..] + core;
      TrimsLeft(pad[1..], core);
    }
  }

  lemma {:induction false} TrimsRight(core: string, pad: string)
    requires (forall c <- pad :: IsSpace(c)) && (core != "" ==> !IsSpace(core[|core| - 1]))
    ensures TrimRight(core + pad) == core
  {
    if pad == "" {
      assert core + pad == core;
    } else {
      var n := |pad| - 1;
      assert pad[n] in pad && (core + pad)[..|core + pad| - 1] == core + pad[..n];
      TrimsRight(core, pad[..n]);
    }
  }

  /** Trimming takes the blanks around a word. */
  lemma Trims(left: string, core: string, right: string)
    requires (forall c <- left :: IsSpace(c)) && (forall c <- right :: IsSpace(c))
    requires core != "" ==> !IsSpace(core[0]) && !IsSpace(core[|core| - 1])
    ensures Trim(left + core + right) == core
  {
    if core == "" {
      TrimsLeft(left + right, "");
      assert left + core + right == left + right + "";
    } else {
      TrimsLeft(left, core + right);
      assert left + core + right == left + (core + right);
      TrimsRight(core, right);
    }
  }

  /** Words in any case and with blanks around them, and what health they stand for. */
  lemma MigratedWords(u: UsageV1Wire, left: string, core: string, right: string)
    requires (forall c <- left :: IsSpace(c)) && (forall c <- right :: IsSpace(c)) && u.status == left + core + right
    requires core != "" ==> !IsSpace(core[0]) && !IsSpace(core[|core| - 1])
    requires !u.needsRelogin && (u.lastSyncError.Some? ==> Trim(u.lastSyncError.value) == "")
    ensures var word, health := Lower(core), MigrateHealth(u);
            && (health == Ready <==> word == "ready")
            && (health == RefreshRequired <==> word in {"stale", "refresh_required"})
            && (health == RateLimited <==> word in {"ratelimited", "rate_limited"})
            && (health == AuthInvalid <==> word in {"expired", "autherror", "auth_invalid"})
            && (health == InvalidCredential <==> word in {"invalidkey", "invalid_credential"})
            && (health == PermissionDenied <==> word in {"permissiondenied", "permission_denied"})
            && (health == Unverified <==> word == "")
  {
    Trims(left, core, right);
  }

  lemma LowersEach(s: string, i: nat)
    requires i < |s|
    ensures |Lower(s)| == |s|
    ensures 'a' <= Lower(s)[i] <= 'z' <==> 'a' <= s[i] <= 'z' || 'A' <= s[i] <= 'Z'
    ensures 'A' <= s[i] <= 'Z' ==> Lower(s)[i] as int - 'a' as int == s[i] as int - 'A' as int
    ensures !('A' <= s[i] <= 'Z') ==> Lower(s)[i] == s[i]
  {
  }

  /** Blanks are blank, tabulator and the line ends. */
  lemma Spaces()
    ensures forall c :: IsSpace(c) <==> c in {' ', '\t', '\n', '\r', '\U{0b}', '\U{0c}'}
  {
  }

  /** A login that is needed, or an error, counts before any status. */
  lemma MigratedFailures(u: UsageV1Wire)
    ensures u.needsRelogin ==> MigrateHealth(u) == AuthInvalid
    ensures !u.needsRelogin && u.lastSyncError.Some? && Trim(u.lastSyncError.value) != "" ==>
              MigrateHealth(u) == TransientFailure
  {
  }

  /** What a migrated snapshot keeps of the old numbers. */
  lemma MigratedNumbers(u: UsageV1Wire)
    ensures var v := MigrateUsage(u);
            && v.plan == u.plan && v.health == MigrateHealth(u) && v.lastProbeAt == u.lastSyncedAt
            && v.lastSuccessAt == (if v.health == Ready then u.lastSyncedAt else None)
            && v.lastRateLimitAt == (if v.health == RateLimited then u.lastSyncedAt else None)
            && (v.remainingQuotaPercent.Some? <==>
                  u.remainingQuotaPercent.Some? && v.health in {Ready, RefreshRequired})
            && (v.remainingQuotaPercent.Some? && 0 <= u.remainingQuotaPercent.value <= 100 ==>
                  v.remainingQuotaPercent.value == u.remainingQuotaPercent.value)
            && (v.remainingQuotaPercent.Some? && u.remainingQuotaPercent.value < 0 ==>
                  v.remainingQuotaPercent == Some(0))
            && (v.remainingQuotaPercent.Some? ==> v.remainingQuotaPercent.value <= 100)
            && (v.cooldown.Some? <==> v.health == RateLimited && u.cooldownUntil.Some?)
            && (v.cooldown.Some? ==>
                  && v.cooldown.value.until == u.cooldownUntil.value
                  && v.cooldown.value.startedAt == v.cooldown.value.lastEvidenceAt
                  && v.cooldown.value.startedAt == u.lastSyncedAt.UnwrapOr(0))
    // A rejected or failed account carries the error that goes with its health.
    ensures var v := MigrateUsage(u);
            && (v.lastError == Some(Unauthorized) <==> v.health == AuthInvalid)
            && (v.lastError == Some(Denied) <==> v.health == PermissionDenied)
            && (v.lastError == Some(BadCredential) <==> v.health == InvalidCredential)
            && (v.lastError == Some(Limited) <==> v.health == RateLimited)
            && (v.lastError == Some(Unknown) <==> v.health == TransientFailure)
            && (v.lastError.None? <==> v.health in {Ready, RefreshRequired, Unverified})
  {
  }

  /** Migrated and written, an account has the public fields it had; its secrets stay in memory. */
  lemma MigratedAccountKeeps(a: AccountV1Wire, r: CredentialRef)
    ensures ToWire(MigrateAccount(a), r) ==
              AccountV2Wire(a.id, a.email, a.accountType, a.providerId, a.projectId, a.accountId, a.plan, a.addedAt,
                            a.updatedAt, a.lastUsedAt, r)
    ensures var b := MigrateAccount(a);
            && (b.oauthToken, b.refreshToken, b.apiKey) == (a.oauthToken, a.refreshToken, a.apiKey)
            && (b.authPath, b.configPath, b.identityFingerprint) == (a.authPath, a.configPath, a.identityFingerprint)
  {
  }

  /** The account that old versions left behind for a file that is none: named so, and without any secret. */
  predicate LeftBehind(a: AccountV1Wire) {
    && |a.email| == 15 && Lower(a.email) == "google_accounts"
    && a.oauthToken.None? && a.refreshToken.None? && a.apiKey.None?
  }

  lemma {:induction false} KeptExactly(accounts: seq<AccountV1Wire>)
    ensures forall a :: a in Kept(accounts) <==> a in accounts && !LeftBehind(a)
    ensures (forall a <- accounts :: !LeftBehind(a)) ==> Kept(accounts) == accounts
  {
    if accounts != [] {
      var n := |accounts| - 1;
      KeptExactly(accounts[..n]);
      assert accounts[n] in accounts && forall a <- accounts[..n] :: a in accounts;
      assert accounts == accounts[..n] + [accounts[n]];
    }
  }

  /** One account more: its own reference, if it yields one, and otherwise what was there. */
  lemma DerivesOneMore(accounts: seq<AccountV1Wire>, a: AccountV1Wire, text: Text, id: string)
    ensures Lookup(DeriveRefs(accounts + [a], text), id) ==
              if a.id == id && text.derive(a).Some? then text.derive(a) else Lookup(DeriveRefs(accounts, text), id)
  {
    assert (accounts + [a])[..|accounts|] == accounts;
  }

  /** The reference of an account is what its own secret yields, a later account with the id winning. */
  lemma {:induction false} DerivedExactly(accounts: seq<AccountV1Wire>, text: Text, id: string)
    ensures Lookup(DeriveRefs(accounts, text), id).Some? <==>
              exists a <- accounts :: a.id == id && text.derive(a).Some?
    ensures forall k | 0 <= k < |accounts| && accounts[k].id == id && text.derive(accounts[k]).Some?
                       && (forall l | k < l < |accounts| :: accounts[l].id != id || text.derive(accounts[l]).None?) ::
              Lookup(DeriveRefs(accounts, text), id) == text.derive(accounts[k])
  {
    if accounts != [] {
      var n := |accounts| - 1;
      assert accounts == accounts[..n] + [accounts[n]];
      DerivedExactly(accounts[..n], text, id);
      DerivesOneMore(accounts[..n], accounts[n], text, id);
    }
  }

  /** What a version 1 document becomes: every real account with its usage, and no trace of one left behind. */
  lemma MigratedDocument(w: StateV1Wire, text: Text)
    requires ParseV1(w, text).Ok?
    ensures var s := ParseV1(w, text).value.state;
            && s.version == 1 && s.revision == 0 && s.activeProfile.None? && s.syncWatermarks == map[]
            && (forall a <- w.accounts | !LeftBehind(a) :: MigrateAccount(a) in s.accounts)
            && (forall b <- s.accounts :: exists a <- w.accounts :: !LeftBehind(a) && b == MigrateAccount(a))
            && (forall id | id in w.usageCache && (forall a <- w.accounts | LeftBehind(a) :: a.id != id) ::
                  id in s.usageCache && s.usageCache[id] == MigrateUsage(w.usageCache[id]))
            && (forall id <- s.usageCache :: id in w.usageCache && forall a <- w.accounts | LeftBehind(a) :: a.id != id)
            && s.currentAccountId ==
               (if exists a <- w.accounts :: LeftBehind(a) && Some(a.id) == w.currentAccountId then None
                else w.currentAccountId)
  {
    MigratedAccounts(w, text);
    DroppedExactly(w.accounts);
  }

  lemma DroppedExactly(accounts: seq<AccountV1Wire>)
    ensures forall id :: id in Dropped(accounts) <==> exists a <- accounts :: LeftBehind(a) && a.id == id
  {
    assert forall a :: IsPlaceholder(a) <==> LeftBehind(a);
  }

  lemma MigratedAccounts(w: StateV1Wire, text: Text)
    ensures var s := DecodeV1(w, text);
            && (forall a <- w.accounts | !LeftBehind(a) :: MigrateAccount(a) in s.accounts)
            && (forall b <- s.accounts :: exists a <- w.accounts :: !LeftBehind(a) && b == MigrateAccount(a))
  {
    var kept := Kept(w.accounts);
    KeptExactly(w.accounts);
    var s := DecodeV1(w, text);
    forall a | a in w.accounts && !LeftBehind(a) ensures MigrateAccount(a) in s.accounts {
      var i :| 0 <= i < |kept| && kept[i] == a;
      assert s.accounts[i] == MigrateAccount(a);
    }
    forall b | b in s.accounts ensures exists a <- w.accounts :: !LeftBehind(a) && b == MigrateAccount(a) {
      var i :| 0 <= i < |kept| && s.accounts[i] == b;
      assert kept[i] in kept;
    }
  }
}
