/** What each account request answers and stores, in terms of the tables and the settings alone. */
module AuthRequests {
  import opened Common
  import opened Passwords
  import opened AuthModel

  lemma Units(n: int)
    ensures Minutes(n) == n * 60 * 1_000_000 && Days(n) == Minutes(n * 24 * 60)
  {
  }

  // ---- Lookup by email ----

  /** A lookup finds an admin exactly when that admin's email, and no other's, folds to what was sent;
      it finds nobody exactly when none does. */
  lemma LookupFindsIff(cfg: Settings, admins: map<AdminId, AdminRow>, email: Email, a: AdminId)
    ensures FindByEmail(cfg, admins, email) == Found(a)
      <==> && a in admins && cfg.sqlLower(admins[a].email) == cfg.normalize(email)
           && forall b :: b in admins && cfg.sqlLower(admins[b].email) == cfg.normalize(email) ==> b == a
    ensures FindByEmail(cfg, admins, email).Absent?
      <==> forall b :: b in admins ==> cfg.sqlLower(admins[b].email) != cfg.normalize(email)
  {
    var hits := Matches(cfg, admins, email);
    if a in admins && cfg.sqlLower(admins[a].email) == cfg.normalize(email) {
      assert a in hits;
      if forall b :: b in admins && cfg.sqlLower(admins[b].email) == cfg.normalize(email) ==> b == a {
        assert hits == {a};
      }
    }
    if FindByEmail(cfg, admins, email) == Found(a) {
      forall b | b in admins && cfg.sqlLower(admins[b].email) == cfg.normalize(email) ensures b == a {
        assert b in hits;
      }
    }
    if hits != {} {
      var b :| b in hits;
      assert b in admins && cfg.sqlLower(admins[b].email) == cfg.normalize(email);
    }
    if b :| b in admins && cfg.sqlLower(admins[b].email) == cfg.normalize(email) {
      assert b in hits;
    }
  }

  lemma SameFoldSameLookup(cfg: Settings, admins: map<AdminId, AdminRow>, email: Email, other: Email)
    requires cfg.normalize(email) == cfg.normalize(other)
    ensures FindByEmail(cfg, admins, email) == FindByEmail(cfg, admins, other)
  {
    var hit, hit' := FindByEmail(cfg, admins, email), FindByEmail(cfg, admins, other);
    var a := if hit.Found? then hit.admin else if hit'.Found? then hit'.admin else 0;
    LookupFindsIff(cfg, admins, email, a);
    LookupFindsIff(cfg, admins, other, a);
  }

  /** Two spellings that fold to the same email log in alike. */
  lemma LoginIgnoresSpelling(cfg: Settings, st: AuthState, now: Time, email: Email, other: Email, password: string,
                             ids: FreshIds, permissions: set<string>, auditCommits: bool)
    requires cfg.normalize(email) == cfg.normalize(other)
    ensures Step(cfg, st, Event(now, Login(email, password, ids, permissions, auditCommits)))
         == Step(cfg, st, Event(now, Login(other, password, ids, permissions, auditCommits)))
  {
    SameFoldSameLookup(cfg, st.admins, email, other);
  }

  // ---- Tokens ----

  /** The claims of a pair: whose it is, which session, until when, and the permissions at issue. */
  lemma IssuedClaims(cfg: Settings, a: AdminId, now: Time, ids: FreshIds, permissions: set<string>)
    ensures var pair := IssueTokens(cfg, a, now, ids, permissions);
      && pair.refresh.user == pair.access.user == Some(a)
      && pair.refresh.kind == RefreshKind && pair.access.kind == AccessKind
      && pair.refresh.jti == pair.access.rjti == Some(ids.refreshJti) && pair.access.jti == Some(ids.accessJti)
      && pair.refresh.rjti == None && pair.refresh.rexp == None
      && pair.refresh.exp == now + cfg.refreshTokenDays * 86_400 * 1_000_000
      && pair.access.exp == now + cfg.accessTokenMinutes * 60 * 1_000_000 && pair.access.rexp == Some(pair.refresh.exp)
      && pair.access.permissions == permissions && pair.refresh.permissions == {}
  {
  }

  // ---- Login ----

  /** Only the row of `a` may differ, and it is `row` afterwards. */
  predicate OnlyRow(before: AuthState, after: AuthState, a: AdminId, row: AdminRow) {
    && after.otps == before.otps && after.history == before.history
    && after.admins.Keys == before.admins.Keys && a in after.admins && after.admins[a] == row
    && forall b :: b in before.admins && b != a ==> after.admins[b] == before.admins[b]
  }

  lemma UnknownLogin(cfg: Settings, st: AuthState, now: Time, email: Email, password: string, ids: FreshIds,
                     permissions: set<string>, audit: bool)
    ensures var out := Step(cfg, st, Event(now, Login(email, password, ids, permissions, audit)));
      && (FindByEmail(cfg, st.admins, email).Absent? ==> out == Outcome(st, Error(InvalidCredentials(None))))
      && (FindByEmail(cfg, st.admins, email).Ambiguous? ==> out == Outcome(st, Error(MultipleRows)))
  {
  }

  /** While the lock lasts, whatever the password. */
  lemma LoginWhileLocked(cfg: Settings, st: AuthState, now: Time, email: Email, a: AdminId, password: string,
                         ids: FreshIds, permissions: set<string>, audit: bool)
    requires FindByEmail(cfg, st.admins, email) == Found(a)
    requires st.admins[a].lockedUntil.Some? && now < st.admins[a].lockedUntil.value
    ensures Step(cfg, st, Event(now, Login(email, password, ids, permissions, audit)))
         == Outcome(st, Error(AccountLocked))
  {
    assert st.admins[a := st.admins[a]] == st.admins;
  }

  /** A wrong password counts from 0 again after an expired lock, and locks at the limit; whether the
      account is active plays no part. */
  lemma LoginWithWrongPassword(cfg: Settings, st: AuthState, now: Time, email: Email, a: AdminId, password: string,
                               ids: FreshIds, permissions: set<string>, audit: bool)
    requires FindByEmail(cfg, st.admins, email) == Found(a) && !VerifyPassword(password, st.admins[a].hash)
    requires st.admins[a].lockedUntil.Some? ==> st.admins[a].lockedUntil.value <= now
    ensures var out := Step(cfg, st, Event(now, Login(email, password, ids, permissions, audit)));
      var row := st.admins[a]; var count := if row.lockedUntil.Some? then 1 else row.failed + 1;
      if count < cfg.maxFailedLogins then
        && out.reply == Error(InvalidCredentials(Some(cfg.maxFailedLogins - count)))
        && OnlyRow(st, out.state, a, row.(failed := count, lockedUntil := None))
      else
        && out.reply == Error(AccountLocked)
        && OnlyRow(st, out.state, a,
                   row.(failed := 0, lockedUntil := Some(now + cfg.lockoutMinutes * 60 * 1_000_000)))
  {
  }

  /** The right password opens a session for an active account and says so for an inactive one, whose
      expired lock is stored as cleared only if the audit entry is written. */
  lemma LoginWithRightPassword(cfg: Settings, st: AuthState, now: Time, email: Email, a: AdminId, password: string,
                               ids: FreshIds, permissions: set<string>, audit: bool)
    requires FindByEmail(cfg, st.admins, email) == Found(a) && VerifyPassword(password, st.admins[a].hash)
    requires st.admins[a].lockedUntil.Some? ==> st.admins[a].lockedUntil.value <= now
    ensures var out := Step(cfg, st, Event(now, Login(email, password, ids, permissions, audit)));
      var row := st.admins[a];
      if row.status == Active then
        && out.reply == Tokens(IssueTokens(cfg, a, now, ids, permissions))
        && OnlyRow(st, out.state, a, row.(failed := 0, lockedUntil := None, jti := Some(ids.refreshJti)))
      else
        && out.reply == Error(AccountInactive)
        && OnlyRow(st, out.state, a,
                   if audit && row.lockedUntil.Some? then row.(failed := 0, lockedUntil := None) else row)
  {
  }

  // ---- Refresh and logout ----

  /** An unexpired token of the kind that names an existing admin. */
  predicate Names(st: AuthState, token: Bearer, now: Time, kind: Kind, a: AdminId) {
    && token.Signed? && now < token.claims.exp && token.claims.kind == kind && token.claims.user == Some(a)
    && a in st.admins
  }

  /** A refresh token rotates the session exactly when it names the stored one of an active admin. */
  lemma RefreshAnswers(cfg: Settings, st: AuthState, now: Time, token: Bearer, ids: FreshIds, permissions: set<string>,
                       a: AdminId)
    requires Names(st, token, now, RefreshKind, a)
    ensures var out := Step(cfg, st, Event(now, Refresh(token, ids, permissions))); var row := st.admins[a];
      if row.status != Active then out == Outcome(st, Error(AccountInactive))
      else if row.jti.Some? && token.claims.jti == row.jti then
        && out.reply == Tokens(IssueTokens(cfg, a, now, ids, permissions))
        && OnlyRow(st, out.state, a, row.(jti := Some(ids.refreshJti)))
      else out == Outcome(st, Error(NotAuthenticated))
  {
  }

  lemma OtherTokensRefused(cfg: Settings, st: AuthState, now: Time, token: Bearer, ids: FreshIds,
                           permissions: set<string>)
    ensures (forall a :: !Names(st, token, now, RefreshKind, a)) ==>
      Step(cfg, st, Event(now, Refresh(token, ids, permissions))) == Outcome(st, Error(NotAuthenticated))
    ensures (forall a :: !Names(st, token, now, AccessKind, a)) ==>
      Step(cfg, st, Event(now, Logout(token))) == Outcome(st, Error(NotAuthenticated))
  {
    if token.Signed? && token.claims.user.Some? {
      var a := token.claims.user.value;
      assert Names(st, token, now, RefreshKind, a) || Names(st, token, now, AccessKind, a)
        || now >= token.claims.exp || token.claims.kind == OtherKind || a !in st.admins;
    }
  }

  lemma LogoutAnswers(cfg: Settings, st: AuthState, now: Time, token: Bearer, a: AdminId)
    requires Names(st, token, now, AccessKind, a)
    ensures var out := Step(cfg, st, Event(now, Logout(token)));
      out.reply == Done && OnlyRow(st, out.state, a, st.admins[a].(jti := None))
  {
  }

  /** Why a token of the right kind is not accepted. */
  lemma PayloadRefusals(admins: map<AdminId, AdminRow>, claims: Claims)
    ensures AdminFromPayload(admins, claims) == Refused(AccountInactive)
      <==> claims.user.Some? && claims.user.value in admins && admins[claims.user.value].status == Inactive
    ensures AdminFromPayload(admins, claims).Allowed?
      <==> && claims.user.Some? && claims.user.value in admins && admins[claims.user.value].status == Active
           && admins[claims.user.value].jti.Some?
           && ((claims.kind == AccessKind && claims.rjti == admins[claims.user.value].jti)
               || (claims.kind == RefreshKind && claims.jti == admins[claims.user.value].jti))
    ensures AdminFromPayload(admins, claims).Refused? ==>
      AdminFromPayload(admins, claims).error in {AccountInactive, NotAuthenticated}
    ensures AdminFromPayload(admins, claims).Allowed? ==> AdminFromPayload(admins, claims).admin == claims.user.value
  {
  }

  // ---- Asking for a code ----

  /** An active admin is found under this email. */
  ghost predicate ActiveUnder(cfg: Settings, st: AuthState, email: Email) {
    exists a :: FindByEmail(cfg, st.admins, email) == Found(a) && st.admins[a].status == Active
  }

  /** A request for a code under any email that is not an active admin's is answered like a served one,
      and changes nothing. */
  lemma CodeRequestIsSilent(cfg: Settings, st: AuthState, now: Time, email: Email)
    requires !FindByEmail(cfg, st.admins, email).Ambiguous? && !ActiveUnder(cfg, st, email)
    ensures Step(cfg, st, Event(now, GenerateOtp(email))) == Outcome(st, Done)
  {
    var hit := FindByEmail(cfg, st.admins, email);
    if hit.Found? {
      assert FindByEmail(cfg, st.admins, email) == Found(hit.admin);
    }
  }

  /** A code request of an active admin, case by case. */
  lemma CodeRequestAnswers(cfg: Settings, st: AuthState, now: Time, email: Email)
    requires ActiveUnder(cfg, st, email)
    ensures var out := Step(cfg, st, Event(now, GenerateOtp(email)));
      var expiry := now + cfg.otpExpiryMinutes * 60 * 1_000_000;
      && out.state.admins == st.admins && out.state.history == st.history
      && if email !in st.otps || st.otps[email].windowStart + cfg.otpWindowMinutes * 60 * 1_000_000 <= now then
           out.reply == Done && out.state.otps == st.otps[email := OtpRow(expiry, 1, now, false)]
         else if st.otps[email].requestCount < cfg.otpMaxRequests then
           && out.reply == Done
           && out.state.otps == st.otps[email :=
                OtpRow(expiry, st.otps[email].requestCount + 1, st.otps[email].windowStart, false)]
         else out.reply == Error(OtpThrottled) && out.state.otps == st.otps
  {
    assert FindsActive(cfg, st.admins, email);
  }

  /** So the answer does not tell an unknown or inactive account from an active one with room left. */
  lemma CodeRequestTellsNothing(cfg: Settings, st: AuthState, now: Time, other: Email, email: Email)
    requires !FindByEmail(cfg, st.admins, other).Ambiguous? && !ActiveUnder(cfg, st, other)
    requires ActiveUnder(cfg, st, email)
    requires email !in st.otps || st.otps[email].windowStart + cfg.otpWindowMinutes * 60 * 1_000_000 <= now
      || st.otps[email].requestCount < cfg.otpMaxRequests
    ensures Step(cfg, st, Event(now, GenerateOtp(other))).reply == Step(cfg, st, Event(now, GenerateOtp(email))).reply
  {
    CodeRequestIsSilent(cfg, st, now, other);
    CodeRequestAnswers(cfg, st, now, email);
  }

  // ---- Verifying a code ----

  /** A verification succeeds exactly for an active admin, with the code, before the row expires; it sets
      the mark and changes nothing else, and one error covers all failures. */
  lemma VerifySucceedsIff(cfg: Settings, st: AuthState, now: Time, email: Email, otp: string)
    ensures var out := Step(cfg, st, Event(now, VerifyOtp(email, otp)));
      if ActiveUnder(cfg, st, email) && otp == "12345" && email in st.otps && now < st.otps[email].expiresAt then
        out == Outcome(st.(otps := st.otps[email := st.otps[email].(verified := true)]), Done)
      else
        out == Outcome(st, Error(if FindByEmail(cfg, st.admins, email).Ambiguous? then MultipleRows else InvalidOtp))
  {
    var hit := FindByEmail(cfg, st.admins, email);
    if hit.Found? {
      assert FindByEmail(cfg, st.admins, email) == Found(hit.admin);
    }
  }

  // ---- Resetting the password ----

  /** The new password is the current one or among the `depth` newest of the admin's history. */
  predicate Repeats(cfg: Settings, st: AuthState, a: AdminId, newPassword: string)
    requires a in st.admins
  {
    || st.admins[a].hash == HashPassword(newPassword)
    || exists h :: h in RecentFor(st.history, a, cfg.historyDepth) && h.hash == HashPassword(newPassword)
  }

  /** A reset without a live verified code of an active admin fails opaquely, one to a repeated password
      says so, and every other one stores the password, frees the account, ends the session and spends
      the code. */
  lemma ResetAnswers(cfg: Settings, st: AuthState, now: Time, email: Email, newPassword: string, rowId: nat, a: AdminId)
    requires FindByEmail(cfg, st.admins, email) == Found(a)
    ensures var out := Step(cfg, st, Event(now, UpdatePassword(email, newPassword, rowId))); var row := st.admins[a];
      if row.status != Active || email !in st.otps || !st.otps[email].verified || st.otps[email].expiresAt <= now then
        out == Outcome(st, Error(PasswordResetFailed))
      else if Repeats(cfg, st, a, newPassword) then out == Outcome(st, Error(PasswordReuse))
      else
        && out.reply == Done && out.state.otps == st.otps - {email}
        && out.state.admins == st.admins[a := AdminRow(row.email, HashPassword(newPassword), row.status, 0, None, None)]
        && out.state.history
             == Trim(st.history + [HistoryRow(rowId, a, row.hash, now)], a, cfg.historyDepth)
  {
    assert Repeats(cfg, st, a, newPassword) <==> Reused(cfg, st, a, newPassword) by {
      if h :| h in RecentFor(st.history, a, cfg.historyDepth) && h.hash == HashPassword(newPassword) {
        assert VerifyPassword(newPassword, h.hash);
      }
    }
  }

  lemma ResetOfNobody(cfg: Settings, st: AuthState, now: Time, email: Email, newPassword: string, rowId: nat)
    ensures var out := Step(cfg, st, Event(now, UpdatePassword(email, newPassword, rowId)));
      && (FindByEmail(cfg, st.admins, email).Absent? ==> out == Outcome(st, Error(PasswordResetFailed)))
      && (FindByEmail(cfg, st.admins, email).Ambiguous? ==> out == Outcome(st, Error(MultipleRows)))
  {
  }
}
