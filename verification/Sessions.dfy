/** The current-session pointer over whole runs of atomic requests. */
module Sessions {
  import opened Common
  import opened Passwords
  import opened AuthModel

  ghost predicate Draws(e: Event) { e.req.Login? || e.req.Refresh? }

  /** Token identifiers are never drawn twice (section 4.1.7 of RFC 7519), nor stored at the start. */
  ghost predicate FreshDraws(r: Run)
    requires r.Valid()
  {
    && (forall i: nat, j: nat :: i < j < |r.events| && Draws(r.events[i]) && Draws(r.events[j]) ==>
          r.events[i].req.ids.refreshJti != r.events[j].req.ids.refreshJti)
    && (forall i: nat, a :: i < |r.events| && Draws(r.events[i]) && a in r.states[0].admins ==>
          r.states[0].admins[a].jti != Some(r.events[i].req.ids.refreshJti))
  }

  ghost function Pointer(r: Run, k: nat, a: AdminId): Option<Jti>
    requires r.Valid() && a in r.states[0].admins && k < |r.states|
  {
    RowAt(r, k, a).jti
  }

  lemma PointerStep(r: Run, k: nat, a: AdminId)
    requires r.Valid() && a in r.states[0].admins && k < |r.events|
    ensures
      || Pointer(r, k + 1, a) == Pointer(r, k, a)
      || Pointer(r, k + 1, a) == None
      || (Draws(r.events[k]) && Pointer(r, k + 1, a) == Some(r.events[k].req.ids.refreshJti))
    ensures RowAt(r, k + 1, a).status == RowAt(r, k, a).status
  {
    RowAtNext(r, k, a);
  }

  /** A stored identifier was stored at the start or drawn by an earlier request. */
  lemma {:induction false} PointerOrigin(r: Run, k: nat, a: AdminId) returns (m: nat)
    requires r.Valid() && a in r.states[0].admins && k < |r.states| && Pointer(r, k, a).Some?
    ensures
      || Pointer(r, 0, a) == Pointer(r, k, a)
      || (m < k && Draws(r.events[m]) && Some(r.events[m].req.ids.refreshJti) == Pointer(r, k, a))
  {
    m := 0;
    if k > 0 {
      PointerStep(r, k - 1, a);
      if Pointer(r, k, a) == Pointer(r, k - 1, a) {
        m := PointerOrigin(r, k - 1, a);
      } else {
        m := k - 1;
      }
    }
  }

  /** An identifier that stops being the stored pointer never becomes it again. */
  lemma {:induction false} PointerNeverReturns(r: Run, a: AdminId, i: nat, m: nat, k: nat)
    requires r.Valid() && FreshDraws(r) && a in r.states[0].admins && i <= m <= k < |r.states|
    requires Pointer(r, i, a).Some? && Pointer(r, m, a) != Pointer(r, i, a)
    ensures Pointer(r, k, a) != Pointer(r, i, a)
  {
    if m < k {
      PointerNeverReturns(r, a, i, m, k - 1);
      PointerStep(r, k - 1, a);
      var origin := PointerOrigin(r, i, a);
    }
  }

  lemma {:induction false} StatusFixed(r: Run, a: AdminId, k: nat)
    requires r.Valid() && a in r.states[0].admins && k < |r.states|
    ensures RowAt(r, k, a).status == RowAt(r, 0, a).status
  {
    if k > 0 {
      StatusFixed(r, a, k - 1);
      PointerStep(r, k - 1, a);
    }
  }

  // ---- Tokens against the pointer ----

  ghost predicate IssuesTo(r: Run, m: nat, a: AdminId)
    requires r.Valid() && m < |r.events|
  {
    LogsIn(r.cfg, r.states[m], r.events[m], a) || Refreshes(r.cfg, r.states[m], r.events[m], a)
  }

  ghost function PairAt(r: Run, m: nat, a: AdminId): TokenPair
    requires r.Valid() && m < |r.events| && IssuesTo(r, m, a)
  {
    Step(r.cfg, r.states[m], r.events[m]).reply.pair
  }

  /** The two tokens of a pair name the same session, and that session is the one stored. */
  lemma IssuedPairIsLinked(r: Run, m: nat, a: AdminId)
    requires r.Valid() && a in r.states[0].admins && m < |r.events| && IssuesTo(r, m, a)
    ensures var pair := PairAt(r, m, a);
      && pair.access.kind.AccessKind? && pair.refresh.kind.RefreshKind?
      && pair.access.user == pair.refresh.user == Some(a)
      && pair.access.rjti == pair.refresh.jti == Pointer(r, m + 1, a)
      && Pointer(r, m + 1, a) == Some(r.events[m].req.ids.refreshJti)
      && pair.access.exp == r.events[m].now + Minutes(r.cfg.accessTokenMinutes)
      && pair.refresh.exp == r.events[m].now + Days(r.cfg.refreshTokenDays)
      && pair.access.rexp == Some(pair.refresh.exp)
      && pair.access.permissions == r.events[m].req.permissions
    ensures RowAt(r, m + 1, a).status.Active?
  {
    AdminsFixed(r, m);
    RowAtNext(r, m, a);
  }

  /** A token of an issued pair is accepted in a later state exactly while its session is the
      stored one. */
  lemma AcceptedIffCurrent(r: Run, m: nat, a: AdminId, k: nat)
    requires r.Valid() && a in r.states[0].admins && m < k < |r.states| && IssuesTo(r, m, a)
    ensures var pair := PairAt(r, m, a);
      && (AdminFromPayload(r.states[k].admins, pair.access) == Allowed(a)
          <==> Pointer(r, k, a) == Pointer(r, m + 1, a))
      && (AdminFromPayload(r.states[k].admins, pair.refresh) == Allowed(a)
          <==> Pointer(r, k, a) == Pointer(r, m + 1, a))
  {
    IssuedPairIsLinked(r, m, a);
    AdminsFixed(r, k);
    StatusFixed(r, a, k);
    StatusFixed(r, a, m + 1);
  }

  /** The refresh token of an issued pair can be exchanged exactly while it has not expired and its
      session is the stored one. */
  lemma IssuedRefreshWorksIff(r: Run, m: nat, a: AdminId, k: nat)
    requires r.Valid() && a in r.states[0].admins && m < k < |r.events| && IssuesTo(r, m, a)
    requires r.events[k].req.Refresh? && r.events[k].req.token == Signed(PairAt(r, m, a).refresh)
    ensures Refreshes(r.cfg, r.states[k], r.events[k], a)
      <==> r.events[k].now < r.events[m].now + Days(r.cfg.refreshTokenDays) && Pointer(r, k, a) == Pointer(r, m + 1, a)
  {
    IssuedPairIsLinked(r, m, a);
    AcceptedIffCurrent(r, m, a, k);
  }

  lemma RefusedUnlessOwn(admins: map<AdminId, AdminRow>, claims: Claims, a: AdminId)
    requires claims.user == Some(a) && AdminFromPayload(admins, claims) != Allowed(a)
    ensures AdminFromPayload(admins, claims).Refused?
  {
  }

  /** Once the pointer has moved on from a session, both its tokens are refused for the rest of the
      run. */
  lemma EndedSessionStaysEnded(r: Run, a: AdminId, m: nat, k: nat, n: nat)
    requires r.Valid() && FreshDraws(r) && a in r.states[0].admins && m < k <= n < |r.states|
    requires IssuesTo(r, m, a) && Pointer(r, k, a) != Pointer(r, m + 1, a)
    ensures AdminFromPayload(r.states[n].admins, PairAt(r, m, a).access).Refused?
    ensures AdminFromPayload(r.states[n].admins, PairAt(r, m, a).refresh).Refused?
  {
    IssuedPairIsLinked(r, m, a);
    PointerNeverReturns(r, a, m + 1, k, n);
    AcceptedIffCurrent(r, m, a, n);
    RefusedUnlessOwn(r.states[n].admins, PairAt(r, m, a).access, a);
    RefusedUnlessOwn(r.states[n].admins, PairAt(r, m, a).refresh, a);
  }

  /** Only the pair issued last can be accepted: an older one is refused in every later state. */
  lemma OlderPairIsRefused(r: Run, a: AdminId, older: nat, newer: nat, k: nat)
    requires r.Valid() && FreshDraws(r) && a in r.states[0].admins && older < newer < k < |r.states|
    requires IssuesTo(r, older, a) && IssuesTo(r, newer, a)
    ensures AdminFromPayload(r.states[k].admins, PairAt(r, older, a).access).Refused?
    ensures AdminFromPayload(r.states[k].admins, PairAt(r, older, a).refresh).Refused?
  {
    PointerAfterIssue(r, older, a);
    PointerAfterIssue(r, newer, a);
    EndedSessionStaysEnded(r, a, older, newer + 1, k);
  }

  lemma PointerAfterIssue(r: Run, m: nat, a: AdminId)
    requires r.Valid() && a in r.states[0].admins && m < |r.events| && IssuesTo(r, m, a)
    ensures Draws(r.events[m]) && Pointer(r, m + 1, a) == Some(r.events[m].req.ids.refreshJti)
  {
    IssuedPairIsLinked(r, m, a);
  }

  /** Each refresh token is exchanged successfully at most once. */
  lemma RefreshTokenIsSingleUse(r: Run, a: AdminId, k1: nat, k2: nat)
    requires r.Valid() && FreshDraws(r) && a in r.states[0].admins && k1 < k2 < |r.events|
    requires Refreshes(r.cfg, r.states[k1], r.events[k1], a)
    requires r.events[k2].req.Refresh? && r.events[k2].req.token == r.events[k1].req.token
    ensures Step(r.cfg, r.states[k2], r.events[k2]).reply == Error(NotAuthenticated)
  {
    AdminsFixed(r, k1);
    AdminsFixed(r, k2);
    RowAtNext(r, k1, a);
    var claims := r.events[k1].req.token.claims;
    assert claims.jti == Pointer(r, k1, a);
    var m := PointerOrigin(r, k1, a);
    PointerNeverReturns(r, a, k1, k1 + 1, k2);
    StatusFixed(r, a, k1);
    StatusFixed(r, a, k2);
  }

  // ---- Recovery by a reset ----

  /** A request that reads or writes the row of `a`: a login for it, or a request that succeeds on it. */
  ghost predicate Touches(cfg: Settings, st: AuthState, e: Event, a: AdminId) {
    || (e.req.Login? && FindByEmail(cfg, st.admins, e.req.email) == Found(a))
    || Refreshes(cfg, st, e, a) || LogsOut(st, e, a) || Resets(cfg, st, e, a)
  }

  lemma {:induction false} UntouchedRow(r: Run, a: AdminId, i: nat, k: nat)
    requires r.Valid() && a in r.states[0].admins && i <= k < |r.states|
    requires forall m: nat :: i <= m < k ==> !Touches(r.cfg, r.states[m], r.events[m], a)
    ensures RowAt(r, k, a) == RowAt(r, i, a)
  {
    if i < k {
      UntouchedRow(r, a, i, k - 1);
      RowAtNext(r, k - 1, a);
      assert !Touches(r.cfg, r.states[k - 1], r.events[k - 1], a);
    }
  }

  /** After a completed reset the new password logs in and the replaced one fails, whatever lock or
      counter stood before, until another request touches the admin. */
  lemma ResetRestoresAccess(r: Run, a: AdminId, k: nat, n: nat)
    requires r.Valid() && a in r.states[0].admins && k < n < |r.events|
    requires Resets(r.cfg, r.states[k], r.events[k], a)
    requires forall m: nat :: k < m < n ==> !Touches(r.cfg, r.states[m], r.events[m], a)
    requires r.events[n].req.Login? && FindByEmail(r.cfg, r.states[n].admins, r.events[n].req.email) == Found(a)
    ensures r.events[n].req.password == r.events[k].req.newPassword ==> LogsIn(r.cfg, r.states[n], r.events[n], a)
    ensures VerifyPassword(r.events[n].req.password, RowAt(r, k, a).hash) ==>
      FailsCheck(r.cfg, r.states[n], r.events[n], a)
  {
    AdminsFixed(r, k);
    RowAtNext(r, k, a);
    UntouchedRow(r, a, k + 1, n);
    AdminsFixed(r, n);
    assert Step(r.cfg, r.states[n], r.events[n]) == LoginStep(r.cfg, r.states[n], r.events[n].now, r.events[n].req);
  }

  lemma {:induction false} RefusedForGood(r: Run, a: AdminId, claims: Claims, i: nat, k: nat, n: nat)
    requires r.Valid() && FreshDraws(r) && a in r.states[0].admins && i <= k <= n < |r.states|
    requires AdminFromPayload(r.states[i].admins, claims) == Allowed(a) && Pointer(r, k, a) != Pointer(r, i, a)
    ensures AdminFromPayload(r.states[n].admins, claims).Refused?
  {
    AdminsFixed(r, i);
    AdminsFixed(r, n);
    PointerNeverReturns(r, a, i, k, n);
  }

  /** A completed reset, and a logout, end every session opened before them for good: a token accepted
      in any earlier state of the run is refused in every later one. */
  lemma ResetOrLogoutEndsSessions(r: Run, a: AdminId, claims: Claims, i: nat, k: nat, n: nat)
    requires r.Valid() && FreshDraws(r) && a in r.states[0].admins && i <= k < n < |r.states|
    requires AdminFromPayload(r.states[i].admins, claims) == Allowed(a)
    requires Resets(r.cfg, r.states[k], r.events[k], a) || LogsOut(r.states[k], r.events[k], a)
    ensures AdminFromPayload(r.states[n].admins, claims).Refused?
  {
    AdminsFixed(r, i);
    RowAtNext(r, k, a);
    RefusedForGood(r, a, claims, i, k + 1, n);
  }

  /** In particular both tokens of a pair issued earlier in the run. */
  lemma ResetOrLogoutEndsOldSessions(r: Run, a: AdminId, m: nat, k: nat, n: nat)
    requires r.Valid() && FreshDraws(r) && a in r.states[0].admins && m < k < n < |r.states|
    requires IssuesTo(r, m, a)
    requires Resets(r.cfg, r.states[k], r.events[k], a) || LogsOut(r.states[k], r.events[k], a)
    ensures AdminFromPayload(r.states[n].admins, PairAt(r, m, a).access).Refused?
    ensures AdminFromPayload(r.states[n].admins, PairAt(r, m, a).refresh).Refused?
  {
    PointerAfterIssue(r, m, a);
    RowAtNext(r, k, a);
    EndedSessionStaysEnded(r, a, m, k + 1, n);
  }

  // ---- What a logout ends ----

  /** An unexpired access token of the admin, whatever session it names. */
  predicate IsAccessOf(token: Bearer, now: Time, a: AdminId) {
    token.Signed? && now < token.claims.exp && token.claims.kind.AccessKind? && token.claims.user == Some(a)
  }

  /** `logout` accepts any unexpired access token of an admin and clears the stored session. The token's
      own session is what it ends if and only if the token names the stored one; otherwise it ends
      another session, if there is one. */
  lemma LogoutEndsOwnSessionIff(st: AuthState, now: Time, token: Bearer, a: AdminId)
    requires IsAccessOf(token, now, a) && a in st.admins
    ensures var out := LogoutStep(st, now, Logout(token));
      && out == Outcome(Store(st, a, st.admins[a].(jti := None)), Done)
      && (SessionCurrent(st.admins[a], token.claims) && !SessionCurrent(out.state.admins[a], token.claims)
          <==> st.admins[a].jti.Some? && token.claims.rjti == st.admins[a].jti)
    ensures forall other: Claims ::
      SessionCurrent(st.admins[a], other) ==> !SessionCurrent(LogoutStep(st, now, Logout(token)).state.admins[a], other)
  {
  }

  /** A login with the right password opens a session for an active unlocked admin, who can then be
      found and log in the same way. */
  lemma GoodLogin(cfg: Settings, st: AuthState, t: Time, email: Email, password: string, ids: FreshIds, a: AdminId)
    requires FindByEmail(cfg, st.admins, email) == Found(a) && st.admins[a].status.Active?
    requires !LockedAt(st.admins[a], t) && VerifyPassword(password, st.admins[a].hash)
    ensures var row := st.admins[a].(failed := 0, lockedUntil := None, jti := Some(ids.refreshJti));
      && Step(cfg, st, Event(t, Login(email, password, ids, {}, false)))
           == Outcome(Store(st, a, row), Tokens(IssueTokens(cfg, a, t, ids, {})))
      && FindByEmail(cfg, Store(st, a, row).admins, email) == Found(a)
  {
    var row := st.admins[a].(failed := 0, lockedUntil := None, jti := Some(ids.refreshJti));
    assert Matches(cfg, Store(st, a, row).admins, email) == Matches(cfg, st.admins, email);
  }

  /** Two logins and a logout with the access token of the first: the session of the second ends. */
  lemma StaleLogoutEndsNewerSession(cfg: Settings, start: AuthState, email: Email, password: string, a: AdminId,
                                    first: FreshIds, second: FreshIds, t: Time) returns (r: Run)
    requires FindByEmail(cfg, start.admins, email) == Found(a) && start.admins[a].status.Active?
    requires !LockedAt(start.admins[a], t) && VerifyPassword(password, start.admins[a].hash)
    requires cfg.accessTokenMinutes > 0 && first.refreshJti != second.refreshJti
    ensures r.Valid() && r.cfg == cfg && r.states[0] == start && |r.events| == 3
    ensures IssuesTo(r, 0, a) && IssuesTo(r, 1, a)
    ensures r.events[2].req == Logout(Signed(PairAt(r, 0, a).access))
    ensures AdminFromPayload(r.states[2].admins, PairAt(r, 0, a).access).Refused?
    ensures AdminFromPayload(r.states[2].admins, PairAt(r, 1, a).access) == Allowed(a)
    ensures LogsOut(r.states[2], r.events[2], a)
    ensures AdminFromPayload(r.states[3].admins, PairAt(r, 1, a).access).Refused?
  {
    var stale := IssueTokens(cfg, a, t, first, {}).access;
    r := RunExists(cfg, start, [Event(t, Login(email, password, first, {}, false)),
                                Event(t, Login(email, password, second, {}, false)),
                                Event(t, Logout(Signed(stale)))]);
    assert r.StepAt(0) && r.StepAt(1) && r.StepAt(2);
    GoodLogin(cfg, r.states[0], t, email, password, first, a);
    GoodLogin(cfg, r.states[1], t, email, password, second, a);
    LogoutEndsOwnSessionIff(r.states[2], t, Signed(stale), a);
  }
}
