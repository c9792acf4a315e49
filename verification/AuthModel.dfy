/** The account machine of app/services/auth_service.py as functions on its three tables.
    One request is one step; a run is a sequence of requests at non-decreasing times. */
module AuthModel {
  import opened Common
  import opened Passwords

  type AdminId = nat
  type Jti = nat
  type Email = string

  /** Microseconds, the resolution of the stored timestamps. */
  type Time = int

  function Minutes(n: int): int { n * 60_000_000 }

  function Days(n: int): int { n * 86_400_000_000 }

  /** app/core/config.py, with the two case foldings of the admin lookup as parameters. */
  datatype Settings = Settings(
    maxFailedLogins: int,
    lockoutMinutes: int,
    otpExpiryMinutes: int,
    otpMaxRequests: int,
    otpWindowMinutes: int,
    historyDepth: nat,
    accessTokenMinutes: int,
    refreshTokenDays: int,
    normalize: string -> string,
    sqlLower: string -> string)

  /** Hardcoded in the source until delivery is wired up. */
  const OTP_CODE: string := "12345"

  // ---- Tables ----

  datatype AdminRow = AdminRow(
    email: Email, hash: Hash, status: Status,
    failed: int, lockedUntil: Option<Time>, jti: Option<Jti>)

  datatype OtpRow = OtpRow(expiresAt: Time, requestCount: int, windowStart: Time, verified: bool)

  datatype HistoryRow = HistoryRow(id: nat, admin: AdminId, hash: Hash, createdAt: Time)

  datatype AuthState = AuthState(
    admins: map<AdminId, AdminRow>, otps: map<Email, OtpRow>, history: seq<HistoryRow>)

  // ---- Tokens (app/core/security.py) ----

  datatype Kind = AccessKind | RefreshKind | OtherKind

  /** Decoded claims; an absent claim, or a `user_id` that is not a UUID, is `None`. */
  datatype Claims = Claims(
    user: Option<AdminId>, kind: Kind, jti: Option<Jti>, rjti: Option<Jti>, exp: Time, rexp: Option<Time>,
    permissions: set<string>)

  /** What a client presents: a string whose signature fails, or signed claims. */
  datatype Bearer = Malformed | Signed(claims: Claims)

  datatype TokenPair = TokenPair(access: Claims, refresh: Claims)

  /** The two identifiers a request draws when it issues tokens. */
  datatype FreshIds = FreshIds(refreshJti: Jti, accessJti: Jti)

  /** `None` stands for `JWTError`; a token is rejected from its expiry on (section 4.1.4 of RFC 7519). */
  function Decode(token: Bearer, now: Time): Option<Claims> {
    match token
    case Malformed => None
    case Signed(claims) => if now < claims.exp then Some(claims) else None
  }

  function CreateRefreshToken(cfg: Settings, admin: AdminId, now: Time, jti: Jti): Claims {
    Claims(Some(admin), RefreshKind, Some(jti), None, now + Days(cfg.refreshTokenDays), None, {})
  }

  function CreateAccessToken(cfg: Settings, admin: AdminId, refresh: Claims, now: Time, jti: Jti,
                             permissions: set<string>): Claims {
    Claims(Some(admin), AccessKind, Some(jti), refresh.jti, now + Minutes(cfg.accessTokenMinutes), Some(refresh.exp),
           permissions)
  }

  function IssueTokens(cfg: Settings, admin: AdminId, now: Time, ids: FreshIds, permissions: set<string>): TokenPair {
    var refresh := CreateRefreshToken(cfg, admin, now, ids.refreshJti);
    TokenPair(CreateAccessToken(cfg, admin, refresh, now, ids.accessJti, permissions), refresh)
  }

  // ---- Replies ----

  datatype AuthError =
    | InvalidCredentials(remaining: Option<int>)
    | AccountLocked
    | AccountInactive
    | NotAuthenticated
    | InvalidOtp
    | OtpThrottled
    | PasswordResetFailed
    | PasswordReuse
    | MultipleRows  // scalar_one_or_none met two rows

  datatype Reply = Tokens(pair: TokenPair) | Done | Error(error: AuthError)

  /** What a request makes of a loaded admin row; `saved` says whether it commits the row itself. */
  datatype Decision = Decision(row: AdminRow, reply: Reply, saved: bool)

  // ---- Login ----

  predicate LockedAt(row: AdminRow, now: Time) {
    row.lockedUntil.Some? && row.lockedUntil.value > now
  }

  function ClearExpiredLock(row: AdminRow, now: Time): AdminRow {
    if row.lockedUntil.Some? && row.lockedUntil.value <= now
    then row.(lockedUntil := None, failed := 0)
    else row
  }

  function LoginDecision(cfg: Settings, admin: AdminId, row: AdminRow, password: string, now: Time,
                         ids: FreshIds, permissions: set<string>): Decision {
    if LockedAt(row, now) then
      Decision(row, Error(AccountLocked), false)
    else
      var r := ClearExpiredLock(row, now);
      if !VerifyPassword(password, r.hash) then
        if r.failed + 1 >= cfg.maxFailedLogins then
          Decision(r.(lockedUntil := Some(now + Minutes(cfg.lockoutMinutes)), failed := 0), Error(AccountLocked), true)
        else
          Decision(r.(failed := r.failed + 1),
                   Error(InvalidCredentials(Some(cfg.maxFailedLogins - (r.failed + 1)))), true)
      else if r.status != Active then
        Decision(r, Error(AccountInactive), false)
      else
        var pair := IssueTokens(cfg, admin, now, ids, permissions);
        Decision(r.(failed := 0, lockedUntil := None, jti := pair.refresh.jti), Tokens(pair), true)
  }

  // ---- Session checks ----

  predicate SessionCurrent(row: AdminRow, claims: Claims) {
    && row.jti.Some?
    && (claims.kind.AccessKind? || claims.kind.RefreshKind?)
    && (if claims.kind.AccessKind? then claims.rjti else claims.jti) == row.jti
  }

  datatype Resolution = Refused(error: AuthError) | Allowed(admin: AdminId)

  /** `get_admin_from_payload`. */
  function AdminFromPayload(admins: map<AdminId, AdminRow>, claims: Claims): (r: Resolution)
    ensures r.Allowed? ==> r.admin in admins
  {
    if claims.user.None? || claims.user.value !in admins then Refused(NotAuthenticated)
    else
      var row := admins[claims.user.value];
      if row.status != Active then Refused(AccountInactive)
      else if !SessionCurrent(row, claims) then Refused(NotAuthenticated)
      else Allowed(claims.user.value)
  }

  function RefreshDecision(cfg: Settings, admin: AdminId, row: AdminRow, now: Time, ids: FreshIds,
                           permissions: set<string>): Decision {
    var pair := IssueTokens(cfg, admin, now, ids, permissions);
    Decision(row.(jti := pair.refresh.jti), Tokens(pair), true)
  }

  function LogoutDecision(row: AdminRow): Decision {
    Decision(row.(jti := None), Done, true)
  }

  function ResetDecision(row: AdminRow, newPassword: string): Decision {
    Decision(row.(failed := 0, lockedUntil := None, jti := None, hash := HashPassword(newPassword)), Done, true)
  }

  // ---- Lookup by email ----

  datatype Lookup = Absent | Found(admin: AdminId) | Ambiguous

  function Matches(cfg: Settings, admins: map<AdminId, AdminRow>, email: Email): set<AdminId> {
    set a | a in admins && cfg.sqlLower(admins[a].email) == cfg.normalize(email)
  }

  ghost function FindByEmail(cfg: Settings, admins: map<AdminId, AdminRow>, email: Email): (r: Lookup)
    ensures r.Found? ==> r.admin in admins && Matches(cfg, admins, email) == {r.admin}
  {
    var hits := Matches(cfg, admins, email);
    if hits == {} then Absent
    else
      var a :| a in hits;
      if hits == {a} then Found(a) else Ambiguous
  }

  ghost predicate FindsActive(cfg: Settings, admins: map<AdminId, AdminRow>, email: Email) {
    var hit := FindByEmail(cfg, admins, email);
    hit.Found? && admins[hit.admin].status.Active?
  }

  // ---- One-time passwords ----

  function OtpOf(otps: map<Email, OtpRow>, email: Email): Option<OtpRow> {
    if email in otps then Some(otps[email]) else None
  }

  /** The row a request for a code leaves behind; `None` when it is throttled. */
  function NextOtpRow(cfg: Settings, row: Option<OtpRow>, now: Time): Option<OtpRow> {
    var expiry := now + Minutes(cfg.otpExpiryMinutes);
    match row
    case None => Some(OtpRow(expiry, 1, now, false))
    case Some(r) =>
      if now >= r.windowStart + Minutes(cfg.otpWindowMinutes) then Some(OtpRow(expiry, 1, now, false))
      else if r.requestCount >= cfg.otpMaxRequests then None
      else Some(r.(requestCount := r.requestCount + 1, expiresAt := expiry, verified := false))
  }

  // ---- Password history ----

  function HistoryOf(rows: seq<HistoryRow>, admin: AdminId): seq<HistoryRow> {
    if rows == [] then []
    else
      var earlier, last := HistoryOf(rows[..|rows| - 1], admin), rows[|rows| - 1];
      if last.admin == admin then earlier + [last] else earlier
  }

  /** ORDER BY created_at DESC; equal times come in the arbitrary but fixed order of the row ids. */
  predicate Newer(x: HistoryRow, y: HistoryRow) {
    x.createdAt > y.createdAt || (x.createdAt == y.createdAt && x.id > y.id)
  }

  function InsertNewest(x: HistoryRow, sorted: seq<HistoryRow>): seq<HistoryRow> {
    if sorted == [] || Newer(x, sorted[0]) then [x] + sorted
    else [sorted[0]] + InsertNewest(x, sorted[1..])
  }

  function NewestFirst(rows: seq<HistoryRow>): seq<HistoryRow> {
    if rows == [] then []
    else InsertNewest(rows[|rows| - 1], NewestFirst(rows[..|rows| - 1]))
  }

  function RecentFor(rows: seq<HistoryRow>, admin: AdminId, limit: nat): seq<HistoryRow> {
    var sorted := NewestFirst(HistoryOf(rows, admin));
    if |sorted| <= limit then sorted else sorted[..limit]
  }

  /** DELETE the rows of `admin` whose id is not in `keep`. */
  function DropOthers(rows: seq<HistoryRow>, admin: AdminId, keep: set<nat>): seq<HistoryRow> {
    if rows == [] then []
    else
      var earlier, last := DropOthers(rows[..|rows| - 1], admin, keep), rows[|rows| - 1];
      if last.admin == admin && last.id !in keep then earlier else earlier + [last]
  }

  function Ids(rows: seq<HistoryRow>): set<nat> { set h | h in rows :: h.id }

  function Trim(rows: seq<HistoryRow>, admin: AdminId, keep: nat): seq<HistoryRow> {
    var ids := Ids(RecentFor(rows, admin, keep));
    if ids == {} then rows else DropOthers(rows, admin, ids)
  }

  // ---- Password reset ----

  predicate Reused(cfg: Settings, st: AuthState, admin: AdminId, newPassword: string)
    requires admin in st.admins
  {
    || VerifyPassword(newPassword, st.admins[admin].hash)
    || exists h :: h in RecentFor(st.history, admin, cfg.historyDepth) && VerifyPassword(newPassword, h.hash)
  }

  ghost function ResetCheck(cfg: Settings, st: AuthState, email: Email, newPassword: string, now: Time): (r: Resolution)
    ensures r.Allowed? ==> r.admin in st.admins
  {
    var hit := FindByEmail(cfg, st.admins, email);
    if hit.Ambiguous? then Refused(MultipleRows)
    else if hit.Absent? || st.admins[hit.admin].status != Active then Refused(PasswordResetFailed)
    else if email !in st.otps || !st.otps[email].verified || now >= st.otps[email].expiresAt then
      Refused(PasswordResetFailed)
    else if Reused(cfg, st, hit.admin, newPassword) then Refused(PasswordReuse)
    else Allowed(hit.admin)
  }

  // The four commits of `update_password`, in order.

  function RecordOld(st: AuthState, admin: AdminId, rowId: nat, now: Time): AuthState
    requires admin in st.admins
  {
    st.(history := st.history + [HistoryRow(rowId, admin, st.admins[admin].hash, now)])
  }

  function TrimHistory(cfg: Settings, st: AuthState, admin: AdminId): AuthState {
    st.(history := Trim(st.history, admin, cfg.historyDepth))
  }

  function StoreReset(st: AuthState, admin: AdminId, newPassword: string): AuthState
    requires admin in st.admins
  {
    st.(admins := st.admins[admin := ResetDecision(st.admins[admin], newPassword).row])
  }

  function SpendOtp(st: AuthState, email: Email): AuthState {
    st.(otps := st.otps - {email})
  }

  /** The state after the first `n` commits. */
  function ResetCommits(cfg: Settings, st: AuthState, admin: AdminId, email: Email, newPassword: string,
                        rowId: nat, now: Time, n: nat): AuthState
    requires admin in st.admins
  {
    if n == 0 then st
    else if n == 1 then RecordOld(st, admin, rowId, now)
    else
      var trimmed := TrimHistory(cfg, RecordOld(st, admin, rowId, now), admin);
      if n == 2 then trimmed
      else if n == 3 then StoreReset(trimmed, admin, newPassword)
      else SpendOtp(StoreReset(trimmed, admin, newPassword), email)
  }

  // ---- Requests ----

  /** `permissions` is the outcome of the RBAC query at issue time; `auditCommits` says whether the
      audit write that follows a failed login commits the session. */
  datatype Request =
    | Login(email: Email, password: string, ids: FreshIds, permissions: set<string>, auditCommits: bool)
    | Refresh(token: Bearer, ids: FreshIds, permissions: set<string>)
    | Logout(token: Bearer)
    | GenerateOtp(email: Email)
    | VerifyOtp(email: Email, otp: string)
    | UpdatePassword(email: Email, newPassword: string, rowId: nat)

  datatype Event = Event(now: Time, req: Request)

  datatype Outcome = Outcome(state: AuthState, reply: Reply)

  function Store(st: AuthState, admin: AdminId, row: AdminRow): AuthState {
    st.(admins := st.admins[admin := row])
  }

  ghost function LoginStep(cfg: Settings, st: AuthState, now: Time, req: Request): Outcome
    requires req.Login?
  {
    match FindByEmail(cfg, st.admins, req.email)
    case Absent => Outcome(st, Error(InvalidCredentials(None)))
    case Ambiguous => Outcome(st, Error(MultipleRows))
    case Found(a) =>
      var d := LoginDecision(cfg, a, st.admins[a], req.password, now, req.ids, req.permissions);
      Outcome(if d.saved || req.auditCommits then Store(st, a, d.row) else st, d.reply)
  }

  function RefreshStep(cfg: Settings, st: AuthState, now: Time, req: Request): Outcome
    requires req.Refresh?
  {
    match Decode(req.token, now)
    case None => Outcome(st, Error(NotAuthenticated))
    case Some(claims) =>
      if !claims.kind.RefreshKind? then Outcome(st, Error(NotAuthenticated))
      else
        match AdminFromPayload(st.admins, claims)
        case Refused(error) => Outcome(st, Error(error))
        case Allowed(a) =>
          var d := RefreshDecision(cfg, a, st.admins[a], now, req.ids, req.permissions);
          Outcome(Store(st, a, d.row), d.reply)
  }

  function LogoutStep(st: AuthState, now: Time, req: Request): Outcome
    requires req.Logout?
  {
    match Decode(req.token, now)
    case None => Outcome(st, Error(NotAuthenticated))
    case Some(claims) =>
      if !claims.kind.AccessKind? || claims.user.None? || claims.user.value !in st.admins
      then Outcome(st, Error(NotAuthenticated))
      else
        var a := claims.user.value;
        Outcome(Store(st, a, LogoutDecision(st.admins[a]).row), Done)
  }

  ghost function GenerateOtpStep(cfg: Settings, st: AuthState, now: Time, req: Request): Outcome
    requires req.GenerateOtp?
  {
    if FindByEmail(cfg, st.admins, req.email).Ambiguous? then Outcome(st, Error(MultipleRows))
    else if !FindsActive(cfg, st.admins, req.email) then Outcome(st, Done)
    else
      match NextOtpRow(cfg, OtpOf(st.otps, req.email), now)
      case None => Outcome(st, Error(OtpThrottled))
      case Some(row) => Outcome(st.(otps := st.otps[req.email := row]), Done)
  }

  ghost function VerifyOtpStep(cfg: Settings, st: AuthState, now: Time, req: Request): Outcome
    requires req.VerifyOtp?
  {
    if FindByEmail(cfg, st.admins, req.email).Ambiguous? then Outcome(st, Error(MultipleRows))
    else if !FindsActive(cfg, st.admins, req.email) || req.otp != OTP_CODE then Outcome(st, Error(InvalidOtp))
    else if req.email !in st.otps || now >= st.otps[req.email].expiresAt then Outcome(st, Error(InvalidOtp))
    else Outcome(st.(otps := st.otps[req.email := st.otps[req.email].(verified := true)]), Done)
  }

  ghost function UpdatePasswordStep(cfg: Settings, st: AuthState, now: Time, req: Request): Outcome
    requires req.UpdatePassword?
  {
    match ResetCheck(cfg, st, req.email, req.newPassword, now)
    case Refused(error) => Outcome(st, Error(error))
    case Allowed(a) =>
      Outcome(ResetCommits(cfg, st, a, req.email, req.newPassword, req.rowId, now, 4), Done)
  }

  ghost function Step(cfg: Settings, st: AuthState, e: Event): Outcome {
    match e.req
    case Login(_, _, _, _, _) => LoginStep(cfg, st, e.now, e.req)
    case Refresh(_, _, _) => RefreshStep(cfg, st, e.now, e.req)
    case Logout(_) => LogoutStep(st, e.now, e.req)
    case GenerateOtp(_) => GenerateOtpStep(cfg, st, e.now, e.req)
    case VerifyOtp(_, _) => VerifyOtpStep(cfg, st, e.now, e.req)
    case UpdatePassword(_, _, _) => UpdatePasswordStep(cfg, st, e.now, e.req)
  }

  // ---- What a step does, seen from outside ----

  /** A password check was made for `a` and failed. */
  ghost predicate FailsCheck(cfg: Settings, st: AuthState, e: Event, a: AdminId) {
    && e.req.Login? && FindByEmail(cfg, st.admins, e.req.email) == Found(a)
    && !LockedAt(st.admins[a], e.now)
    && !VerifyPassword(e.req.password, st.admins[a].hash)
  }

  ghost predicate LogsIn(cfg: Settings, st: AuthState, e: Event, a: AdminId) {
    && e.req.Login? && FindByEmail(cfg, st.admins, e.req.email) == Found(a)
    && Step(cfg, st, e).reply.Tokens?
  }

  ghost predicate Refreshes(cfg: Settings, st: AuthState, e: Event, a: AdminId) {
    && e.req.Refresh? && e.req.token.Signed? && e.req.token.claims.user == Some(a)
    && Step(cfg, st, e).reply.Tokens?
  }

  /** A password reset for `a` was completed. */
  ghost predicate Resets(cfg: Settings, st: AuthState, e: Event, a: AdminId) {
    e.req.UpdatePassword? && ResetCheck(cfg, st, e.req.email, e.req.newPassword, e.now) == Allowed(a)
  }

  /** A password reset under the code key `key` was completed. */
  ghost predicate ResetsKey(cfg: Settings, st: AuthState, e: Event, key: Email) {
    e.req.UpdatePassword? && e.req.email == key && ResetCheck(cfg, st, key, e.req.newPassword, e.now).Allowed?
  }

  /** A code was issued for `key`. */
  ghost predicate IssuesOtp(cfg: Settings, st: AuthState, e: Event, key: Email) {
    && e.req.GenerateOtp? && e.req.email == key && FindsActive(cfg, st.admins, key)
    && Step(cfg, st, e).reply.Done?
  }

  ghost predicate VerifiesOtp(cfg: Settings, st: AuthState, e: Event, key: Email) {
    e.req.VerifyOtp? && e.req.email == key && Step(cfg, st, e).reply.Done?
  }

  ghost predicate LogsOut(st: AuthState, e: Event, a: AdminId) {
    && e.req.Logout? && e.req.token.Signed? && e.req.token.claims.user == Some(a)
    && LogoutStep(st, e.now, e.req).reply.Done?
  }

  /** A refused login to an inactive account whose expired lock the audit write persists as cleared. */
  ghost predicate ClearsLockOnly(cfg: Settings, st: AuthState, e: Event, a: AdminId) {
    && e.req.Login? && FindByEmail(cfg, st.admins, e.req.email) == Found(a)
    && e.req.auditCommits && !LockedAt(st.admins[a], e.now)
    && VerifyPassword(e.req.password, st.admins[a].hash) && st.admins[a].status != Active
  }

  /** The row of one admin after a request, by what the request was for that admin. */
  ghost function NextRow(cfg: Settings, st: AuthState, e: Event, a: AdminId): AdminRow
    requires a in st.admins
  {
    var row := st.admins[a];
    if FailsCheck(cfg, st, e, a) then
      LoginDecision(cfg, a, row, e.req.password, e.now, e.req.ids, e.req.permissions).row
    else if LogsIn(cfg, st, e, a) then row.(failed := 0, lockedUntil := None, jti := Some(e.req.ids.refreshJti))
    else if Refreshes(cfg, st, e, a) then row.(jti := Some(e.req.ids.refreshJti))
    else if LogsOut(st, e, a) then row.(jti := None)
    else if Resets(cfg, st, e, a) then ResetDecision(row, e.req.newPassword).row
    else if ClearsLockOnly(cfg, st, e, a) then ClearExpiredLock(row, e.now)
    else row
  }

  lemma LoginRowStep(cfg: Settings, st: AuthState, e: Event, a: AdminId)
    requires e.req.Login? && a in st.admins
    ensures a in Step(cfg, st, e).state.admins && Step(cfg, st, e).state.admins[a] == NextRow(cfg, st, e, a)
  {
    assert Step(cfg, st, e) == LoginStep(cfg, st, e.now, e.req);
  }

  lemma RefreshRowStep(cfg: Settings, st: AuthState, e: Event, a: AdminId)
    requires e.req.Refresh? && a in st.admins
    ensures a in Step(cfg, st, e).state.admins && Step(cfg, st, e).state.admins[a] == NextRow(cfg, st, e, a)
  {
    assert Step(cfg, st, e) == RefreshStep(cfg, st, e.now, e.req);
  }

  lemma LogoutRowStep(cfg: Settings, st: AuthState, e: Event, a: AdminId)
    requires e.req.Logout? && a in st.admins
    ensures a in Step(cfg, st, e).state.admins && Step(cfg, st, e).state.admins[a] == NextRow(cfg, st, e, a)
  {
    assert Step(cfg, st, e) == LogoutStep(st, e.now, e.req);
  }

  lemma UpdatePasswordRowStep(cfg: Settings, st: AuthState, e: Event, a: AdminId)
    requires e.req.UpdatePassword? && a in st.admins
    ensures a in Step(cfg, st, e).state.admins && Step(cfg, st, e).state.admins[a] == NextRow(cfg, st, e, a)
  {
    assert Step(cfg, st, e) == UpdatePasswordStep(cfg, st, e.now, e.req);
  }

  /** The whole effect of a request on one admin row. */
  lemma RowStep(cfg: Settings, st: AuthState, e: Event, a: AdminId)
    requires a in st.admins
    ensures a in Step(cfg, st, e).state.admins
    ensures Step(cfg, st, e).state.admins[a] == NextRow(cfg, st, e, a)
  {
    match e.req
    case Login(_, _, _, _, _) => LoginRowStep(cfg, st, e, a);
    case Refresh(_, _, _) => RefreshRowStep(cfg, st, e, a);
    case Logout(_) => LogoutRowStep(cfg, st, e, a);
    case UpdatePassword(_, _, _) => UpdatePasswordRowStep(cfg, st, e, a);
    case _ =>
  }

  // ---- Runs ----

  datatype Run = Run(cfg: Settings, states: seq<AuthState>, events: seq<Event>) {

    ghost predicate StepAt(k: nat)
      requires |states| == |events| + 1 && k < |events|
    {
      states[k + 1] == Step(cfg, states[k], events[k]).state
    }

    /** Every state follows from the one before it and the clock never goes back. */
    ghost predicate Valid() {
      && |states| == |events| + 1
      && (forall k: nat :: k < |events| ==> StepAt(k))
      && (forall i, j :: 0 <= i <= j < |events| ==> events[i].now <= events[j].now)
    }
  }

  /** Every clock-ordered sequence of requests is a run from every start. */
  lemma {:induction false} RunExists(cfg: Settings, start: AuthState, events: seq<Event>) returns (r: Run)
    requires forall i, j :: 0 <= i <= j < |events| ==> events[i].now <= events[j].now
    ensures r.Valid() && r.cfg == cfg && r.events == events && r.states[0] == start
  {
    if events == [] {
      r := Run(cfg, [start], []);
    } else {
      var n := |events| - 1;
      var p := RunExists(cfg, start, events[..n]);
      r := Run(cfg, p.states + [Step(cfg, p.states[n], events[n]).state], events);
      forall k: nat | k < |events| ensures r.StepAt(k) {
        if k < n {
          assert p.StepAt(k);
        }
      }
    }
  }

  /** No request adds or removes an admin. */
  lemma {:induction false} AdminsFixed(r: Run, k: nat)
    requires r.Valid() && k < |r.states|
    ensures r.states[k].admins.Keys == r.states[0].admins.Keys
  {
    if k > 0 {
      AdminsFixed(r, k - 1);
      assert r.StepAt(k - 1);
    }
  }

  /** The row of `a` after the first `k` requests. */
  ghost function RowAt(r: Run, k: nat, a: AdminId): AdminRow
    requires r.Valid() && a in r.states[0].admins && k < |r.states|
  {
    AdminsFixed(r, k);
    r.states[k].admins[a]
  }

  lemma RowAtNext(r: Run, k: nat, a: AdminId)
    requires r.Valid() && a in r.states[0].admins && k < |r.events|
    ensures a in r.states[k].admins
    ensures RowAt(r, k + 1, a) == NextRow(r.cfg, r.states[k], r.events[k], a)
  {
    AdminsFixed(r, k);
    assert r.StepAt(k);
    RowStep(r.cfg, r.states[k], r.events[k], a);
  }
}
