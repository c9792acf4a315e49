/** app/services/auth_service.py and its repositories, step by step: each request works on objects
    loaded through its own session and leaves the tables as the account machine says. */
module AuthService {
  import opened Common
  import opened Passwords
  import opened AuthModel
  import PasswordHistory

  /** The committed tables. */
  class Database {
    var admins: map<AdminId, AdminRow>
    var otps: map<Email, OtpRow>
    var history: seq<HistoryRow>

    ghost function State(): AuthState
      reads this
    {
      AuthState(admins, otps, history)
    }

    constructor (admins: map<AdminId, AdminRow>)
      ensures State() == AuthState(admins, map[], [])
    {
      this.admins := admins;
      otps := map[];
      history := [];
    }
  }

  class PlatformAdmin {
    const id: AdminId
    var email: Email
    var hashedPassword: Hash
    var status: Status
    var failedLoginAttempts: int
    var lockedUntil: Option<Time>
    var currentRefreshJti: Option<Jti>

    constructor (id: AdminId, row: AdminRow)
      ensures this.id == id && Row() == row
    {
      this.id := id;
      email := row.email;
      hashedPassword := row.hash;
      status := row.status;
      failedLoginAttempts := row.failed;
      lockedUntil := row.lockedUntil;
      currentRefreshJti := row.jti;
    }

    function Row(): AdminRow
      reads this
    {
      AdminRow(email, hashedPassword, status, failedLoginAttempts, lockedUntil, currentRefreshJti)
    }
  }

  class PasswordResetOtp {
    const email: Email
    var expiresAt: Time
    var requestCount: int
    var windowStartedAt: Time
    var verified: bool

    constructor (email: Email, row: OtpRow)
      ensures this.email == email && Row() == row
    {
      this.email := email;
      expiresAt := row.expiresAt;
      requestCount := row.requestCount;
      windowStartedAt := row.windowStart;
      verified := row.verified;
    }

    function Row(): OtpRow
      reads this
    {
      OtpRow(expiresAt, requestCount, windowStartedAt, verified)
    }
  }

  /** The request-scoped session: it knows the objects loaded or added, and a commit writes them. */
  class Session {
    const db: Database
    var admin: PlatformAdmin?
    var otp: PasswordResetOtp?

    constructor (db: Database)
      ensures this.db == db && admin == null && otp == null
    {
      this.db := db;
      admin := null;
      otp := null;
    }

    /** The loaded objects hold what is stored, so a commit writes nothing new for them. */
    ghost predicate Clean()
      reads this, db, admin, otp
    {
      && (admin != null ==> admin.id in db.admins && admin.Row() == db.admins[admin.id])
      && (otp != null ==> otp.email in db.otps && otp.Row() == db.otps[otp.email])
    }

    method Commit()
      modifies db
      ensures db.admins == if admin == null then old(db.admins) else old(db.admins)[admin.id := admin.Row()]
      ensures db.otps == if otp == null then old(db.otps) else old(db.otps)[otp.email := otp.Row()]
      ensures db.history == old(db.history)
    {
      if admin != null {
        db.admins := db.admins[admin.id := admin.Row()];
      }
      if otp != null {
        db.otps := db.otps[otp.email := otp.Row()];
      }
    }
  }

  // ---- app/repositories/auth_repository.py ----

  method GetAdminByEmail(cfg: Settings, s: Session, email: Email) returns (many: bool, admin: PlatformAdmin?)
    requires s.admin == null
    modifies s
    ensures s.otp == old(s.otp) && s.admin == admin
    ensures many <==> FindByEmail(cfg, s.db.admins, email).Ambiguous?
    ensures admin == null <==> !FindByEmail(cfg, s.db.admins, email).Found?
    ensures admin != null ==>
      fresh(admin) && FindByEmail(cfg, s.db.admins, email) == Found(admin.id) && admin.Row() == s.db.admins[admin.id]
    ensures admin != null ==> cfg.sqlLower(admin.email) == cfg.normalize(email)
  {
    var hits := Matches(cfg, s.db.admins, email);
    many, admin := false, null;
    if hits != {} {
      var a :| a in hits;
      if hits == {a} {
        admin := new PlatformAdmin(a, s.db.admins[a]);
        s.admin := admin;
      } else {
        many := true;
      }
    }
  }

  method GetAdminById(s: Session, id: AdminId) returns (admin: PlatformAdmin?)
    requires s.admin == null
    modifies s
    ensures s.otp == old(s.otp) && s.admin == admin
    ensures admin == null <==> id !in s.db.admins
    ensures admin != null ==> fresh(admin) && admin.id == id && admin.Row() == s.db.admins[id]
  {
    admin := null;
    if id in s.db.admins {
      admin := new PlatformAdmin(id, s.db.admins[id]);
      s.admin := admin;
    }
  }

  // ---- Login ----

  method Authenticate(cfg: Settings, s: Session, email: Email, password: string, now: Time,
                      ids: FreshIds, permissions: set<string>) returns (reply: Reply)
    requires s.admin == null && s.otp == null
    modifies s, s.db
    ensures s.otp == null && s.db.otps == old(s.db.otps) && s.db.history == old(s.db.history)
    ensures match FindByEmail(cfg, old(s.db.admins), email)
      case Absent => s.admin == null && reply == Error(InvalidCredentials(None)) && s.db.admins == old(s.db.admins)
      case Ambiguous => s.admin == null && reply == Error(MultipleRows) && s.db.admins == old(s.db.admins)
      case Found(a) =>
        var d := LoginDecision(cfg, a, old(s.db.admins)[a], password, now, ids, permissions);
        && s.admin != null && s.admin.id == a && s.admin.Row() == d.row && reply == d.reply
        && s.db.admins == if d.saved then old(s.db.admins)[a := d.row] else old(s.db.admins)
  {
    var many, admin := GetAdminByEmail(cfg, s, email);
    if many {
      return Error(MultipleRows);
    }
    if admin == null {
      return Error(InvalidCredentials(None));
    }
    if admin.lockedUntil.Some? {
      if admin.lockedUntil.value > now {
        return Error(AccountLocked);
      }
      admin.lockedUntil := None;
      admin.failedLoginAttempts := 0;
    }
    if !VerifyPassword(password, admin.hashedPassword) {
      admin.failedLoginAttempts := admin.failedLoginAttempts + 1;
      if admin.failedLoginAttempts >= cfg.maxFailedLogins {
        admin.lockedUntil := Some(now + Minutes(cfg.lockoutMinutes));
        admin.failedLoginAttempts := 0;
        s.Commit();
        return Error(AccountLocked);
      }
      var remaining := cfg.maxFailedLogins - admin.failedLoginAttempts;
      s.Commit();
      return Error(InvalidCredentials(Some(remaining)));
    }
    if admin.status != Active {
      return Error(AccountInactive);
    }
    admin.failedLoginAttempts := 0;
    admin.lockedUntil := None;
    reply := IssueSession(cfg, s, admin, now, ids, permissions);
  }

  /** Issues a pair of tokens and stores its refresh identifier as the current session. */
  method IssueSession(cfg: Settings, s: Session, admin: PlatformAdmin, now: Time, ids: FreshIds,
                      permissions: set<string>) returns (reply: Reply)
    requires s.admin == admin && s.otp == null
    modifies admin, s.db
    ensures reply == Tokens(IssueTokens(cfg, admin.id, now, ids, permissions))
    ensures admin.Row() == old(admin.Row()).(jti := Some(ids.refreshJti))
    ensures s.db.admins == old(s.db.admins)[admin.id := admin.Row()]
    ensures s.db.otps == old(s.db.otps) && s.db.history == old(s.db.history)
  {
    var pair := IssueTokens(cfg, admin.id, now, ids, permissions);
    admin.currentRefreshJti := pair.refresh.jti;
    s.Commit();
    reply := Tokens(pair);
  }

  /** The login request, with the audit write that follows a refused one on the same session. */
  method Login(cfg: Settings, db: Database, now: Time, req: Request) returns (reply: Reply)
    requires req.Login?
    modifies db
    ensures Outcome(db.State(), reply) == Step(cfg, old(db.State()), Event(now, req))
  {
    var s := new Session(db);
    reply := Authenticate(cfg, s, req.email, req.password, now, req.ids, req.permissions);
    if reply.Error? && req.auditCommits {
      s.Commit();
    }
    ghost var before := old(db.State());
    match FindByEmail(cfg, before.admins, req.email) {
      case Found(a) =>
        if !LoginDecision(cfg, a, before.admins[a], req.password, now, req.ids, req.permissions).saved {
          assert before.admins[a := before.admins[a]] == before.admins;
        }
      case _ =>
    }
  }

  // ---- Refresh and logout ----

  method AdminOfPayload(s: Session, claims: Claims) returns (error: Option<AuthError>, admin: PlatformAdmin?)
    requires s.admin == null && s.otp == null
    modifies s
    ensures s.otp == null && s.admin == admin
    ensures match AdminFromPayload(s.db.admins, claims)
      case Refused(e) => error == Some(e)
      case Allowed(a) =>
        error == None && admin != null && fresh(admin) && admin.id == a && admin.Row() == s.db.admins[a]
  {
    error, admin := None, null;
    if claims.user.None? {
      error := Some(NotAuthenticated);
    } else {
      admin := GetAdminById(s, claims.user.value);
      if admin == null {
        error := Some(NotAuthenticated);
      } else if admin.status != Active {
        error := Some(AccountInactive);
      } else {
        var current := admin.currentRefreshJti;
        if current.None? || (claims.kind != AccessKind && claims.kind != RefreshKind) {
          error := Some(NotAuthenticated);
        } else {
          var presented := if claims.kind == AccessKind then claims.rjti else claims.jti;
          if presented != current {
            error := Some(NotAuthenticated);
          }
        }
      }
    }
  }

  method Refresh(cfg: Settings, db: Database, now: Time, req: Request) returns (reply: Reply)
    requires req.Refresh?
    modifies db
    ensures Outcome(db.State(), reply) == Step(cfg, old(db.State()), Event(now, req))
  {
    var data := Decode(req.token, now);
    if data.None? || data.value.kind != RefreshKind {
      return Error(NotAuthenticated);
    }
    var s := new Session(db);
    var error, admin := AdminOfPayload(s, data.value);
    if error.Some? {
      return Error(error.value);
    }
    reply := IssueSession(cfg, s, admin, now, req.ids, req.permissions);
  }

  method Logout(cfg: Settings, db: Database, now: Time, req: Request) returns (reply: Reply)
    requires req.Logout?
    modifies db
    ensures Outcome(db.State(), reply) == Step(cfg, old(db.State()), Event(now, req))
  {
    var payload := Decode(req.token, now);
    if payload.None? || payload.value.kind != AccessKind || payload.value.user.None? {
      return Error(NotAuthenticated);
    }
    var s := new Session(db);
    var admin := GetAdminById(s, payload.value.user.value);
    if admin == null {
      return Error(NotAuthenticated);
    }
    admin.currentRefreshJti := None;
    s.Commit();
    reply := Done;
  }

  // ---- One-time passwords ----

  /** `otp_repository.get`. */
  method GetOtp(s: Session, email: Email) returns (row: PasswordResetOtp?)
    requires s.otp == null
    modifies s
    ensures s.admin == old(s.admin) && s.otp == row
    ensures row == null <==> email !in s.db.otps
    ensures row != null ==> fresh(row) && row.email == email && row.Row() == s.db.otps[email]
  {
    row := null;
    if email in s.db.otps {
      row := new PasswordResetOtp(email, s.db.otps[email]);
      s.otp := row;
    }
  }

  method GenerateOtp(cfg: Settings, db: Database, now: Time, req: Request) returns (reply: Reply)
    requires req.GenerateOtp?
    modifies db
    ensures Outcome(db.State(), reply) == Step(cfg, old(db.State()), Event(now, req))
  {
    var s := new Session(db);
    var many, admin := GetAdminByEmail(cfg, s, req.email);
    if many {
      return Error(MultipleRows);
    }
    if admin == null || admin.status != Active {
      return Done;
    }
    assert db.admins[admin.id := admin.Row()] == db.admins;
    var row := GetOtp(s, req.email);
    var expiry := now + Minutes(cfg.otpExpiryMinutes);
    var window := Minutes(cfg.otpWindowMinutes);
    if row == null {
      row := new PasswordResetOtp(req.email, OtpRow(expiry, 1, now, false));
      s.otp := row;
      s.Commit();
    } else if now >= row.windowStartedAt + window {
      row.expiresAt := expiry;
      row.requestCount := 1;
      row.windowStartedAt := now;
      row.verified := false;
      s.Commit();
    } else if row.requestCount >= cfg.otpMaxRequests {
      return Error(OtpThrottled);
    } else {
      row.requestCount := row.requestCount + 1;
      row.expiresAt := expiry;
      row.verified := false;
      s.Commit();
    }
    reply := Done;
  }

  method VerifyOtp(cfg: Settings, db: Database, now: Time, req: Request) returns (reply: Reply)
    requires req.VerifyOtp?
    modifies db
    ensures Outcome(db.State(), reply) == Step(cfg, old(db.State()), Event(now, req))
  {
    var s := new Session(db);
    var many, admin := GetAdminByEmail(cfg, s, req.email);
    if many {
      return Error(MultipleRows);
    }
    if admin == null || admin.status != Active || req.otp != OTP_CODE {
      return Error(InvalidOtp);
    }
    assert db.admins[admin.id := admin.Row()] == db.admins;
    var row := GetOtp(s, req.email);
    if row == null || now >= row.expiresAt {
      return Error(InvalidOtp);
    }
    row.verified := true;
    s.Commit();
    reply := Done;
  }

  // ---- app/repositories/password_history_repository.py ----

  method AddHistory(s: Session, rowId: nat, admin: AdminId, hash: Hash, createdAt: Time)
    requires s.Clean()
    modifies s.db
    ensures s.Clean()
    ensures s.db.State() == old(s.db.State()).(
      history := old(s.db.history) + [HistoryRow(rowId, admin, hash, createdAt)])
  {
    s.db.history := s.db.history + [HistoryRow(rowId, admin, hash, createdAt)];
    s.Commit();
  }

  method TrimHistory(s: Session, admin: AdminId, keep: nat)
    requires s.Clean()
    modifies s.db
    ensures s.Clean()
    ensures s.db.State() == old(s.db.State()).(history := Trim(old(s.db.history), admin, keep))
    ensures forall b :: b != admin ==> HistoryOf(s.db.history, b) == HistoryOf(old(s.db.history), b)
    ensures keep >= 1 && PasswordHistory.Chronological(HistoryOf(old(s.db.history), admin)) ==>
      HistoryOf(s.db.history, admin) == LastN(HistoryOf(old(s.db.history), admin), keep)
  {
    PasswordHistory.TrimMeans(s.db.history, admin, keep);
    var rows := RecentFor(s.db.history, admin, keep);
    var keepIds := Ids(rows);
    if keepIds == {} {
      return;
    }
    s.db.history := DropOthers(s.db.history, admin, keepIds);
    s.Commit();
  }

  // ---- Password reset ----

  /** `auth_repository.update_admin_password`: the changed admin is written with the new hash. */
  method UpdateAdminPassword(s: Session, admin: PlatformAdmin, hash: Hash)
    requires s.admin == admin && (s.otp != null ==> s.otp.email in s.db.otps && s.otp.Row() == s.db.otps[s.otp.email])
    modifies admin`hashedPassword, s.db
    ensures admin.Row() == old(admin.Row()).(hash := hash)
    ensures s.db.State() == old(s.db.State()).(admins := old(s.db.admins)[admin.id := admin.Row()])
  {
    admin.hashedPassword := hash;
    s.Commit();
  }

  /** `otp_repository.delete`: removes the row and the object that stood for it. */
  method DeleteOtp(s: Session, email: Email)
    requires s.otp != null && s.otp.email == email
    requires s.admin != null && s.admin.id in s.db.admins && s.admin.Row() == s.db.admins[s.admin.id]
    modifies s`otp, s.db
    ensures s.db.State() == old(s.db.State()).(otps := old(s.db.otps) - {email})
  {
    s.db.otps := s.db.otps - {email};
    s.otp := null;
    s.Commit();
  }

  /** The checks of a reset; the rows they load stay known to the session. */
  method CheckReset(cfg: Settings, s: Session, now: Time, req: Request)
    returns (error: Option<AuthError>, admin: PlatformAdmin?)
    requires req.UpdatePassword? && s.admin == null && s.otp == null
    modifies s
    ensures match ResetCheck(cfg, s.db.State(), req.email, req.newPassword, now)
      case Refused(e) => error == Some(e)
      case Allowed(a) =>
        && error == None && admin != null && fresh(admin) && s.admin == admin && admin.id == a
        && s.otp != null && fresh(s.otp) && s.otp.email == req.email && s.Clean()
  {
    error := None;
    var many;
    many, admin := GetAdminByEmail(cfg, s, req.email);
    if many {
      error := Some(MultipleRows);
      return;
    }
    if admin == null || admin.status != Active {
      error := Some(PasswordResetFailed);
      return;
    }
    var row := GetOtp(s, req.email);
    if row == null || !row.verified || now >= row.expiresAt {
      error := Some(PasswordResetFailed);
      return;
    }
    var recent := RecentFor(s.db.history, admin.id, cfg.historyDepth);
    if VerifyPassword(req.newPassword, admin.hashedPassword)
       || exists entry :: entry in recent && VerifyPassword(req.newPassword, entry.hash) {
      error := Some(PasswordReuse);
    }
  }

  /** The four commits of a reset. */
  method CommitReset(cfg: Settings, s: Session, admin: PlatformAdmin, now: Time, req: Request)
    requires req.UpdatePassword? && s.Clean() && s.admin == admin && s.otp != null && s.otp.email == req.email
    modifies s, s.db, admin
    ensures s.db.State()
         == ResetCommits(cfg, old(s.db.State()), admin.id, req.email, req.newPassword, req.rowId, now, 4)
  {
    AddHistory(s, req.rowId, admin.id, admin.hashedPassword, now);
    assert s.db.State() == RecordOld(old(s.db.State()), admin.id, req.rowId, now);
    TrimHistory(s, admin.id, cfg.historyDepth);
    admin.failedLoginAttempts := 0;
    admin.lockedUntil := None;
    admin.currentRefreshJti := None;
    UpdateAdminPassword(s, admin, HashPassword(req.newPassword));
    DeleteOtp(s, req.email);
  }

  method UpdatePassword(cfg: Settings, db: Database, now: Time, req: Request) returns (reply: Reply)
    requires req.UpdatePassword?
    modifies db
    ensures Outcome(db.State(), reply) == Step(cfg, old(db.State()), Event(now, req))
  {
    var s := new Session(db);
    var error, admin := CheckReset(cfg, s, now, req);
    if error.Some? {
      return Error(error.value);
    }
    CommitReset(cfg, s, admin, now, req);
    reply := Done;
  }
}
