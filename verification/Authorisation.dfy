/** app/api/deps.py: who may do what, decided from the token's session and the current tables. */
module Authorisation {
  import opened Common
  import opened RbacModel
  import opened RbacSafety
  import Auth = AuthModel
  import AuthService
  import RbacService
  import Sessions
  import opened Audit
  import Redaction

  datatype AccessReply =
    | Granted(admin: AdminId)
    | Unauthenticated(error: Auth.AuthError)
    | PermissionDenied(admin: AdminId)

  /** `_access_token_payload`: the claims of a readable access token. */
  function AccessTokenPayload(credentials: Option<Auth.Bearer>, now: Auth.Time): Option<Auth.Claims> {
    if credentials.None? then None
    else
      var payload := Auth.Decode(credentials.value, now);
      if payload.Some? && payload.value.kind.AccessKind? then payload else None
  }

  function CurrentAdmin(admins: map<AdminId, Auth.AdminRow>, credentials: Option<Auth.Bearer>, now: Auth.Time)
    : (r: Auth.Resolution)
    ensures r.Allowed? ==> r.admin in admins
  {
    match AccessTokenPayload(credentials, now)
    case None => Auth.Refused(Auth.NotAuthenticated)
    case Some(claims) => Auth.AdminFromPayload(admins, claims)
  }

  function RequirePermission(admins: map<AdminId, Auth.AdminRow>, rbac: RbacState, credentials: Option<Auth.Bearer>,
                             now: Auth.Time, required: string): AccessReply {
    match CurrentAdmin(admins, credentials, now)
    case Refused(error) => Unauthenticated(error)
    case Allowed(a) => if required in PermissionsOf(rbac, a) then Granted(a) else PermissionDenied(a)
  }

  // ---- What a permission means ----

  /** The flags of a grant give the permission named `p`. */
  predicate Gives(code: Code, flags: Flags, p: string) {
    (p == code + ".R" && (flags.read || flags.write)) || (p == code + ".W" && flags.write)
  }

  /** An active role of the admin grants `p` on an active screen. */
  ghost predicate HoldsVia(rbac: RbacState, admin: AdminId, role: RoleId, p: string) {
    && (admin, role) in rbac.links && role in rbac.roles && rbac.roles[role].status.Active?
    && exists code ::
      (role, code) in rbac.grants && ActiveCode(rbac.screens, code) && Gives(code, rbac.grants[(role, code)], p)
  }

  ghost predicate Holds(rbac: RbacState, admin: AdminId, p: string) {
    exists role: RoleId :: HoldsVia(rbac, admin, role, p)
  }

  /** The join followed by the expansion is exactly that meaning. */
  lemma PermissionsAreHeld(rbac: RbacState, admin: AdminId, p: string)
    ensures p in PermissionsOf(rbac, admin) <==> Holds(rbac, admin, p)
  {
    if role: RoleId :| HoldsVia(rbac, admin, role, p) {
      var code :|
        (role, code) in rbac.grants && ActiveCode(rbac.screens, code) && Gives(code, rbac.grants[(role, code)], p);
      var k := (role, code);
      assert Grant(code, rbac.grants[k].read, rbac.grants[k].write) in GrantsOfAdmin(rbac, admin);
    }
    if p in PermissionsOf(rbac, admin) {
      var g :| g in GrantsOfAdmin(rbac, admin) && Gives(g.code, Flags(g.read, g.write), p);
      var k :| k in rbac.grants && (admin, k.0) in rbac.links && k.0 in rbac.roles && rbac.roles[k.0].status.Active?
        && ActiveCode(rbac.screens, k.1) && g == Grant(k.1, rbac.grants[k].read, rbac.grants[k].write);
      assert (k.0, k.1) == k;
      assert HoldsVia(rbac, admin, k.0, p);
    }
  }

  /** A permission name belongs to one screen and one kind of access. */
  lemma PermissionNamesOneScreen(code: Code, other: Code)
    ensures code + ".R" == other + ".R" ==> code == other
    ensures code + ".W" == other + ".W" ==> code == other
    ensures code + ".R" != other + ".W"
  {
    var p, q := code + ".R", other + ".R";
    assert p[..|p| - 2] == code && q[..|q| - 2] == other;
    var v, w := code + ".W", other + ".W";
    assert v[..|v| - 2] == code && w[..|w| - 2] == other;
    assert p[|p| - 1] != w[|w| - 1];
  }

  /** The permission to read one screen comes only from a grant on that screen. */
  lemma ReadComesFromItsScreen(rbac: RbacState, admin: AdminId, role: RoleId, code: Code)
    ensures HoldsVia(rbac, admin, role, code + ".R") <==>
      && (admin, role) in rbac.links && role in rbac.roles && rbac.roles[role].status.Active?
      && (role, code) in rbac.grants && ActiveCode(rbac.screens, code)
      && (rbac.grants[(role, code)].read || rbac.grants[(role, code)].write)
  {
    forall other ensures code + ".R" == other + ".R" ==> code == other {
      PermissionNamesOneScreen(code, other);
    }
    forall other ensures code + ".R" != other + ".W" {
      PermissionNamesOneScreen(code, other);
    }
  }

  // ---- The decision ----

  /** An unexpired access token of an existing active admin whose linked session is the stored one. */
  predicate Speaks(admins: map<AdminId, Auth.AdminRow>, credentials: Option<Auth.Bearer>, now: Auth.Time, a: AdminId) {
    && credentials.Some? && credentials.value.Signed? && now < credentials.value.claims.exp
    && credentials.value.claims.kind.AccessKind? && credentials.value.claims.user == Some(a)
    && a in admins && admins[a].status.Active? && admins[a].jti.Some? && credentials.value.claims.rjti == admins[a].jti
  }

  /** A request passes exactly when its token speaks for an admin who holds the permission. */
  lemma GrantedIff(admins: map<AdminId, Auth.AdminRow>, rbac: RbacState, credentials: Option<Auth.Bearer>,
                   now: Auth.Time, required: string, a: AdminId)
    ensures RequirePermission(admins, rbac, credentials, now, required) == Granted(a)
      <==> Speaks(admins, credentials, now, a) && Holds(rbac, a, required)
    ensures RequirePermission(admins, rbac, credentials, now, required) == PermissionDenied(a)
      <==> Speaks(admins, credentials, now, a) && !Holds(rbac, a, required)
  {
    PermissionsAreHeld(rbac, a, required);
  }

  /** The permissions a token claims are never consulted. */
  lemma ClaimedPermissionsIgnored(admins: map<AdminId, Auth.AdminRow>, rbac: RbacState, claims: Auth.Claims,
                                  claimed: set<string>, now: Auth.Time, required: string)
    ensures RequirePermission(admins, rbac, Some(Auth.Signed(claims)), now, required)
         == RequirePermission(admins, rbac, Some(Auth.Signed(claims.(permissions := claimed))), now, required)
  {
    forall a ensures Speaks(admins, Some(Auth.Signed(claims)), now, a)
      <==> Speaks(admins, Some(Auth.Signed(claims.(permissions := claimed))), now, a) {}
  }

  /** Deactivating a role takes away at once exactly what no other active role grants. */
  lemma RoleRemovalIsImmediate(rbac: RbacState, role: RoleId, admin: AdminId, p: string)
    requires DeleteRoleStep(rbac, DeleteRole(role)).reply.Ok?
    ensures p in PermissionsOf(DeleteRoleStep(rbac, DeleteRole(role)).state, admin)
      <==> exists r: RoleId :: r != role && HoldsVia(rbac, admin, r, p)
  {
    var after := DeleteRoleStep(rbac, DeleteRole(role)).state;
    PermissionsAreHeld(after, admin, p);
    forall r ensures HoldsVia(after, admin, r, p) <==> r != role && HoldsVia(rbac, admin, r, p) {}
  }

  /** The access token of an issued pair opens `required` in a later state exactly while its lifetime
      lasts, its session is the stored one, and the tables of that moment grant the permission. */
  lemma IssuedTokenOpensIff(r: Auth.Run, m: nat, a: AdminId, k: nat, rbac: RbacState, now: Auth.Time, required: string)
    requires r.Valid() && a in r.states[0].admins && m < k < |r.states| && Sessions.IssuesTo(r, m, a)
    ensures var access := Sessions.PairAt(r, m, a).access;
      RequirePermission(r.states[k].admins, rbac, Some(Auth.Signed(access)), now, required) == Granted(a)
      <==> && now < r.events[m].now + Auth.Minutes(r.cfg.accessTokenMinutes)
           && Sessions.Pointer(r, k, a) == Sessions.Pointer(r, m + 1, a) && Holds(rbac, a, required)
  {
    Sessions.IssuedPairIsLinked(r, m, a);
    Sessions.AcceptedIffCurrent(r, m, a, k);
    PermissionsAreHeld(rbac, a, required);
  }

  /** Logging out with an accepted token revokes that token for every later time. */
  lemma LogoutRevokesToken(st: Auth.AuthState, token: Auth.Bearer, now: Auth.Time, a: AdminId, later: Auth.Time)
    requires CurrentAdmin(st.admins, Some(token), now) == Auth.Allowed(a)
    ensures var out := Auth.LogoutStep(st, now, Auth.Logout(token));
      out.reply.Done? && CurrentAdmin(out.state.admins, Some(token), later).Refused?
  {
    assert Speaks(st.admins, Some(token), now, a);
  }

  /** Whoever was ever given super_admin passes every administration check with a current token. */
  lemma SuperAdminPasses(admins: map<AdminId, Auth.AdminRow>, r: RbacRun, a: AdminId, j: nat, k: nat,
                         credentials: Option<Auth.Bearer>, now: Auth.Time, required: string)
    requires FromSeed(r) && j <= k < |r.states| && (a, 0) in r.states[j].links
    requires Speaks(admins, credentials, now, a)
    requires required in {"S1.R", "S1.W", "S2.R", "S3.R", "S3.W", "S4.R", "S4.W"}
    ensures RequirePermission(admins, r.states[k], credentials, now, required) == Granted(a)
  {
    SuperAdminIsNeverLockedOut(r, a, j, k);
  }

  // ---- The dependency as it runs ----

  const ADMIN_ACTOR: string := "admin"

  const ACCESS_DENIED: string := "access.denied"

  const SCREEN_RESOURCE_TYPES: map<string, string> := map[
    "S1" := "user", "S2" := "audit", "S3" := "role", "S4" := "screen", "S5" := "query_category", "S6" := "zone"]

  /** The part of a permission name before its first dot. */
  function ScreenPart(p: string): string {
    if p == "" || p[0] == '.' then "" else [p[0]] + ScreenPart(p[1..])
  }

  function DenialResourceType(required: string): Option<string> {
    var code := ScreenPart(required);
    if code in SCREEN_RESOURCE_TYPES then Some(SCREEN_RESOURCE_TYPES[code]) else None
  }

  /** What an HTTP request contributes to an audit entry. */
  datatype HttpRequest = HttpRequest(
    verb: string, path: string, displayName: string, requestId: Option<string>, ipAddress: Option<string>,
    userAgent: Option<string>)

  function DenialRecord(email: string, required: string, request: HttpRequest): Record {
    Record(ACCESS_DENIED, Some(email), Some(ADMIN_ACTOR),
           Some([Redaction.Field("permission", Redaction.Text(required)),
                 Redaction.Field("display_name", Redaction.Text(request.displayName)),
                 Redaction.Field("method", Redaction.Text(request.verb)),
                 Redaction.Field("path", Redaction.Text(request.path))]),
           None, None,
           RequestFields(DenialResourceType(required), None, Some(request.path), request.requestId,
                         request.ipAddress, request.userAgent))
  }

  lemma {:induction false} ScreenPartStops(code: string, rest: string)
    requires forall i :: 0 <= i < |code| ==> code[i] != '.'
    ensures ScreenPart(code + "." + rest) == code
  {
    if code != "" {
      ScreenPartStops(code[1..], rest);
      assert (code + "." + rest)[1..] == code[1..] + "." + rest;
    } else {
      assert code + "." + rest == "." + rest;
    }
  }

  /** A denial on a screen is filed under that screen's resource type. */
  lemma DenialIsFiledUnder(rest: string)
    ensures DenialResourceType("S1" + "." + rest) == Some("user")
    ensures DenialResourceType("S2" + "." + rest) == Some("audit")
    ensures DenialResourceType("S3" + "." + rest) == Some("role")
    ensures DenialResourceType("S4" + "." + rest) == Some("screen")
    ensures DenialResourceType("S5" + "." + rest) == Some("query_category")
    ensures DenialResourceType("S6" + "." + rest) == Some("zone")
  {
    ScreenPartStops("S1", rest);
    ScreenPartStops("S2", rest);
    ScreenPartStops("S3", rest);
    ScreenPartStops("S4", rest);
    ScreenPartStops("S5", rest);
    ScreenPartStops("S6", rest);
  }

  /** What the entry of a denial says. */
  lemma DenialSays(email: string, required: string, request: HttpRequest)
    ensures var entry := EntryOf(DenialRecord(email, required, request), None);
      && entry.action == "access.denied" && entry.actor == Some(email) && entry.actorKind == Some("admin")
      && entry.details == Some([Redaction.Field("permission", Redaction.Text(required)),
                                Redaction.Field("display_name", Redaction.Text(request.displayName)),
                                Redaction.Field("method", Redaction.Text(request.verb)),
                                Redaction.Field("path", Redaction.Text(request.path))])
      && entry.payload == None && entry.response == None
      && entry.context == RequestFields(DenialResourceType(required), None, Some(request.path), request.requestId,
                                        request.ipAddress, request.userAgent)
  {
    var details := DenialRecord(email, required, request).details.value;
    Redaction.FixedIffMasked(Redaction.Dict(details));
  }

  /** Why a request is not even attributed to an admin. */
  lemma UnauthenticatedIff(admins: map<AdminId, Auth.AdminRow>, rbac: RbacState, credentials: Option<Auth.Bearer>,
                           now: Auth.Time, required: string)
    ensures var reply := RequirePermission(admins, rbac, credentials, now, required);
      && (reply.Unauthenticated? <==> forall a :: !Speaks(admins, credentials, now, a))
      && (reply == Unauthenticated(Auth.AccountInactive)
          <==> && credentials.Some? && credentials.value.Signed? && now < credentials.value.claims.exp
               && credentials.value.claims.kind == Auth.AccessKind && credentials.value.claims.user.Some?
               && credentials.value.claims.user.value in admins
               && admins[credentials.value.claims.user.value].status == Inactive)
      && (reply.Unauthenticated? ==> reply.error in {Auth.AccountInactive, Auth.NotAuthenticated})
  {
    if credentials.Some? && credentials.value.Signed? && credentials.value.claims.user.Some? {
      var a := credentials.value.claims.user.value;
      GrantedIff(admins, rbac, credentials, now, required, a);
    }
  }

  /** Resolves the admin and, when there is one, makes it the ambient actor; `token` restores the
      previous one. */
  method GetCurrentAdmin(db: AuthService.Database, context: AuditContext, credentials: Option<Auth.Bearer>,
                         now: Auth.Time)
    returns (error: Option<Auth.AuthError>, admin: AuthService.PlatformAdmin?, token: Option<Actor>)
    modifies context
    ensures match CurrentAdmin(db.admins, credentials, now)
      case Refused(e) => error == Some(e) && context.current == old(context.current)
      case Allowed(a) =>
        && error == None && admin != null && admin.id == a && admin.Row() == db.admins[a]
        && context.current == Some(Actor(admin.email, ADMIN_ACTOR)) && token == old(context.current)
  {
    error, admin, token := None, null, None;
    if credentials.None? {
      error := Some(Auth.NotAuthenticated);
      return;
    }
    var payload := Auth.Decode(credentials.value, now);
    if payload.None? || payload.value.kind != Auth.AccessKind {
      error := Some(Auth.NotAuthenticated);
      return;
    }
    var session := new AuthService.Session(db);
    error, admin := AuthService.AdminOfPayload(session, payload.value);
    if error == None {
      token := context.Set(admin.email, ADMIN_ACTOR);
    }
  }

  /** The dependency: a granted request runs with its admin as ambient actor, a refused one leaves the
      context as it was, and a denial is recorded once under the admin's email. */
  method CheckPermission(db: AuthService.Database, rbac: RbacService.RbacDatabase, context: AuditContext, log: AuditLog,
                         credentials: Option<Auth.Bearer>, now: Auth.Time, required: string,
                         request: HttpRequest, stored: bool)
    returns (reply: AccessReply)
    requires log.Valid()
    modifies context, log
    ensures log.Valid()
    ensures reply == RequirePermission(db.admins, rbac.State(), credentials, now, required)
    ensures context.current ==
      if reply.Granted? then Some(Actor(db.admins[reply.admin].email, ADMIN_ACTOR)) else old(context.current)
    ensures log.entries == old(log.entries) +
      if reply.PermissionDenied? && stored
      then [EntryOf(DenialRecord(db.admins[reply.admin].email, required, request), None)] else []
  {
    var error, admin, token := GetCurrentAdmin(db, context, credentials, now);
    if error.Some? {
      return Unauthenticated(error.value);
    }
    var granted := RbacService.PermissionsForAdmin(rbac, admin.id);
    if required in granted {
      return Granted(admin.id);
    }
    RecordEntry(log, context, DenialRecord(admin.email, required, request), stored);
    context.Reset(token);
    reply := PermissionDenied(admin.id);
  }
}
