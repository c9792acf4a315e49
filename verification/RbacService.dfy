/** The role, screen, grant and seeding operations as they run: objects loaded from the session,
    changed field by field and committed. Each is proved against its step in RbacModel. */
module RbacService {
  import opened Common
  import opened RbacModel
  import opened ScreenCodes
  import RbacSafety

  class RbacDatabase {
    var roles: map<RoleId, Role>
    var screens: seq<Screen>
    var grants: map<(RoleId, Code), Flags>
    var links: set<(AdminId, RoleId)>
    var nextId: nat

    constructor (st: RbacState)
      ensures State() == st
    {
      roles, screens, grants, links, nextId := st.roles, st.screens, st.grants, st.links, st.nextId;
    }

    function State(): RbacState
      reads this
    {
      RbacState(roles, screens, grants, links, nextId)
    }

    /** The unique constraint on role names; RbacSafety shows that runs keep it. */
    ghost predicate Valid()
      reads this
    {
      RbacSafety.UniqueNames(roles)
    }

    method FreshId() returns (id: nat)
      modifies this`nextId
      ensures id == old(nextId) && nextId == old(nextId) + 1
    {
      id, nextId := nextId, nextId + 1;
    }
  }

  // ---- Roles ----

  class RoleObject {
    const id: RoleId
    var name: string
    var description: Option<string>
    var status: Status

    constructor (id: RoleId, row: Role)
      ensures this.id == id && Row() == row
    {
      this.id, name, description, status := id, row.name, row.description, row.status;
    }

    function Row(): Role
      reads this
    {
      Role(name, description, status)
    }
  }

  method GetRole(db: RbacDatabase, id: RoleId) returns (role: RoleObject?)
    ensures role == null <==> id !in db.roles
    ensures role != null ==> fresh(role) && role.id == id && role.Row() == db.roles[id]
  {
    role := null;
    if id in db.roles {
      role := new RoleObject(id, db.roles[id]);
    }
  }

  method GetRoleByName(db: RbacDatabase, name: string) returns (role: Option<RoleId>)
    requires db.Valid()
    ensures RolesNamed(db.roles, name) == if role.Some? then {role.value} else {}
  {
    var hits := RolesNamed(db.roles, name);
    if hits == {} {
      role := None;
    } else {
      var r :| r in hits;
      role := Some(r);
    }
  }

  method EnsureNameAvailable(db: RbacDatabase, name: string, excludeId: Option<RoleId>) returns (available: bool)
    requires db.Valid()
    ensures available == !NameTaken(db.State(), name, excludeId)
  {
    var existing := GetRoleByName(db, name);
    available := !(existing.Some? && (excludeId.None? || existing.value != excludeId.value));
    if !available {
      assert existing.value in RolesNamed(db.roles, name);
    }
  }

  method CreateRole(db: RbacDatabase, req: RbacRequest) returns (reply: RbacReply)
    requires db.Valid() && req.CreateRole?
    modifies db
    ensures RbacOutcome(db.State(), reply) == RbacStep(old(db.State()), req)
  {
    var available := EnsureNameAvailable(db, req.name, None);
    if !available {
      return Failed(RoleNameExists);
    }
    var id := db.FreshId();
    db.roles := db.roles[id := Role(req.name, req.description, req.status)];
    reply := Ok;
  }

  /** One entry of the partial-update payload. */
  datatype RoleChange = SetName(name: string) | SetDescription(text: string) | SetStatus(status: Status)

  function RolePayload(req: RbacRequest): seq<RoleChange>
    requires req.UpdateRole?
  {
    Maybe(req.newName, (n: string) => SetName(n)) + Maybe(req.newDescription, (t: string) => SetDescription(t))
    + Maybe(req.newStatus, (s: Status) => SetStatus(s))
  }

  function ApplyRoleChange(role: Role, change: RoleChange): Role {
    match change
    case SetName(name) => role.(name := name)
    case SetDescription(text) => role.(description := Some(text))
    case SetStatus(status) => role.(status := status)
  }

  function ApplyRoleChanges(role: Role, payload: seq<RoleChange>): Role {
    if payload == [] then role
    else ApplyRoleChange(ApplyRoleChanges(role, payload[..|payload| - 1]), payload[|payload| - 1])
  }

  lemma {:induction false} RoleChangesConcat(role: Role, p: seq<RoleChange>, q: seq<RoleChange>)
    ensures ApplyRoleChanges(role, p + q) == ApplyRoleChanges(ApplyRoleChanges(role, p), q)
  {
    if q == [] {
      assert p + q == p;
    } else {
      assert (p + q)[..|p + q| - 1] == p + q[..|q| - 1];
      RoleChangesConcat(role, p, q[..|q| - 1]);
    }
  }

  function Maybe<T>(x: Option<T>, change: T -> RoleChange): seq<RoleChange> {
    if x.Some? then [change(x.value)] else []
  }

  lemma MaybeApplied<T>(role: Role, x: Option<T>, change: T -> RoleChange)
    ensures ApplyRoleChanges(role, Maybe(x, change)) == if x.Some? then ApplyRoleChange(role, change(x.value)) else role
  {
    if x.Some? {
      assert [change(x.value)][..0] == [];
    }
  }

  /** Setting the provided fields one by one is the patch. */
  lemma RolePayloadPatches(role: Role, req: RbacRequest)
    requires req.UpdateRole?
    ensures ApplyRoleChanges(role, RolePayload(req)) == PatchRole(role, req)
  {
    var name := Maybe(req.newName, (n: string) => SetName(n));
    var text := Maybe(req.newDescription, (t: string) => SetDescription(t));
    var status := Maybe(req.newStatus, (s: Status) => SetStatus(s));
    RoleChangesConcat(role, name + text, status);
    RoleChangesConcat(role, name, text);
    MaybeApplied(role, req.newName, (n: string) => SetName(n));
    var named := ApplyRoleChanges(role, name);
    MaybeApplied(named, req.newDescription, (t: string) => SetDescription(t));
    MaybeApplied(ApplyRoleChanges(named, text), req.newStatus, (s: Status) => SetStatus(s));
  }

  /** `role_repository.update_role`. */
  method StoreRole(db: RbacDatabase, role: RoleObject, payload: seq<RoleChange>)
    modifies role, db`roles
    ensures db.roles == old(db.roles)[role.id := ApplyRoleChanges(old(role.Row()), payload)]
  {
    ghost var before := role.Row();
    for i := 0 to |payload|
      invariant role.Row() == ApplyRoleChanges(before, payload[..i]) && db.roles == old(db.roles)
    {
      match payload[i] {
        case SetName(name) => role.name := name;
        case SetDescription(text) => role.description := Some(text);
        case SetStatus(status) => role.status := status;
      }
      assert payload[..i + 1][..i] == payload[..i];
    }
    assert payload[..|payload|] == payload;
    db.roles := db.roles[role.id := role.Row()];
  }

  method UpdateRole(db: RbacDatabase, req: RbacRequest) returns (reply: RbacReply)
    requires db.Valid() && req.UpdateRole?
    modifies db
    ensures RbacOutcome(db.State(), reply) == RbacStep(old(db.State()), req)
  {
    var role := GetRole(db, req.role);
    if role == null {
      return Failed(RoleNotFound);
    }
    if role.name == SUPER_ADMIN {
      if req.newName.Some? && req.newName.value != SUPER_ADMIN {
        return Failed(ProtectedResource);
      }
      if req.newStatus == Some(Inactive) {
        return Failed(ProtectedResource);
      }
    }
    if req.newName.Some? {
      var available := EnsureNameAvailable(db, req.newName.value, Some(req.role));
      if !available {
        return Failed(RoleNameExists);
      }
    }
    RolePayloadPatches(role.Row(), req);
    StoreRole(db, role, RolePayload(req));
    reply := Ok;
  }

  method DeleteRole(db: RbacDatabase, req: RbacRequest) returns (reply: RbacReply)
    requires req.DeleteRole?
    modifies db
    ensures RbacOutcome(db.State(), reply) == RbacStep(old(db.State()), req)
  {
    var role := GetRole(db, req.role);
    if role == null {
      return Failed(RoleNotFound);
    }
    if role.name == SUPER_ADMIN {
      return Failed(ProtectedResource);
    }
    role.status := Inactive;
    db.roles := db.roles[role.id := role.Row()];
    reply := Ok;
  }

  // ---- Grants of a role ----

  /** `screen_grants_for_role`: the rows of the left join, one by one. */
  method ScreenGrantsForRole(db: RbacDatabase, role: RoleId) returns (rows: seq<GrantRow>)
    ensures rows == RoleGrants(db.State(), role)
  {
    var joined := ActiveInOrder(db.screens);
    rows := [];
    for i := 0 to |joined|
      invariant rows == GrantRows(joined[..i], db.grants, role)
    {
      var flags := FlagsOf(db.grants, role, joined[i].code);
      rows := rows + [GrantRow(joined[i].code, joined[i].name, joined[i].sortOrder, flags.read, flags.write)];
    }
    assert joined[..|joined|] == joined;
  }

  method GetRoleGrants(db: RbacDatabase, id: RoleId) returns (reply: RbacReply)
    ensures reply == if id in db.roles then Rows(RoleGrants(db.State(), id)) else Failed(RoleNotFound)
  {
    var role := GetRole(db, id);
    if role == null {
      return Failed(RoleNotFound);
    }
    var rows := ScreenGrantsForRole(db, id);
    reply := Rows(rows);
  }

  /** Deletes every grant of the role, then inserts the new ones. */
  method ReplaceRoleGrants(db: RbacDatabase, role: RoleId, flags: map<Code, Flags>)
    modifies db`grants
    ensures db.grants == ReplaceGrants(old(db.grants), role, flags)
    ensures forall c :: ((role, c) in db.grants <==> c in flags) && (c in flags ==> db.grants[(role, c)] == flags[c])
    ensures forall k :: k in old(db.grants) && k.0 != role ==> k in db.grants && db.grants[k] == old(db.grants)[k]
    ensures forall k :: k in db.grants && k.0 != role ==> k in old(db.grants)
  {
    db.grants := map k | k in db.grants && k.0 != role :: db.grants[k];
    db.grants := db.grants + (map c | c in flags :: (role, c) := flags[c]);
  }

  method UpdateRoleGrants(db: RbacDatabase, req: RbacRequest) returns (reply: RbacReply)
    requires req.UpdateRoleGrants?
    modifies db
    ensures RbacOutcome(db.State(), reply) == RbacStep(old(db.State()), req)
  {
    var role := GetRole(db, req.role);
    if role == null {
      return Failed(RoleNotFound);
    }
    if role.name == SUPER_ADMIN {
      return Failed(ProtectedResource);
    }
    var grantsByCode: map<Code, Flags> := map[];
    for i := 0 to |req.items|
      invariant grantsByCode == Collect(req.items[..i])
    {
      var item := req.items[i];
      grantsByCode := grantsByCode[item.code := Flags(item.read || item.write, item.write)];
      assert req.items[..i + 1][..i] == req.items[..i];
    }
    assert req.items[..|req.items|] == req.items;
    var invalid := set c | c in grantsByCode && !ActiveCode(db.screens, c);
    if invalid != {} {
      return Failed(UnknownScreens(invalid));
    }
    ReplaceRoleGrants(db, req.role, grantsByCode);
    var rows := ScreenGrantsForRole(db, req.role);
    reply := Rows(rows);
  }

  // ---- Screens ----

  lemma BootstrapGrant(grants: map<(RoleId, Code), Flags>, superAdmin: Option<RoleId>, code: Code)
    ensures grants + (map r | r in (if superAdmin.Some? then {superAdmin.value} else {}) ::
                        (r, code) := Flags(true, true))
         == if superAdmin.Some? then grants[(superAdmin.value, code) := Flags(true, true)] else grants
  {
  }

  /** `screen_repository.create_screen`: the screen and its super_admin grant in one commit. */
  method StoreNewScreen(db: RbacDatabase, code: Code, req: RbacRequest, superAdmin: Option<RoleId>)
    requires req.CreateScreen?
    requires RolesNamed(db.roles, SUPER_ADMIN) == if superAdmin.Some? then {superAdmin.value} else {}
    modifies db
    ensures db.State() == AddScreen(old(db.State()), code, req.name, req.sortOrder, req.status)
  {
    BootstrapGrant(db.grants, superAdmin, code);
    var id := db.FreshId();
    db.screens := db.screens + [Screen(id, code, req.name, req.sortOrder, req.status)];
    if superAdmin.Some? {
      db.grants := db.grants[(superAdmin.value, code) := Flags(true, true)];
    }
  }

  method CreateScreen(db: RbacDatabase, req: RbacRequest) returns (reply: RbacReply)
    requires db.Valid() && req.CreateScreen?
    modifies db
    ensures RbacOutcome(db.State(), reply) == RbacStep(old(db.State()), req)
  {
    var code: Code;
    if req.code.Some? && req.code.value != "" {
      code := req.code.value;
    } else {
      code := NextScreenCode(CodesOf(db.screens));
    }
    if HasCode(db.screens, code) {
      return Failed(ScreenCodeExists);
    }
    var superAdmin := GetRoleByName(db, SUPER_ADMIN);
    StoreNewScreen(db, code, req, superAdmin);
    reply := Ok;
  }

  class ScreenObject {
    const at: nat
    const id: ScreenId
    const code: Code
    var name: string
    var sortOrder: int
    var status: Status

    constructor (at: nat, row: Screen)
      ensures this.at == at && Row() == row
    {
      this.at, id, code, name, sortOrder, status := at, row.id, row.code, row.name, row.sortOrder, row.status;
    }

    function Row(): Screen
      reads this
    {
      Screen(id, code, name, sortOrder, status)
    }
  }

  method GetScreen(db: RbacDatabase, id: ScreenId) returns (screen: ScreenObject?)
    ensures screen == null <==> FindScreen(db.screens, id).None?
    ensures screen != null ==>
      fresh(screen) && FindScreen(db.screens, id) == Some(screen.at) && screen.Row() == db.screens[screen.at]
  {
    var at := FindScreen(db.screens, id);
    screen := null;
    if at.Some? {
      screen := new ScreenObject(at.value, db.screens[at.value]);
    }
  }

  /** The commit after a change of one screen object. */
  method StoreScreen(db: RbacDatabase, screen: ScreenObject)
    requires screen.at < |db.screens|
    modifies db`screens
    ensures db.screens == old(db.screens)[screen.at := screen.Row()]
  {
    db.screens := db.screens[screen.at := screen.Row()];
  }

  method UpdateScreen(db: RbacDatabase, req: RbacRequest) returns (reply: RbacReply)
    requires req.UpdateScreen?
    modifies db
    ensures RbacOutcome(db.State(), reply) == RbacStep(old(db.State()), req)
  {
    var screen := GetScreen(db, req.screen);
    if screen == null {
      return Failed(ScreenNotFound);
    }
    if screen.code in PROTECTED_SCREENS && req.newStatus == Some(Inactive) {
      return Failed(ProtectedResource);
    }
    if req.newName.Some? {
      screen.name := req.newName.value;
    }
    if req.newSort.Some? {
      screen.sortOrder := req.newSort.value;
    }
    if req.newStatus.Some? {
      screen.status := req.newStatus.value;
    }
    StoreScreen(db, screen);
    reply := Ok;
  }

  method DeleteScreen(db: RbacDatabase, req: RbacRequest) returns (reply: RbacReply)
    requires req.DeleteScreen?
    modifies db
    ensures RbacOutcome(db.State(), reply) == RbacStep(old(db.State()), req)
  {
    var screen := GetScreen(db, req.screen);
    if screen == null {
      return Failed(ScreenNotFound);
    }
    if screen.code in PROTECTED_SCREENS {
      return Failed(ProtectedResource);
    }
    screen.status := Inactive;
    StoreScreen(db, screen);
    reply := Ok;
  }

  // ---- Seeding ----

  method GetOrCreateSuperRole(db: RbacDatabase) returns (role: RoleId)
    requires db.Valid()
    modifies db
    ensures db.State() == WithSuperRole(old(db.State()))
    ensures role == SuperRole(db.roles)
  {
    var existing := GetRoleByName(db, SUPER_ADMIN);
    if existing.Some? {
      assert existing.value in RolesNamed(db.roles, SUPER_ADMIN);
      role := existing.value;
    } else {
      role := db.FreshId();
      db.roles := db.roles[role := Role(SUPER_ADMIN, None, Active)];
      assert forall r :: r in db.roles && r != role ==>
        r in old(db.roles) && r !in RolesNamed(old(db.roles), SUPER_ADMIN);
      assert RolesNamed(db.roles, SUPER_ADMIN) == {role};
    }
  }

  method GetOrCreateScreen(db: RbacDatabase, e: CatalogEntry)
    modifies db
    ensures db.State() == WithScreen(old(db.State()), e)
  {
    if !HasCode(db.screens, e.code) {
      var id := db.FreshId();
      db.screens := db.screens + [Screen(id, e.code, e.name, e.sortOrder, Active)];
    }
  }

  method GetOrCreateGrant(db: RbacDatabase, role: RoleId, e: CatalogEntry)
    modifies db
    ensures db.State() == WithGrant(old(db.State()), role, e)
  {
    if (role, e.code) !in db.grants {
      db.grants := db.grants[(role, e.code) := Flags(e.read, e.write)];
    }
  }

  method EnsureCatalog(db: RbacDatabase)
    requires db.Valid()
    modifies db
    ensures RbacOutcome(db.State(), Ok) == RbacStep(old(db.State()), RbacRequest.EnsureCatalog)
  {
    var role := GetOrCreateSuperRole(db);
    ghost var start := db.State();
    var entries := CATALOG;
    for i := 0 to |entries|
      invariant db.State() == WithEntries(start, role, entries[..i])
    {
      GetOrCreateScreen(db, entries[i]);
      GetOrCreateGrant(db, role, entries[i]);
      assert entries[..i + 1][..i] == entries[..i];
    }
    assert entries[..|entries|] == CATALOG;
  }

  method AssignSuperAdmin(db: RbacDatabase, admin: AdminId)
    requires db.Valid()
    modifies db
    ensures RbacOutcome(db.State(), Ok) == RbacStep(old(db.State()), RbacRequest.AssignSuperAdmin(admin))
  {
    var role := GetOrCreateSuperRole(db);
    if (admin, role) !in db.links {
      db.links := db.links + {(admin, role)};
    }
  }

  // ---- Effective permissions ----

  /** One row of the inner join of assignments, roles, grants and screens. */
  datatype JoinRow = JoinRow(link: (AdminId, RoleId), role: RoleId, grant: (RoleId, Code), screen: nat)

  function Join(st: RbacState, admin: AdminId): set<JoinRow> {
    set link, role, grant, screen |
      link in st.links && role in st.roles && grant in st.grants && 0 <= screen < |st.screens|
      && link.1 == grant.0 && role == grant.0 && st.screens[screen].code == grant.1
      && link.0 == admin && st.roles[role].status.Active? && st.screens[screen].status.Active?
    :: JoinRow(link, role, grant, screen)
  }

  /** The grants of some joined rows. */
  function Selected(st: RbacState, rows: set<JoinRow>): set<Grant>
    requires forall row :: row in rows ==> row.grant in st.grants
  {
    set row | row in rows :: Grant(row.grant.1, st.grants[row.grant].read, st.grants[row.grant].write)
  }

  lemma JoinSelectsGrants(st: RbacState, admin: AdminId)
    ensures Selected(st, Join(st, admin)) == GrantsOfAdmin(st, admin)
  {
    forall g | g in GrantsOfAdmin(st, admin) ensures g in Selected(st, Join(st, admin)) {
      var k :| k in st.grants && (admin, k.0) in st.links && k.0 in st.roles && st.roles[k.0].status.Active?
        && ActiveCode(st.screens, k.1) && g == Grant(k.1, st.grants[k].read, st.grants[k].write);
      var i :| 0 <= i < |st.screens| && st.screens[i].code == k.1 && st.screens[i].status.Active?;
      assert JoinRow((admin, k.0), k.0, k, i) in Join(st, admin);
    }
  }

  /** `screen_grants_for_admin`. */
  method ScreenGrantsForAdmin(db: RbacDatabase, admin: AdminId) returns (grants: set<Grant>)
    ensures grants == GrantsOfAdmin(db.State(), admin)
  {
    var result := Join(db.State(), admin);
    var left := result;
    grants := {};
    while left != {}
      invariant left <= result && grants == Selected(db.State(), result - left)
      decreases |left|
    {
      var row :| row in left;
      left := left - {row};
      grants := grants + {Grant(row.grant.1, db.grants[row.grant].read, db.grants[row.grant].write)};
    }
    assert result - left == result;
    JoinSelectsGrants(db.State(), admin);
  }

  /** The loop of `_expand`. */
  method ExpandGrants(grants: set<Grant>) returns (permissions: set<string>)
    ensures permissions == Expand(grants)
  {
    var left := grants;
    permissions := {};
    while left != {}
      invariant left <= grants && permissions == Expand(grants - left)
      decreases |left|
    {
      var g :| g in left;
      left := left - {g};
      if g.read || g.write {
        permissions := permissions + {g.code + ".R"};
      }
      if g.write {
        permissions := permissions + {g.code + ".W"};
      }
    }
    assert grants - left == grants;
  }

  method PermissionsForAdmin(db: RbacDatabase, admin: AdminId) returns (permissions: set<string>)
    ensures permissions == PermissionsOf(db.State(), admin)
  {
    var grants := ScreenGrantsForAdmin(db, admin);
    permissions := ExpandGrants(grants);
  }
}
