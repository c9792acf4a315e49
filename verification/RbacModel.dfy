/** Roles, screens, grants and assignments: app/services/role_service.py, screen_service.py and
    rbac_service.py with their repositories, as functions on four tables. */
module RbacModel {
  import opened Common
  import opened ScreenCodes

  type AdminId = nat
  type RoleId = nat
  type ScreenId = nat
  type Code = string

  datatype Role = Role(name: string, description: Option<string>, status: Status)

  datatype Screen = Screen(id: ScreenId, code: Code, name: string, sortOrder: int, status: Status)

  datatype Flags = Flags(read: bool, write: bool)

  /** Row identifiers are drawn from `nextId`, which stands for fresh UUIDs. */
  datatype RbacState = RbacState(
    roles: map<RoleId, Role>,
    screens: seq<Screen>,
    grants: map<(RoleId, Code), Flags>,
    links: set<(AdminId, RoleId)>,
    nextId: nat)

  const SUPER_ADMIN: string := "super_admin"

  const PROTECTED_SCREENS: set<Code> := {"S1", "S2", "S3", "S4"}

  // ---- Lookups ----

  function RolesNamed(roles: map<RoleId, Role>, name: string): set<RoleId> {
    set r | r in roles && roles[r].name == name
  }

  function CodesOf(screens: seq<Screen>): (codes: seq<Code>)
    ensures |codes| == |screens| && forall i :: 0 <= i < |screens| ==> codes[i] == screens[i].code
  {
    seq(|screens|, i requires 0 <= i < |screens| => screens[i].code)
  }

  predicate HasCode(screens: seq<Screen>, code: Code) {
    exists i :: 0 <= i < |screens| && screens[i].code == code
  }

  predicate ActiveCode(screens: seq<Screen>, code: Code) {
    exists i :: 0 <= i < |screens| && screens[i].code == code && screens[i].status.Active?
  }

  /** Position of the screen with a given id. */
  function FindScreen(screens: seq<Screen>, id: ScreenId): (r: Option<nat>)
    ensures r.Some? ==> r.value < |screens| && screens[r.value].id == id
    ensures r.None? ==> forall i :: 0 <= i < |screens| ==> screens[i].id != id
  {
    if screens == [] then None
    else if screens[|screens| - 1].id == id then Some(|screens| - 1)
    else FindScreen(screens[..|screens| - 1], id)
  }

  // ---- Grants of a role ----

  datatype GrantItem = GrantItem(code: Code, read: bool, write: bool)

  /** Writing implies reading. */
  function Normalize(item: GrantItem): Flags { Flags(item.read || item.write, item.write) }

  /** `grants_by_code`: the last item for a code wins. */
  function Collect(items: seq<GrantItem>): map<Code, Flags> {
    if items == [] then map[]
    else Collect(items[..|items| - 1])[items[|items| - 1].code := Normalize(items[|items| - 1])]
  }

  function ReplaceGrants(grants: map<(RoleId, Code), Flags>, role: RoleId, flags: map<Code, Flags>)
    : map<(RoleId, Code), Flags>
  {
    (map k | k in grants && k.0 != role :: grants[k]) + (map c | c in flags :: (role, c) := flags[c])
  }

  datatype GrantRow = GrantRow(code: Code, name: string, sortOrder: int, read: bool, write: bool)

  function LexLess(s: string, t: string): bool {
    if t == "" then false
    else if s == "" then true
    else s[0] < t[0] || (s[0] == t[0] && LexLess(s[1..], t[1..]))
  }

  /** ORDER BY sort_order, code. */
  predicate Before(x: Screen, y: Screen) {
    x.sortOrder < y.sortOrder || (x.sortOrder == y.sortOrder && LexLess(x.code, y.code))
  }

  function InsertScreen(x: Screen, sorted: seq<Screen>): seq<Screen> {
    if sorted == [] || Before(x, sorted[0]) then [x] + sorted
    else [sorted[0]] + InsertScreen(x, sorted[1..])
  }

  function ActiveInOrder(screens: seq<Screen>): seq<Screen> {
    if screens == [] then []
    else
      var rest, last := ActiveInOrder(screens[..|screens| - 1]), screens[|screens| - 1];
      if last.status.Active? then InsertScreen(last, rest) else rest
  }

  function FlagsOf(grants: map<(RoleId, Code), Flags>, role: RoleId, code: Code): Flags {
    if (role, code) in grants then grants[(role, code)] else Flags(false, false)
  }

  /** The left join of the active screens with the grants of one role. */
  function GrantRows(screens: seq<Screen>, grants: map<(RoleId, Code), Flags>, role: RoleId): (rows: seq<GrantRow>)
    ensures |rows| == |screens|
    ensures forall i :: 0 <= i < |rows| ==>
      var s, f := screens[i], FlagsOf(grants, role, screens[i].code);
      rows[i] == GrantRow(s.code, s.name, s.sortOrder, f.read, f.write)
  {
    seq(|screens|, i requires 0 <= i < |screens| =>
      var s, f := screens[i], FlagsOf(grants, role, screens[i].code);
      GrantRow(s.code, s.name, s.sortOrder, f.read, f.write))
  }

  function RoleGrants(st: RbacState, role: RoleId): seq<GrantRow> {
    GrantRows(ActiveInOrder(st.screens), st.grants, role)
  }

  // ---- Requests ----

  datatype RbacRequest =
    | CreateRole(name: string, description: Option<string>, status: Status)
    | UpdateRole(role: RoleId, newName: Option<string>, newDescription: Option<string>, newStatus: Option<Status>)
    | DeleteRole(role: RoleId)
    | UpdateRoleGrants(role: RoleId, items: seq<GrantItem>)
    | CreateScreen(code: Option<Code>, name: string, sortOrder: int, status: Status)
    | UpdateScreen(screen: ScreenId, newName: Option<string>, newSort: Option<int>, newStatus: Option<Status>)
    | DeleteScreen(screen: ScreenId)
    | EnsureCatalog
    | AssignSuperAdmin(admin: AdminId)

  datatype RbacError =
    | RoleNotFound
    | RoleNameExists
    | ProtectedResource
    | UnknownScreens(codes: set<Code>)
    | ScreenNotFound
    | ScreenCodeExists

  datatype RbacReply = Ok | Rows(rows: seq<GrantRow>) | Failed(error: RbacError)

  datatype RbacOutcome = RbacOutcome(state: RbacState, reply: RbacReply)

  predicate NameTaken(st: RbacState, name: string, except: Option<RoleId>) {
    exists r :: r in RolesNamed(st.roles, name) && Some(r) != except
  }

  function CreateRoleStep(st: RbacState, req: RbacRequest): RbacOutcome
    requires req.CreateRole?
  {
    if NameTaken(st, req.name, None) then RbacOutcome(st, Failed(RoleNameExists))
    else
      RbacOutcome(st.(roles := st.roles[st.nextId := Role(req.name, req.description, req.status)],
                      nextId := st.nextId + 1), Ok)
  }

  /** The row with the provided fields applied. */
  function PatchRole(role: Role, req: RbacRequest): Role
    requires req.UpdateRole?
  {
    Role(
      if req.newName.Some? then req.newName.value else role.name,
      if req.newDescription.Some? then req.newDescription else role.description,
      if req.newStatus.Some? then req.newStatus.value else role.status)
  }

  function UpdateRoleStep(st: RbacState, req: RbacRequest): RbacOutcome
    requires req.UpdateRole?
  {
    if req.role !in st.roles then RbacOutcome(st, Failed(RoleNotFound))
    else
      var role := st.roles[req.role];
      if role.name == SUPER_ADMIN
         && ((req.newName.Some? && req.newName.value != SUPER_ADMIN) || req.newStatus == Some(Inactive))
      then RbacOutcome(st, Failed(ProtectedResource))
      else if req.newName.Some? && NameTaken(st, req.newName.value, Some(req.role))
      then RbacOutcome(st, Failed(RoleNameExists))
      else RbacOutcome(st.(roles := st.roles[req.role := PatchRole(role, req)]), Ok)
  }

  function DeleteRoleStep(st: RbacState, req: RbacRequest): RbacOutcome
    requires req.DeleteRole?
  {
    if req.role !in st.roles then RbacOutcome(st, Failed(RoleNotFound))
    else if st.roles[req.role].name == SUPER_ADMIN then RbacOutcome(st, Failed(ProtectedResource))
    else RbacOutcome(st.(roles := st.roles[req.role := st.roles[req.role].(status := Inactive)]), Ok)
  }

  function InvalidCodes(st: RbacState, items: seq<GrantItem>): set<Code> {
    set c | c in Collect(items) && !ActiveCode(st.screens, c)
  }

  function UpdateRoleGrantsStep(st: RbacState, req: RbacRequest): RbacOutcome
    requires req.UpdateRoleGrants?
  {
    if req.role !in st.roles then RbacOutcome(st, Failed(RoleNotFound))
    else if st.roles[req.role].name == SUPER_ADMIN then RbacOutcome(st, Failed(ProtectedResource))
    else
      var invalid := InvalidCodes(st, req.items);
      if invalid != {} then RbacOutcome(st, Failed(UnknownScreens(invalid)))
      else
        var after := st.(grants := ReplaceGrants(st.grants, req.role, Collect(req.items)));
        RbacOutcome(after, Rows(RoleGrants(after, req.role)))
  }

  function ChosenCode(st: RbacState, req: RbacRequest): Code
    requires req.CreateScreen?
  {
    if req.code.Some? && req.code.value != "" then req.code.value else NextCode(CodesOf(st.screens))
  }

  /** A new screen comes with its read and write grant for super_admin. */
  function AddScreen(st: RbacState, code: Code, name: string, sortOrder: int, status: Status): RbacState {
    st.(screens := st.screens + [Screen(st.nextId, code, name, sortOrder, status)],
        grants := st.grants + (map r | r in RolesNamed(st.roles, SUPER_ADMIN) :: (r, code) := Flags(true, true)),
        nextId := st.nextId + 1)
  }

  function CreateScreenStep(st: RbacState, req: RbacRequest): RbacOutcome
    requires req.CreateScreen?
  {
    var code := ChosenCode(st, req);
    if HasCode(st.screens, code) then RbacOutcome(st, Failed(ScreenCodeExists))
    else RbacOutcome(AddScreen(st, code, req.name, req.sortOrder, req.status), Ok)
  }

  function PatchScreen(screen: Screen, req: RbacRequest): Screen
    requires req.UpdateScreen?
  {
    screen.(name := if req.newName.Some? then req.newName.value else screen.name,
            sortOrder := if req.newSort.Some? then req.newSort.value else screen.sortOrder,
            status := if req.newStatus.Some? then req.newStatus.value else screen.status)
  }

  function UpdateScreenStep(st: RbacState, req: RbacRequest): RbacOutcome
    requires req.UpdateScreen?
  {
    match FindScreen(st.screens, req.screen)
    case None => RbacOutcome(st, Failed(ScreenNotFound))
    case Some(i) =>
      if st.screens[i].code in PROTECTED_SCREENS && req.newStatus == Some(Inactive)
      then RbacOutcome(st, Failed(ProtectedResource))
      else RbacOutcome(st.(screens := st.screens[i := PatchScreen(st.screens[i], req)]), Ok)
  }

  function DeleteScreenStep(st: RbacState, req: RbacRequest): RbacOutcome
    requires req.DeleteScreen?
  {
    match FindScreen(st.screens, req.screen)
    case None => RbacOutcome(st, Failed(ScreenNotFound))
    case Some(i) =>
      if st.screens[i].code in PROTECTED_SCREENS then RbacOutcome(st, Failed(ProtectedResource))
      else RbacOutcome(st.(screens := st.screens[i := st.screens[i].(status := Inactive)]), Ok)
  }

  // ---- Seeding (app/database/scripts/seed_rbac.py) ----

  datatype CatalogEntry = CatalogEntry(code: Code, name: string, sortOrder: int, read: bool, write: bool)

  /** The list SCREENS of the seed script. */
  const CATALOG: seq<CatalogEntry> := [
    CatalogEntry("S1", "User Management", 1, true, true),
    CatalogEntry("S2", "Audit Logs", 2, true, false),
    CatalogEntry("S3", "Role Management", 3, true, true),
    CatalogEntry("S4", "Screen Management", 4, true, true),
    CatalogEntry("S5", "Query Category", 5, true, true),
    CatalogEntry("S6", "Zones Management", 6, true, true)]

  /** `_get_or_create` of the super_admin role. */
  function WithSuperRole(st: RbacState): (r: RbacState)
    ensures RolesNamed(r.roles, SUPER_ADMIN) != {}
  {
    if RolesNamed(st.roles, SUPER_ADMIN) != {} then st
    else
      assert st.nextId in RolesNamed(st.roles[st.nextId := Role(SUPER_ADMIN, None, Active)], SUPER_ADMIN);
      st.(roles := st.roles[st.nextId := Role(SUPER_ADMIN, None, Active)], nextId := st.nextId + 1)
  }

  /** The role found by name; the name is unique in every table the schema allows. */
  ghost function SuperRole(roles: map<RoleId, Role>): (r: RoleId)
    requires RolesNamed(roles, SUPER_ADMIN) != {}
    ensures r in roles && roles[r].name == SUPER_ADMIN
  {
    var r :| r in RolesNamed(roles, SUPER_ADMIN);
    r
  }

  function WithScreen(st: RbacState, e: CatalogEntry): RbacState {
    if HasCode(st.screens, e.code) then st
    else st.(screens := st.screens + [Screen(st.nextId, e.code, e.name, e.sortOrder, Active)], nextId := st.nextId + 1)
  }

  function WithGrant(st: RbacState, role: RoleId, e: CatalogEntry): RbacState {
    if (role, e.code) in st.grants then st
    else st.(grants := st.grants[(role, e.code) := Flags(e.read, e.write)])
  }

  /** After the entries of a catalog, one by one. */
  function WithEntries(st: RbacState, role: RoleId, entries: seq<CatalogEntry>): RbacState {
    if entries == [] then st
    else
      var last := entries[|entries| - 1];
      WithGrant(WithScreen(WithEntries(st, role, entries[..|entries| - 1]), last), role, last)
  }

  ghost function EnsureCatalogStep(st: RbacState): RbacState {
    var s := WithSuperRole(st);
    WithEntries(s, SuperRole(s.roles), CATALOG)
  }

  ghost function AssignStep(st: RbacState, admin: AdminId): RbacState {
    var s := WithSuperRole(st);
    s.(links := s.links + {(admin, SuperRole(s.roles))})
  }

  ghost function RbacStep(st: RbacState, req: RbacRequest): RbacOutcome {
    match req
    case CreateRole(_, _, _) => CreateRoleStep(st, req)
    case UpdateRole(_, _, _, _) => UpdateRoleStep(st, req)
    case DeleteRole(_) => DeleteRoleStep(st, req)
    case UpdateRoleGrants(_, _) => UpdateRoleGrantsStep(st, req)
    case CreateScreen(_, _, _, _) => CreateScreenStep(st, req)
    case UpdateScreen(_, _, _, _) => UpdateScreenStep(st, req)
    case DeleteScreen(_) => DeleteScreenStep(st, req)
    case EnsureCatalog => RbacOutcome(EnsureCatalogStep(st), Ok)
    case AssignSuperAdmin(admin) => RbacOutcome(AssignStep(st, admin), Ok)
  }

  // ---- Effective permissions ----

  datatype Grant = Grant(code: Code, read: bool, write: bool)

  /** The four-table join: grants of active roles the admin holds, on active screens. */
  function GrantsOfAdmin(st: RbacState, admin: AdminId): set<Grant> {
    set k | k in st.grants && (admin, k.0) in st.links
            && k.0 in st.roles && st.roles[k.0].status.Active? && ActiveCode(st.screens, k.1)
          :: Grant(k.1, st.grants[k].read, st.grants[k].write)
  }

  /** `_expand`. */
  function Expand(grants: set<Grant>): set<string> {
    (set g | g in grants && (g.read || g.write) :: g.code + ".R") + (set g | g in grants && g.write :: g.code + ".W")
  }

  function PermissionsOf(st: RbacState, admin: AdminId): set<string> {
    Expand(GrantsOfAdmin(st, admin))
  }
}
