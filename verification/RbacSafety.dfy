/** No run of role, screen and grant requests can lock the super admins out. */
module RbacSafety {
  import opened Common
  import opened RbacModel

  // ---- What the schema guarantees, table by table ----

  ghost predicate UniqueNames(roles: map<RoleId, Role>) {
    forall r, q :: r in roles && q in roles && roles[r].name == roles[q].name ==> r == q
  }

  ghost predicate UniqueScreens(screens: seq<Screen>) {
    forall i, j :: 0 <= i < j < |screens| ==> screens[i].id != screens[j].id && screens[i].code != screens[j].code
  }

  ghost predicate IdsBelow(roles: map<RoleId, Role>, screens: seq<Screen>, nextId: nat) {
    && (forall r :: r in roles ==> r < nextId)
    && (forall i :: 0 <= i < |screens| ==> screens[i].id < nextId)
  }

  ghost predicate Refers(roles: set<RoleId>, screens: seq<Screen>, k: (RoleId, Code)) {
    k.0 in roles && HasCode(screens, k.1)
  }

  /** Foreign keys of the grants. */
  ghost predicate GrantsRefer(roles: set<RoleId>, screens: seq<Screen>, grants: map<(RoleId, Code), Flags>) {
    forall k {:trigger Refers(roles, screens, k)} :: k in grants ==> Refers(roles, screens, k)
  }

  ghost predicate WellFormed(st: RbacState) {
    && UniqueNames(st.roles) && UniqueScreens(st.screens) && IdsBelow(st.roles, st.screens, st.nextId)
    && GrantsRefer(st.roles.Keys, st.screens, st.grants)
  }

  // ---- What keeps the door open ----

  /** The screens super_admin can write, by the catalog, among the protected ones. */
  const WRITABLE: set<Code> := {"S1", "S3", "S4"}

  ghost predicate SuperActive(roles: map<RoleId, Role>, s: RoleId) {
    s in roles && roles[s].name == SUPER_ADMIN && roles[s].status.Active?
  }

  ghost predicate ReadsAll(screens: seq<Screen>, grants: map<(RoleId, Code), Flags>, s: RoleId) {
    forall i :: 0 <= i < |screens| ==> (s, screens[i].code) in grants && grants[(s, screens[i].code)].read
  }

  ghost predicate WritesProtected(grants: map<(RoleId, Code), Flags>, s: RoleId) {
    forall c :: c in WRITABLE ==> (s, c) in grants && grants[(s, c)].write
  }

  ghost predicate ProtectedActive(screens: seq<Screen>) {
    forall c :: c in PROTECTED_SCREENS ==> ActiveCode(screens, c)
  }

  /** The screens of a catalog are present. */
  ghost predicate CatalogPresent(screens: seq<Screen>, entries: seq<CatalogEntry>) {
    forall i :: 0 <= i < |entries| ==> HasCode(screens, entries[i].code)
  }

  /** `s` is the one role named super_admin; it is active, reads every screen, and the protected
      screens are present and active with their write grants. */
  ghost predicate Safe(st: RbacState, s: RoleId) {
    && WellFormed(st)
    && SuperActive(st.roles, s)
    && ReadsAll(st.screens, st.grants, s)
    && WritesProtected(st.grants, s)
    && ProtectedActive(st.screens)
    && CatalogPresent(st.screens, CATALOG)
  }

  lemma OneSuperAdmin(roles: map<RoleId, Role>, s: RoleId)
    requires UniqueNames(roles) && SuperActive(roles, s)
    ensures RolesNamed(roles, SUPER_ADMIN) == {s} && SuperRole(roles) == s
  {
    assert s in RolesNamed(roles, SUPER_ADMIN);
  }

  // ---- Every request keeps it ----

  lemma NameFree(st: RbacState, name: string, except: Option<RoleId>)
    ensures NameTaken(st, name, except) || forall r :: r in st.roles && st.roles[r].name == name ==> Some(r) == except
  {
    forall r | r in st.roles && st.roles[r].name == name && Some(r) != except ensures NameTaken(st, name, except) {
      assert r in RolesNamed(st.roles, name);
    }
  }

  lemma RoleWriteKeepsNames(roles: map<RoleId, Role>, id: RoleId, role: Role)
    requires UniqueNames(roles)
    requires forall r :: r in roles && roles[r].name == role.name ==> r == id
    ensures UniqueNames(roles[id := role])
  {
  }

  /** Writing one role keeps the state safe when names stay unique and super_admin stays active. */
  lemma RoleWriteKeeps(st: RbacState, s: RoleId, id: RoleId, role: Role, nextId: nat)
    requires Safe(st, s) && st.nextId <= nextId && id < nextId
    requires forall r :: r in st.roles && st.roles[r].name == role.name ==> r == id
    requires id == s ==> role.name == SUPER_ADMIN && role.status.Active?
    ensures Safe(st.(roles := st.roles[id := role], nextId := nextId), s)
  {
    RoleWriteKeepsNames(st.roles, id, role);
    forall k | k in st.grants ensures Refers(st.roles[id := role].Keys, st.screens, k) {
      assert Refers(st.roles.Keys, st.screens, k);
    }
  }

  lemma CreateRoleKeeps(st: RbacState, s: RoleId, req: RbacRequest)
    requires Safe(st, s) && req.CreateRole?
    ensures Safe(CreateRoleStep(st, req).state, s)
  {
    NameFree(st, req.name, None);
    if !NameTaken(st, req.name, None) {
      RoleWriteKeeps(st, s, st.nextId, Role(req.name, req.description, req.status), st.nextId + 1);
    }
  }

  lemma UpdateRoleKeeps(st: RbacState, s: RoleId, req: RbacRequest)
    requires Safe(st, s) && req.UpdateRole?
    ensures Safe(UpdateRoleStep(st, req).state, s)
  {
    if UpdateRoleStep(st, req).reply.Ok? {
      if req.newName.Some? {
        NameFree(st, req.newName.value, Some(req.role));
      }
      RoleWriteKeeps(st, s, req.role, PatchRole(st.roles[req.role], req), st.nextId);
    }
  }

  lemma DeleteRoleKeeps(st: RbacState, s: RoleId, req: RbacRequest)
    requires Safe(st, s) && req.DeleteRole?
    ensures Safe(DeleteRoleStep(st, req).state, s)
  {
    if DeleteRoleStep(st, req).reply.Ok? {
      RoleWriteKeeps(st, s, req.role, st.roles[req.role].(status := Inactive), st.nextId);
    }
  }

  lemma ValidItemsRefer(st: RbacState, role: RoleId, items: seq<GrantItem>)
    requires GrantsRefer(st.roles.Keys, st.screens, st.grants) && role in st.roles && InvalidCodes(st, items) == {}
    ensures GrantsRefer(st.roles.Keys, st.screens, ReplaceGrants(st.grants, role, Collect(items)))
  {
    var after := ReplaceGrants(st.grants, role, Collect(items));
    forall k | k in after ensures Refers(st.roles.Keys, st.screens, k) {
      if k.0 == role {
        assert k.1 !in InvalidCodes(st, items);
        var i :| 0 <= i < |st.screens| && st.screens[i].code == k.1 && st.screens[i].status.Active?;
      }
    }
  }

  lemma UpdateRoleGrantsKeeps(st: RbacState, s: RoleId, req: RbacRequest)
    requires Safe(st, s) && req.UpdateRoleGrants?
    ensures Safe(UpdateRoleGrantsStep(st, req).state, s)
  {
    if UpdateRoleGrantsStep(st, req).reply.Rows? {
      ValidItemsRefer(st, req.role, req.items);
      assert req.role != s;
    }
  }

  lemma HasCodeGrows(before: seq<Screen>, after: seq<Screen>, code: Code)
    requires |before| <= |after| && forall i :: 0 <= i < |before| ==> after[i].code == before[i].code
    requires HasCode(before, code)
    ensures HasCode(after, code)
  {
    var i :| 0 <= i < |before| && before[i].code == code;
    assert after[i].code == code;
  }

  lemma CatalogStays(before: seq<Screen>, after: seq<Screen>, entries: seq<CatalogEntry>)
    requires CatalogPresent(before, entries)
    requires |before| <= |after| && forall i :: 0 <= i < |before| ==> after[i].code == before[i].code
    ensures CatalogPresent(after, entries)
  {
    forall i | 0 <= i < |entries| ensures HasCode(after, entries[i].code) {
      HasCodeGrows(before, after, entries[i].code);
    }
  }

  lemma ProtectedStay(before: seq<Screen>, after: seq<Screen>)
    requires ProtectedActive(before)
    requires |before| <= |after| && forall i :: 0 <= i < |before| ==> after[i].code == before[i].code
    requires forall i :: 0 <= i < |before| && before[i].code in PROTECTED_SCREENS && before[i].status.Active? ==>
      after[i].status.Active?
    ensures ProtectedActive(after)
  {
    forall c | c in PROTECTED_SCREENS ensures ActiveCode(after, c) {
      var i :| 0 <= i < |before| && before[i].code == c && before[i].status.Active?;
      assert after[i].code == c;
    }
  }

  lemma ReferencesStay(roles: set<RoleId>, before: seq<Screen>, after: seq<Screen>, grants: map<(RoleId, Code), Flags>)
    requires GrantsRefer(roles, before, grants)
    requires |before| <= |after| && forall i :: 0 <= i < |before| ==> after[i].code == before[i].code
    ensures GrantsRefer(roles, after, grants)
  {
    forall k | k in grants ensures Refers(roles, after, k) {
      assert Refers(roles, before, k);
      HasCodeGrows(before, after, k.1);
    }
  }

  lemma OneBootstrapGrant(grants: map<(RoleId, Code), Flags>, s: RoleId, code: Code)
    ensures grants + (map r | r in {s} :: (r, code) := Flags(true, true))
         == grants + map[(s, code) := Flags(true, true)]
  {
    assert (map r | r in {s} :: (r, code) := Flags(true, true)) == map[(s, code) := Flags(true, true)];
  }

  /** With one super_admin a new screen brings one grant. */
  lemma AddScreenAddsOneGrant(st: RbacState, s: RoleId, code: Code, name: string, sortOrder: int, status: Status)
    requires UniqueNames(st.roles) && SuperActive(st.roles, s)
    ensures AddScreen(st, code, name, sortOrder, status)
         == st.(screens := st.screens + [Screen(st.nextId, code, name, sortOrder, status)],
                grants := st.grants + map[(s, code) := Flags(true, true)],
                nextId := st.nextId + 1)
  {
    OneSuperAdmin(st.roles, s);
    OneBootstrapGrant(st.grants, s, code);
  }

  lemma CreateScreenKeeps(st: RbacState, s: RoleId, req: RbacRequest)
    requires Safe(st, s) && req.CreateScreen?
    ensures Safe(CreateScreenStep(st, req).state, s)
  {
    var code := ChosenCode(st, req);
    if !HasCode(st.screens, code) {
      AddScreenAddsOneGrant(st, s, code, req.name, req.sortOrder, req.status);
      ScreenAdditionKeeps(st, s, Screen(st.nextId, code, req.name, req.sortOrder, req.status));
    }
  }

  lemma ScreenAdditionKeeps(st: RbacState, s: RoleId, screen: Screen)
    requires Safe(st, s) && !HasCode(st.screens, screen.code) && screen.id == st.nextId
    ensures Safe(st.(screens := st.screens + [screen],
                     grants := st.grants + map[(s, screen.code) := Flags(true, true)],
                     nextId := st.nextId + 1), s)
  {
    var after := st.screens + [screen];
    var grants := st.grants + map[(s, screen.code) := Flags(true, true)];
    ProtectedStay(st.screens, after);
    CatalogStays(st.screens, after, CATALOG);
    NewCodeUnique(st.screens, screen, st.nextId);
    NewGrantRefers(st, s, screen, grants);
    NewGrantReads(st.screens, st.grants, s, screen);
    NewIdBelow(st.roles, st.screens, screen, st.nextId);
  }

  lemma NewGrantReads(screens: seq<Screen>, grants: map<(RoleId, Code), Flags>, s: RoleId, screen: Screen)
    requires ReadsAll(screens, grants, s) && WritesProtected(grants, s)
    ensures ReadsAll(screens + [screen], grants + map[(s, screen.code) := Flags(true, true)], s)
    ensures WritesProtected(grants + map[(s, screen.code) := Flags(true, true)], s)
  {
  }

  lemma NewIdBelow(roles: map<RoleId, Role>, screens: seq<Screen>, screen: Screen, nextId: nat)
    requires IdsBelow(roles, screens, nextId) && screen.id == nextId
    ensures IdsBelow(roles, screens + [screen], nextId + 1)
  {
  }

  lemma NewGrantRefers(st: RbacState, s: RoleId, screen: Screen, grants: map<(RoleId, Code), Flags>)
    requires GrantsRefer(st.roles.Keys, st.screens, st.grants) && s in st.roles
    requires grants == st.grants + map[(s, screen.code) := Flags(true, true)]
    ensures GrantsRefer(st.roles.Keys, st.screens + [screen], grants)
  {
    var after := st.screens + [screen];
    ReferencesStay(st.roles.Keys, st.screens, after, st.grants);
    assert after[|st.screens|].code == screen.code;
    forall k | k in grants ensures Refers(st.roles.Keys, after, k) {
      if k != (s, screen.code) {
        assert Refers(st.roles.Keys, after, k);
      }
    }
  }

  lemma NewCodeUnique(screens: seq<Screen>, screen: Screen, nextId: nat)
    requires UniqueScreens(screens) && !HasCode(screens, screen.code) && screen.id == nextId
    requires forall i :: 0 <= i < |screens| ==> screens[i].id < nextId
    ensures UniqueScreens(screens + [screen])
  {
    forall i | 0 <= i < |screens| ensures screens[i].code != screen.code {
      assert !(0 <= i < |screens| && screens[i].code == screen.code);
    }
  }

  lemma KeysStay(before: seq<Screen>, after: seq<Screen>)
    requires UniqueScreens(before) && |after| == |before|
    requires forall i :: 0 <= i < |before| ==> after[i].code == before[i].code && after[i].id == before[i].id
    ensures UniqueScreens(after)
  {
  }

  lemma ReadsStay(before: seq<Screen>, after: seq<Screen>, grants: map<(RoleId, Code), Flags>, s: RoleId)
    requires ReadsAll(before, grants, s) && |after| == |before|
    requires forall i :: 0 <= i < |before| ==> after[i].code == before[i].code
    ensures ReadsAll(after, grants, s)
  {
  }

  lemma ScreenChangeKeeps(st: RbacState, s: RoleId, i: nat, screen: Screen)
    requires Safe(st, s) && i < |st.screens|
    requires screen.id == st.screens[i].id && screen.code == st.screens[i].code
    requires st.screens[i].code in PROTECTED_SCREENS && st.screens[i].status.Active? ==> screen.status.Active?
    ensures Safe(st.(screens := st.screens[i := screen]), s)
  {
    var after := st.screens[i := screen];
    ProtectedStay(st.screens, after);
    CatalogStays(st.screens, after, CATALOG);
    ReferencesStay(st.roles.Keys, st.screens, after, st.grants);
    KeysStay(st.screens, after);
    ReadsStay(st.screens, after, st.grants, s);
    assert IdsBelow(st.roles, after, st.nextId);
  }

  lemma UpdateScreenKeeps(st: RbacState, s: RoleId, req: RbacRequest)
    requires Safe(st, s) && req.UpdateScreen?
    ensures Safe(UpdateScreenStep(st, req).state, s)
  {
    var at := FindScreen(st.screens, req.screen);
    if at.Some? && UpdateScreenStep(st, req).reply.Ok? {
      ScreenChangeKeeps(st, s, at.value, PatchScreen(st.screens[at.value], req));
    }
  }

  lemma DeleteScreenKeeps(st: RbacState, s: RoleId, req: RbacRequest)
    requires Safe(st, s) && req.DeleteScreen?
    ensures Safe(DeleteScreenStep(st, req).state, s)
  {
    var at := FindScreen(st.screens, req.screen);
    if at.Some? && DeleteScreenStep(st, req).reply.Ok? {
      ScreenChangeKeeps(st, s, at.value, st.screens[at.value].(status := Inactive));
    }
  }

  // ---- Seeding ----

  /** The grants of a catalog are there. */
  ghost predicate GrantsPresent(grants: map<(RoleId, Code), Flags>, role: RoleId, entries: seq<CatalogEntry>) {
    forall i :: 0 <= i < |entries| ==> (role, entries[i].code) in grants
  }

  ghost predicate GrantsKept(before: map<(RoleId, Code), Flags>, after: map<(RoleId, Code), Flags>) {
    forall k :: k in before ==> k in after && after[k] == before[k]
  }

  /** `after` has every row of `before` as it was, and possibly more. */
  ghost predicate Extends(before: RbacState, after: RbacState) {
    && (forall r :: r in before.roles ==> r in after.roles && after.roles[r] == before.roles[r])
    && before.screens <= after.screens
    && GrantsKept(before.grants, after.grants)
    && before.links == after.links
  }

  /** One catalog entry: its screen and grant are there afterwards, and nothing else has changed. */
  lemma EntryAdded(st: RbacState, role: RoleId, e: CatalogEntry)
    ensures var after := WithGrant(WithScreen(st, e), role, e);
      && Extends(st, after) && after.roles == st.roles
      && HasCode(after.screens, e.code) && (role, e.code) in after.grants
  {
    var after := WithScreen(st, e);
    if !HasCode(st.screens, e.code) {
      assert after.screens[|st.screens|].code == e.code;
    }
  }

  lemma {:induction false} EntriesOnlyAdd(st: RbacState, role: RoleId, entries: seq<CatalogEntry>)
    ensures Extends(st, WithEntries(st, role, entries)) && WithEntries(st, role, entries).roles == st.roles
  {
    if entries != [] {
      var init, last := entries[..|entries| - 1], entries[|entries| - 1];
      EntriesOnlyAdd(st, role, init);
      EntryAdded(WithEntries(st, role, init), role, last);
    }
  }

  lemma {:induction false} EntriesAdded(st: RbacState, role: RoleId, entries: seq<CatalogEntry>)
    ensures CatalogPresent(WithEntries(st, role, entries).screens, entries)
    ensures GrantsPresent(WithEntries(st, role, entries).grants, role, entries)
  {
    if entries != [] {
      var init, last := entries[..|entries| - 1], entries[|entries| - 1];
      var before := WithEntries(st, role, init);
      EntriesAdded(st, role, init);
      EntryAdded(before, role, last);
      CatalogStays(before.screens, WithEntries(st, role, entries).screens, init);
      assert forall i :: 0 <= i < |init| ==> entries[i] == init[i];
    }
  }

  lemma {:induction false} EntriesPresent(st: RbacState, role: RoleId, entries: seq<CatalogEntry>)
    requires CatalogPresent(st.screens, entries) && GrantsPresent(st.grants, role, entries)
    ensures WithEntries(st, role, entries) == st
  {
    if entries != [] {
      var init := entries[..|entries| - 1];
      assert forall i :: 0 <= i < |init| ==> entries[i] == init[i];
      EntriesPresent(st, role, init);
    }
  }

  /** Seeding never alters or removes a row, from any tables. */
  lemma SeedingOnlyAdds(st: RbacState)
    requires forall r :: r in st.roles ==> r < st.nextId
    ensures Extends(st, EnsureCatalogStep(st))
  {
    var s := WithSuperRole(st);
    EntriesOnlyAdd(s, SuperRole(s.roles), CATALOG);
  }

  /** Seeding twice is seeding once, from any tables. */
  lemma SeedingIsIdempotent(st: RbacState)
    ensures EnsureCatalogStep(EnsureCatalogStep(st)) == EnsureCatalogStep(st)
  {
    var s := WithSuperRole(st);
    var role := SuperRole(s.roles);
    var once := WithEntries(s, role, CATALOG);
    EntriesAdded(s, role, CATALOG);
    EntriesOnlyAdd(s, role, CATALOG);
    EntriesPresent(once, role, CATALOG);
  }

  lemma ReadsGiveGrants(st: RbacState, s: RoleId, entries: seq<CatalogEntry>)
    requires ReadsAll(st.screens, st.grants, s) && CatalogPresent(st.screens, entries)
    ensures GrantsPresent(st.grants, s, entries)
  {
    forall i | 0 <= i < |entries| ensures (s, entries[i].code) in st.grants {
      assert HasCode(st.screens, entries[i].code);
      var j :| 0 <= j < |st.screens| && st.screens[j].code == entries[i].code;
      assert (s, st.screens[j].code) in st.grants;
    }
  }

  /** In a safe state there is nothing left to seed. */
  lemma SeedingSafeStateIsNoOp(st: RbacState, s: RoleId)
    requires Safe(st, s)
    ensures EnsureCatalogStep(st) == st
  {
    OneSuperAdmin(st.roles, s);
    ReadsGiveGrants(st, s, CATALOG);
    EntriesPresent(st, s, CATALOG);
  }

  const EMPTY: RbacState := RbacState(map[], [], map[], {}, 0)

  ghost predicate DistinctCodes(entries: seq<CatalogEntry>) {
    forall i, j :: 0 <= i < j < |entries| ==> entries[i].code != entries[j].code
  }

  lemma CatalogCodesDistinct()
    ensures DistinctCodes(CATALOG)
  {
    assert forall i :: 0 <= i < |CATALOG| ==> |CATALOG[i].code| == 2 && CATALOG[i].code[1] as int == '1' as int + i;
  }

  function SeededScreens(first: nat, entries: seq<CatalogEntry>): seq<Screen> {
    seq(|entries|, i requires 0 <= i < |entries| =>
      Screen(first + i, entries[i].code, entries[i].name, entries[i].sortOrder, Active))
  }

  function SeededGrants(role: RoleId, entries: seq<CatalogEntry>): map<(RoleId, Code), Flags> {
    if entries == [] then map[]
    else
      var last := entries[|entries| - 1];
      SeededGrants(role, entries[..|entries| - 1])[(role, last.code) := Flags(last.read, last.write)]
  }

  lemma {:induction false} SeededGrantsAre(role: RoleId, entries: seq<CatalogEntry>)
    requires DistinctCodes(entries)
    ensures forall i :: 0 <= i < |entries| ==>
      (role, entries[i].code) in SeededGrants(role, entries)
      && SeededGrants(role, entries)[(role, entries[i].code)] == Flags(entries[i].read, entries[i].write)
    ensures forall k :: k in SeededGrants(role, entries) ==>
      k.0 == role && exists i :: 0 <= i < |entries| && entries[i].code == k.1
  {
    if entries != [] {
      var init := entries[..|entries| - 1];
      SeededGrantsAre(role, init);
      forall i | 0 <= i < |init|
        ensures (role, entries[i].code) in SeededGrants(role, init)
        ensures SeededGrants(role, init)[(role, entries[i].code)] == Flags(entries[i].read, entries[i].write)
      {
        assert entries[i] == init[i];
      }
    }
  }

  lemma NextSeeded(first: nat, role: RoleId, entries: seq<CatalogEntry>)
    requires entries != [] && DistinctCodes(entries)
    ensures var init, last := entries[..|entries| - 1], entries[|entries| - 1];
      && !HasCode(SeededScreens(first, init), last.code) && (role, last.code) !in SeededGrants(role, init)
      && SeededScreens(first, entries)
           == SeededScreens(first, init) + [Screen(first + |init|, last.code, last.name, last.sortOrder, Active)]
  {
    var init, last := entries[..|entries| - 1], entries[|entries| - 1];
    SeededGrantsAre(role, init);
    forall i | 0 <= i < |init| ensures init[i].code != last.code {
      assert entries[i] == init[i];
    }
  }

  lemma NewEntryAdded(st: RbacState, role: RoleId, e: CatalogEntry)
    requires !HasCode(st.screens, e.code) && (role, e.code) !in st.grants
    ensures WithGrant(WithScreen(st, e), role, e)
         == st.(screens := st.screens + [Screen(st.nextId, e.code, e.name, e.sortOrder, Active)],
                grants := st.grants[(role, e.code) := Flags(e.read, e.write)],
                nextId := st.nextId + 1)
  {
  }

  /** Seeding empty tables builds the catalog. */
  lemma {:induction false} SeededShape(st: RbacState, role: RoleId, entries: seq<CatalogEntry>)
    requires st.screens == [] && st.grants == map[] && DistinctCodes(entries)
    ensures WithEntries(st, role, entries)
         == st.(screens := SeededScreens(st.nextId, entries), grants := SeededGrants(role, entries),
                nextId := st.nextId + |entries|)
  {
    if entries != [] {
      var init, last := entries[..|entries| - 1], entries[|entries| - 1];
      SeededShape(st, role, init);
      NextSeeded(st.nextId, role, entries);
      NewEntryAdded(WithEntries(st, role, init), role, last);
    }
  }

  lemma SeededScreensOk(first: nat, entries: seq<CatalogEntry>)
    requires DistinctCodes(entries)
    ensures var screens := SeededScreens(first, entries);
      && UniqueScreens(screens) && CatalogPresent(screens, entries)
      && forall i :: 0 <= i < |entries| ==> ActiveCode(screens, entries[i].code)
  {
    var screens := SeededScreens(first, entries);
    forall i | 0 <= i < |entries| ensures ActiveCode(screens, entries[i].code) && HasCode(screens, entries[i].code) {
      assert screens[i].code == entries[i].code;
    }
  }

  lemma SeededGrantsOk(first: nat, role: RoleId, roles: set<RoleId>, entries: seq<CatalogEntry>)
    requires DistinctCodes(entries) && role in roles && forall i :: 0 <= i < |entries| ==> entries[i].read
    ensures ReadsAll(SeededScreens(first, entries), SeededGrants(role, entries), role)
    ensures GrantsRefer(roles, SeededScreens(first, entries), SeededGrants(role, entries))
  {
    var screens, grants := SeededScreens(first, entries), SeededGrants(role, entries);
    SeededGrantsAre(role, entries);
    forall k | k in grants ensures Refers(roles, screens, k) {
      var i :| 0 <= i < |entries| && entries[i].code == k.1;
      assert screens[i].code == k.1;
    }
    forall i | 0 <= i < |screens| ensures (role, screens[i].code) in grants && grants[(role, screens[i].code)].read {
      assert screens[i].code == entries[i].code;
    }
  }

  lemma SeededTables()
    ensures var roles := map[0 := Role(SUPER_ADMIN, None, Active)];
      EnsureCatalogStep(EMPTY)
        == RbacState(roles, SeededScreens(1, CATALOG), SeededGrants(0, CATALOG), {}, 1 + |CATALOG|)
  {
    var s := WithSuperRole(EMPTY);
    assert RolesNamed(EMPTY.roles, SUPER_ADMIN) == {};
    assert s == RbacState(map[0 := Role(SUPER_ADMIN, None, Active)], [], map[], {}, 1);
    assert RolesNamed(s.roles, SUPER_ADMIN) == {0};
    CatalogCodesDistinct();
    SeededShape(s, 0, CATALOG);
  }

  ghost predicate HasEntry(entries: seq<CatalogEntry>, code: Code, write: bool) {
    exists i :: 0 <= i < |entries| && entries[i].code == code && (write ==> entries[i].write)
  }

  /** A catalog lists the protected screens, the administrative ones with write, and all with read. */
  ghost predicate CoversProtected(entries: seq<CatalogEntry>) {
    && (forall c :: c in PROTECTED_SCREENS ==> HasEntry(entries, c, false))
    && (forall c :: c in WRITABLE ==> HasEntry(entries, c, true))
    && (forall i :: 0 <= i < |entries| ==> entries[i].read)
  }

  lemma CoveredIsOpen(first: nat, role: RoleId, entries: seq<CatalogEntry>)
    requires DistinctCodes(entries) && CoversProtected(entries)
    ensures ProtectedActive(SeededScreens(first, entries)) && WritesProtected(SeededGrants(role, entries), role)
  {
    SeededScreensOk(first, entries);
    SeededGrantsAre(role, entries);
    var screens, grants := SeededScreens(first, entries), SeededGrants(role, entries);
    forall c | c in PROTECTED_SCREENS ensures ActiveCode(screens, c) {
      assert HasEntry(entries, c, false);
    }
    forall c | c in WRITABLE ensures (role, c) in grants && grants[(role, c)].write {
      assert HasEntry(entries, c, true);
    }
  }

  lemma LoneSuperRole(roles: map<RoleId, Role>)
    requires roles == map[0 := Role(SUPER_ADMIN, None, Active)]
    ensures UniqueNames(roles) && SuperActive(roles, 0) && roles.Keys == {0}
  {
  }

  lemma SeededIdsBelow(roles: map<RoleId, Role>, entries: seq<CatalogEntry>)
    requires roles.Keys == {0}
    ensures IdsBelow(roles, SeededScreens(1, entries), 1 + |entries|)
  {
  }

  /** The tables a catalog builds next to a super_admin role with id 0. */
  lemma SeededTablesAreSafe(roles: map<RoleId, Role>, screens: seq<Screen>, grants: map<(RoleId, Code), Flags>,
                            entries: seq<CatalogEntry>)
    requires UniqueNames(roles) && roles.Keys == {0}
    requires DistinctCodes(entries) && CoversProtected(entries)
    requires screens == SeededScreens(1, entries) && grants == SeededGrants(0, entries)
    ensures UniqueScreens(screens) && IdsBelow(roles, screens, 1 + |entries|)
    ensures GrantsRefer(roles.Keys, screens, grants)
    ensures ReadsAll(screens, grants, 0) && WritesProtected(grants, 0)
    ensures ProtectedActive(screens) && CatalogPresent(screens, entries)
  {
    CoveredIsOpen(1, 0, entries);
    SeededScreensOk(1, entries);
    SeededGrantsOk(1, 0, roles.Keys, entries);
    SeededIdsBelow(roles, entries);
  }

  lemma CatalogCovers()
    ensures CoversProtected(CATALOG)
  {
    assert CATALOG[0].code == "S1" && CATALOG[1].code == "S2" && CATALOG[2].code == "S3" && CATALOG[3].code == "S4";
    assert CATALOG[0].write && CATALOG[2].write && CATALOG[3].write;
  }

  /** Seeding empty tables is safe. */
  lemma SeededIsSafe()
    ensures Safe(EnsureCatalogStep(EMPTY), 0)
  {
    SeededTables();
    CatalogCodesDistinct();
    CatalogCovers();
    var roles := map[0 := Role(SUPER_ADMIN, None, Active)];
    LoneSuperRole(roles);
    SeededTablesAreSafe(roles, SeededScreens(1, CATALOG), SeededGrants(0, CATALOG), CATALOG);
  }

  // ---- Runs ----

  lemma RequestKeepsSafe(st: RbacState, s: RoleId, req: RbacRequest)
    requires Safe(st, s)
    ensures Safe(RbacStep(st, req).state, s)
  {
    match req
    case CreateRole(_, _, _) => CreateRoleKeeps(st, s, req);
    case UpdateRole(_, _, _, _) => UpdateRoleKeeps(st, s, req);
    case DeleteRole(_) => DeleteRoleKeeps(st, s, req);
    case UpdateRoleGrants(_, _) => UpdateRoleGrantsKeeps(st, s, req);
    case CreateScreen(_, _, _, _) => CreateScreenKeeps(st, s, req);
    case UpdateScreen(_, _, _, _) => UpdateScreenKeeps(st, s, req);
    case DeleteScreen(_) => DeleteScreenKeeps(st, s, req);
    case EnsureCatalog => SeedingSafeStateIsNoOp(st, s);
    case AssignSuperAdmin(_) => OneSuperAdmin(st.roles, s);
  }

  /** No request takes a role away from an admin. */
  lemma LinksGrow(st: RbacState, req: RbacRequest)
    ensures st.links <= RbacStep(st, req).state.links
  {
    if req.EnsureCatalog? {
      var s := WithSuperRole(st);
      EntriesOnlyAdd(s, SuperRole(s.roles), CATALOG);
    }
  }

  datatype RbacRun = RbacRun(states: seq<RbacState>, requests: seq<RbacRequest>) {
    ghost predicate StepAt(k: nat)
      requires |states| == |requests| + 1 && k < |requests|
    {
      states[k + 1] == RbacStep(states[k], requests[k]).state
    }

    ghost predicate Valid() {
      |states| == |requests| + 1 && forall k: nat :: k < |requests| ==> StepAt(k)
    }
  }

  /** A run from the seeded tables. */
  ghost predicate FromSeed(r: RbacRun) {
    r.Valid() && r.states[0] == EnsureCatalogStep(EMPTY)
  }

  lemma {:induction false} SafeThroughout(r: RbacRun, s: RoleId, k: nat)
    requires r.Valid() && k < |r.states| && Safe(r.states[0], s)
    ensures Safe(r.states[k], s)
  {
    if k > 0 {
      SafeThroughout(r, s, k - 1);
      assert r.StepAt(k - 1);
      RequestKeepsSafe(r.states[k - 1], s, r.requests[k - 1]);
    }
  }

  /** In every state of every run exactly one role is named super_admin, it is active and reads every
      screen, and the protected screens are active. */
  lemma AlwaysSafe(r: RbacRun, k: nat)
    requires FromSeed(r) && k < |r.states|
    ensures Safe(r.states[k], 0) && RolesNamed(r.states[k].roles, SUPER_ADMIN) == {0}
  {
    SeededIsSafe();
    SafeThroughout(r, 0, k);
    OneSuperAdmin(r.states[k].roles, 0);
  }

  lemma SafeGrant(st: RbacState, s: RoleId, admin: AdminId, code: Code)
    requires Safe(st, s) && (admin, s) in st.links && code in PROTECTED_SCREENS
    ensures Grant(code, true, st.grants[(s, code)].write) in GrantsOfAdmin(st, admin)
    ensures code + ".R" in PermissionsOf(st, admin)
    ensures code in WRITABLE ==> code + ".W" in PermissionsOf(st, admin)
  {
    var i :| 0 <= i < |st.screens| && st.screens[i].code == code && st.screens[i].status.Active?;
    assert (s, st.screens[i].code) in st.grants;
    var g := Grant(code, true, st.grants[(s, code)].write);
    assert (s, code) in st.grants && g in GrantsOfAdmin(st, admin);
  }

  lemma PermissionNames()
    ensures "S1" + ".R" == "S1.R" && "S1" + ".W" == "S1.W" && "S2" + ".R" == "S2.R"
    ensures "S3" + ".R" == "S3.R" && "S3" + ".W" == "S3.W" && "S4" + ".R" == "S4.R" && "S4" + ".W" == "S4.W"
  {
  }

  lemma SafeHolderPermissions(st: RbacState, s: RoleId, admin: AdminId)
    requires Safe(st, s) && (admin, s) in st.links
    ensures {"S1.R", "S1.W", "S2.R", "S3.R", "S3.W", "S4.R", "S4.W"} <= PermissionsOf(st, admin)
  {
    PermissionNames();
    SafeGrant(st, s, admin, "S1");
    SafeGrant(st, s, admin, "S2");
    SafeGrant(st, s, admin, "S3");
    SafeGrant(st, s, admin, "S4");
  }

  lemma {:induction false} LinksStay(r: RbacRun, j: nat, k: nat)
    requires r.Valid() && j <= k < |r.states|
    ensures r.states[j].links <= r.states[k].links
  {
    if j < k {
      LinksStay(r, j, k - 1);
      assert r.StepAt(k - 1);
      LinksGrow(r.states[k - 1], r.requests[k - 1]);
    }
  }

  /** Whoever was ever given super_admin holds the administration permissions ever after. */
  lemma SuperAdminIsNeverLockedOut(r: RbacRun, admin: AdminId, j: nat, k: nat)
    requires FromSeed(r) && j <= k < |r.states| && (admin, 0) in r.states[j].links
    ensures {"S1.R", "S1.W", "S2.R", "S3.R", "S3.W", "S4.R", "S4.W"} <= PermissionsOf(r.states[k], admin)
  {
    AlwaysSafe(r, k);
    LinksStay(r, j, k);
    SafeHolderPermissions(r.states[k], 0, admin);
  }

  lemma AssignLinks(st: RbacState, s: RoleId, admin: AdminId)
    requires UniqueNames(st.roles) && SuperActive(st.roles, s)
    ensures AssignStep(st, admin) == st.(links := st.links + {(admin, s)})
  {
    OneSuperAdmin(st.roles, s);
  }

  /** In particular every admin the seed script, or anyone, has assigned the role to. */
  lemma AssignedAdminIsNeverLockedOut(r: RbacRun, admin: AdminId, j: nat, k: nat)
    requires FromSeed(r) && j < k < |r.states| && r.requests[j] == AssignSuperAdmin(admin)
    ensures {"S1.R", "S1.W", "S2.R", "S3.R", "S3.W", "S4.R", "S4.W"} <= PermissionsOf(r.states[k], admin)
  {
    AlwaysSafe(r, j);
    assert r.StepAt(j);
    AssignLinks(r.states[j], 0, admin);
    SuperAdminIsNeverLockedOut(r, admin, j + 1, k);
  }

  /** Running the seed script again changes nothing, at any point of any run. */
  lemma ReseedingIsNoOp(r: RbacRun, k: nat)
    requires FromSeed(r) && k < |r.states|
    ensures EnsureCatalogStep(r.states[k]) == r.states[k]
  {
    AlwaysSafe(r, k);
    SeedingSafeStateIsNoOp(r.states[k], 0);
  }
}
