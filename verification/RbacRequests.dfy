/** What each role, screen and seeding request answers and stores, in terms of the tables alone. */
module RbacRequests {
  import opened Common
  import opened RbacModel
  import opened RbacSafety
  import opened ScreenCodes
  import opened Authorisation

  // ---- Roles ----

  /** The name is that of a role other than `except`. */
  predicate NameUsed(roles: map<RoleId, Role>, name: string, except: Option<RoleId>) {
    exists r :: r in roles && roles[r].name == name && except != Some(r)
  }

  lemma NameTakenIff(st: RbacState, name: string, except: Option<RoleId>)
    ensures NameTaken(st, name, except) <==> NameUsed(st.roles, name, except)
  {
    if r :| r in RolesNamed(st.roles, name) && Some(r) != except {
      assert r in st.roles && st.roles[r].name == name && except != Some(r);
    }
    if r :| r in st.roles && st.roles[r].name == name && except != Some(r) {
      assert r in RolesNamed(st.roles, name);
    }
  }

  /** Only the row of `role` in the role table may differ, and it is `row` afterwards. */
  predicate OnlyRole(before: RbacState, after: RbacState, role: RoleId, row: Role) {
    && after.screens == before.screens && after.grants == before.grants && after.links == before.links
    && role in after.roles && after.roles[role] == row && after.roles.Keys == before.roles.Keys + {role}
    && forall r :: r in before.roles && r != role ==> after.roles[r] == before.roles[r]
  }

  /** A role is created exactly when no role has the name, with everything it was given. */
  lemma CreateRoleAnswers(st: RbacState, name: string, description: Option<string>, status: Status)
    ensures var out := RbacStep(st, CreateRole(name, description, status));
      if NameUsed(st.roles, name, None) then out == RbacOutcome(st, Failed(RoleNameExists))
      else
        && out.reply == Ok && out.state.nextId == st.nextId + 1
        && OnlyRole(st, out.state, st.nextId, Role(name, description, status))
  {
    NameTakenIff(st, name, None);
  }

  /** An update succeeds exactly when the role exists, super_admin keeps its name and stays active, and
      the new name is free. */
  lemma UpdateRoleSucceedsIff(st: RbacState, role: RoleId, name: Option<string>, description: Option<string>,
                              status: Option<Status>)
    ensures var out := RbacStep(st, UpdateRole(role, name, description, status));
      && (out.reply == Ok
          <==> && role in st.roles
               && (st.roles[role].name == "super_admin" ==>
                     (name == None || name == Some("super_admin")) && status != Some(Inactive))
               && (name.Some? ==> !NameUsed(st.roles, name.value, Some(role))))
      && (out.reply != Ok ==>
            out == RbacOutcome(st, Failed(
              if role !in st.roles then RoleNotFound
              else if st.roles[role].name == "super_admin"
                      && ((name.Some? && name.value != "super_admin") || status == Some(Inactive))
              then ProtectedResource else RoleNameExists)))
  {
    if name.Some? {
      NameTakenIff(st, name.value, Some(role));
    }
  }

  /** On success each field provided has the new value, and every other field and row is unchanged. */
  lemma UpdateRoleStores(st: RbacState, role: RoleId, name: Option<string>, description: Option<string>,
                         status: Option<Status>)
    requires RbacStep(st, UpdateRole(role, name, description, status)).reply == Ok
    ensures var after := RbacStep(st, UpdateRole(role, name, description, status)).state;
      && role in st.roles && role in after.roles && OnlyRole(st, after, role, after.roles[role])
      && after.nextId == st.nextId
      && (name.Some? ==> after.roles[role].name == name.value)
      && (name.None? ==> after.roles[role].name == st.roles[role].name)
      && (description.Some? ==> after.roles[role].description == description)
      && (description.None? ==> after.roles[role].description == st.roles[role].description)
      && (status.Some? ==> after.roles[role].status == status.value)
      && (status.None? ==> after.roles[role].status == st.roles[role].status)
  {
  }

  /** Deleting deactivates an existing role other than super_admin and touches nothing else. */
  lemma DeleteRoleAnswers(st: RbacState, role: RoleId)
    ensures var out := RbacStep(st, DeleteRole(role));
      if role !in st.roles then out == RbacOutcome(st, Failed(RoleNotFound))
      else if st.roles[role].name == "super_admin" then out == RbacOutcome(st, Failed(ProtectedResource))
      else
        && out.reply == Ok && out.state.nextId == st.nextId
        && OnlyRole(st, out.state, role, Role(st.roles[role].name, st.roles[role].description, Inactive))
  {
  }

  /** After a successful update the admins who hold the role have what the other active roles give, and
      what this one gives if it is active now. */
  lemma UpdatedRoleGives(st: RbacState, role: RoleId, name: Option<string>, description: Option<string>,
                         status: Option<Status>, admin: AdminId, p: string)
    requires RbacStep(st, UpdateRole(role, name, description, status)).reply == Ok
    ensures var after := RbacStep(st, UpdateRole(role, name, description, status)).state;
      p in PermissionsOf(after, admin)
      <==> || (exists r: RoleId :: r != role && HoldsVia(st, admin, r, p))
           || (after.roles[role].status == Active && HoldsVia(after, admin, role, p))
  {
    var after := RbacStep(st, UpdateRole(role, name, description, status)).state;
    UpdateRoleStores(st, role, name, description, status);
    PermissionsAreHeld(after, admin, p);
    forall r | r != role ensures HoldsVia(after, admin, r, p) <==> HoldsVia(st, admin, r, p) {}
  }

  /** Deactivating a role by an update takes away at once what no other active role grants. */
  lemma DeactivationIsImmediate(st: RbacState, role: RoleId, name: Option<string>, description: Option<string>,
                                admin: AdminId, p: string)
    requires RbacStep(st, UpdateRole(role, name, description, Some(Inactive))).reply == Ok
    ensures p in PermissionsOf(RbacStep(st, UpdateRole(role, name, description, Some(Inactive))).state, admin)
      <==> exists r: RoleId :: r != role && HoldsVia(st, admin, r, p)
  {
    UpdateRoleStores(st, role, name, description, Some(Inactive));
    UpdatedRoleGives(st, role, name, description, Some(Inactive), admin, p);
  }

  // ---- Screens ----

  /** A screen is created exactly when its code is new. It comes with what was given, under the code given
      or else the generated one, and with one read and write grant for each role named super_admin. */
  lemma CreateScreenAnswers(st: RbacState, code: Option<Code>, name: string, sortOrder: int, status: Status)
    ensures var out := RbacStep(st, CreateScreen(code, name, sortOrder, status));
      var chosen := if code.Some? && code.value != "" then code.value else NextCode(CodesOf(st.screens));
      if exists i :: 0 <= i < |st.screens| && st.screens[i].code == chosen
      then out == RbacOutcome(st, Failed(ScreenCodeExists))
      else
        && out.reply == Ok && out.state.roles == st.roles && out.state.links == st.links
        && out.state.screens == st.screens + [Screen(st.nextId, chosen, name, sortOrder, status)]
        && out.state.nextId == st.nextId + 1
        && (forall k :: k in out.state.grants
              <==> k in st.grants || (k.1 == chosen && k.0 in st.roles && st.roles[k.0].name == "super_admin"))
        && (forall k :: k in out.state.grants ==>
              out.state.grants[k] == if k.1 == chosen && k.0 in st.roles && st.roles[k.0].name == "super_admin"
                                     then Flags(true, true) else st.grants[k])
  {
  }

  /** Only screen `i` may differ, and it is `screen` afterwards. */
  predicate OnlyScreen(before: RbacState, after: RbacState, i: nat, screen: Screen) {
    && after.roles == before.roles && after.grants == before.grants && after.links == before.links
    && after.nextId == before.nextId && |after.screens| == |before.screens|
    && i < |after.screens| && after.screens[i] == screen
    && forall j :: 0 <= j < |before.screens| && j != i ==> after.screens[j] == before.screens[j]
  }

  lemma ScreenOfId(screens: seq<Screen>, i: nat)
    requires UniqueScreens(screens) && i < |screens|
    ensures FindScreen(screens, screens[i].id) == Some(i)
  {
  }

  /** An update of a screen is refused only when it would deactivate S1, S2, S3 or S4; otherwise it sets
      the fields provided, and nothing else. The code and the id never change. */
  lemma UpdateScreenAnswers(st: RbacState, i: nat, name: Option<string>, sortOrder: Option<int>, status: Option<Status>)
    requires UniqueScreens(st.screens) && i < |st.screens|
    ensures var s := st.screens[i]; var out := RbacStep(st, UpdateScreen(s.id, name, sortOrder, status));
      if s.code in {"S1", "S2", "S3", "S4"} && status == Some(Inactive)
      then out == RbacOutcome(st, Failed(ProtectedResource))
      else
        && out.reply == Ok
        && OnlyScreen(st, out.state, i,
                      Screen(s.id, s.code, if name.Some? then name.value else s.name,
                             if sortOrder.Some? then sortOrder.value else s.sortOrder,
                             if status.Some? then status.value else s.status))
  {
    ScreenOfId(st.screens, i);
  }

  /** A screen is deactivated by deletion unless it is S1, S2, S3 or S4. */
  lemma DeleteScreenAnswers(st: RbacState, i: nat)
    requires UniqueScreens(st.screens) && i < |st.screens|
    ensures var s := st.screens[i]; var out := RbacStep(st, DeleteScreen(s.id));
      if s.code in {"S1", "S2", "S3", "S4"} then out == RbacOutcome(st, Failed(ProtectedResource))
      else out.reply == Ok && OnlyScreen(st, out.state, i, Screen(s.id, s.code, s.name, s.sortOrder, Inactive))
  {
    ScreenOfId(st.screens, i);
  }

  /** Deactivating a screen takes away at once exactly its permissions, from everyone. */
  lemma ScreenRemovalIsImmediate(st: RbacState, i: nat, admin: AdminId, p: string)
    requires UniqueScreens(st.screens) && i < |st.screens| && RbacStep(st, DeleteScreen(st.screens[i].id)).reply == Ok
    ensures p in PermissionsOf(RbacStep(st, DeleteScreen(st.screens[i].id)).state, admin)
      <==> p in PermissionsOf(st, admin) && p != st.screens[i].code + ".R" && p != st.screens[i].code + ".W"
  {
    var gone := st.screens[i].code;
    var after := RbacStep(st, DeleteScreen(st.screens[i].id)).state;
    DeleteScreenAnswers(st, i);
    forall code ensures ActiveCode(after.screens, code) <==> ActiveCode(st.screens, code) && code != gone {
      ActiveElsewhere(st.screens, after.screens, i, code);
    }
    PermissionsAreHeld(st, admin, p);
    PermissionsAreHeld(after, admin, p);
    forall role: RoleId
      ensures HoldsVia(after, admin, role, p) <==> HoldsVia(st, admin, role, p) && p != gone + ".R" && p != gone + ".W"
    {
      HeldElsewhere(st, after, admin, role, p, gone);
    }
  }

  lemma ActiveElsewhere(before: seq<Screen>, after: seq<Screen>, i: nat, code: Code)
    requires UniqueScreens(before) && i < |before| == |after| && after[i].code == before[i].code
    requires after[i].status == Inactive && forall j :: 0 <= j < |before| && j != i ==> after[j] == before[j]
    ensures ActiveCode(after, code) <==> ActiveCode(before, code) && code != before[i].code
  {
    if j :| 0 <= j < |before| && before[j].code == code && before[j].status.Active? {
      assert j != i ==> after[j] == before[j];
    }
    if j :| 0 <= j < |after| && after[j].code == code && after[j].status.Active? {
      assert before[j] == after[j];
    }
  }

  lemma HeldElsewhere(st: RbacState, after: RbacState, admin: AdminId, role: RoleId, p: string, gone: Code)
    requires after.roles == st.roles && after.links == st.links && after.grants == st.grants
    requires forall code :: ActiveCode(after.screens, code) <==> ActiveCode(st.screens, code) && code != gone
    ensures HoldsVia(after, admin, role, p) <==> HoldsVia(st, admin, role, p) && p != gone + ".R" && p != gone + ".W"
  {
    forall code ensures code + ".R" == gone + ".R" || code + ".W" == gone + ".W" ==> code == gone {
      PermissionNamesOneScreen(code, gone);
    }
    forall code ensures code + ".R" != gone + ".W" && code + ".W" != gone + ".R" {
      PermissionNamesOneScreen(code, gone);
      PermissionNamesOneScreen(gone, code);
    }
  }

  lemma NoSuchScreen(st: RbacState, id: ScreenId, name: Option<string>, sortOrder: Option<int>, status: Option<Status>)
    requires forall i :: 0 <= i < |st.screens| ==> st.screens[i].id != id
    ensures RbacStep(st, UpdateScreen(id, name, sortOrder, status)) == RbacOutcome(st, Failed(ScreenNotFound))
    ensures RbacStep(st, DeleteScreen(id)) == RbacOutcome(st, Failed(ScreenNotFound))
  {
  }

  /** Refused grant replacements: unknown role, or super_admin. */
  lemma ReplacementRefused(st: RbacState, role: RoleId, items: seq<GrantItem>)
    ensures role !in st.roles ==>
      RbacStep(st, UpdateRoleGrants(role, items)) == RbacOutcome(st, Failed(RoleNotFound))
    ensures role in st.roles && st.roles[role].name == "super_admin" ==>
      RbacStep(st, UpdateRoleGrants(role, items)) == RbacOutcome(st, Failed(ProtectedResource))
  {
  }

  // ---- Assignment and seeding ----

  /** The assignment gives exactly the role named super_admin to exactly this admin. */
  lemma AssignmentStores(st: RbacState, s: RoleId, admin: AdminId)
    requires UniqueNames(st.roles) && s in st.roles && st.roles[s].name == "super_admin"
    ensures RbacStep(st, AssignSuperAdmin(admin)) == RbacOutcome(st.(links := st.links + {(admin, s)}), Ok)
  {
    assert s in RolesNamed(st.roles, SUPER_ADMIN);
  }

  /** Without such a role, the assignment first creates it active. */
  lemma AssignmentCreatesRole(st: RbacState, admin: AdminId)
    requires !NameUsed(st.roles, "super_admin", None)
    ensures RbacStep(st, AssignSuperAdmin(admin))
         == RbacOutcome(st.(roles := st.roles[st.nextId := Role("super_admin", None, Active)],
                            links := st.links + {(admin, st.nextId)}, nextId := st.nextId + 1), Ok)
  {
    var roles := st.roles[st.nextId := Role("super_admin", None, Active)];
    assert RolesNamed(st.roles, SUPER_ADMIN) == {};
    assert RolesNamed(roles, SUPER_ADMIN) == {st.nextId};
  }

  predicate ShowsEntry(screen: Screen, e: CatalogEntry) {
    screen == Screen(screen.id, e.code, e.name, e.sortOrder, Active)
  }

  /** What a catalog adds to any tables: its own screens, active, and its own flags for the role. */
  lemma {:induction false} CatalogAddsItsOwn(st: RbacState, role: RoleId, entries: seq<CatalogEntry>)
    ensures var after := WithEntries(st, role, entries);
      && |st.screens| <= |after.screens|
      && (forall i :: |st.screens| <= i < |after.screens| ==>
            exists e :: e in entries && ShowsEntry(after.screens[i], e))
      && (forall k :: k in after.grants && k !in st.grants ==>
            k.0 == role && exists e :: e in entries && k.1 == e.code && after.grants[k] == Flags(e.read, e.write))
  {
    if entries != [] {
      var init, last := entries[..|entries| - 1], entries[|entries| - 1];
      var before, after := WithEntries(st, role, init), WithEntries(st, role, entries);
      CatalogAddsItsOwn(st, role, init);
      EntryAdded(before, role, last);
      assert last in entries;
      forall i | |st.screens| <= i < |after.screens|
        ensures exists e :: e in entries && ShowsEntry(after.screens[i], e)
      {
        if i < |before.screens| {
          var e :| e in init && ShowsEntry(before.screens[i], e);
          assert e in entries && after.screens[i] == before.screens[i];
        } else {
          assert ShowsEntry(after.screens[i], last);
        }
      }
      forall k | k in after.grants && k !in st.grants
        ensures k.0 == role && exists e :: e in entries && k.1 == e.code && after.grants[k] == Flags(e.read, e.write)
      {
        if k in before.grants {
          var e :| e in init && k.1 == e.code && before.grants[k] == Flags(e.read, e.write);
          assert e in entries && after.grants[k] == before.grants[k];
        } else {
          assert last in entries && k == (role, last.code) && after.grants[k] == Flags(last.read, last.write);
        }
      }
    }
  }

  lemma SeededEntry(entries: seq<CatalogEntry>, i: nat)
    requires DistinctCodes(entries) && i < |entries|
    ensures var e, screens, grants := entries[i], SeededScreens(1, entries), SeededGrants(0, entries);
      && |screens| == |entries| && screens[i] == Screen(1 + i, e.code, e.name, e.sortOrder, Active)
      && (0, e.code) in grants && grants[(0, e.code)] == Flags(e.read, e.write)
  {
    SeededGrantsAre(0, entries);
  }

  lemma EntryIs(i: nat)
    requires i < 6
    ensures |CATALOG| == 6 && CATALOG[i].code == ["S1", "S2", "S3", "S4", "S5", "S6"][i]
    ensures CATALOG[i].sortOrder == i + 1 && CATALOG[i].read && (CATALOG[i].write <==> i != 1)
    ensures CATALOG[i].name == ["User Management", "Audit Logs", "Role Management", "Screen Management",
                                "Query Category", "Zones Management"][i]
  {
  }

  /** The tables that seeding empty tables makes: the role, six active screens S1 to S6 in this order, and
      for each its grant, all read and all but S2 written. */
  lemma SeedMakes(i: nat)
    requires i < 6
    ensures var st := RbacStep(EMPTY, EnsureCatalog).state;
      var code := ["S1", "S2", "S3", "S4", "S5", "S6"][i];
      var name := ["User Management", "Audit Logs", "Role Management", "Screen Management", "Query Category",
                   "Zones Management"][i];
      && st.roles == map[0 := Role("super_admin", None, Active)] && st.links == {} && |st.screens| == 6
      && st.screens[i] == Screen(1 + i, code, name, i + 1, Active)
      && (0, code) in st.grants && st.grants[(0, code)] == Flags(true, i != 1)
  {
    SeededTables();
    CatalogCodesDistinct();
    EntryIs(i);
    SeededEntry(CATALOG, i);
  }

  /** A permission name of some entry of a catalog. */
  ghost predicate Listed(entries: seq<CatalogEntry>, p: string) {
    exists i :: 0 <= i < |entries| && Gives(entries[i].code, Flags(entries[i].read, entries[i].write), p)
  }

  lemma SeededPermissions(st: RbacState, entries: seq<CatalogEntry>, admin: AdminId, p: string)
    requires DistinctCodes(entries) && (admin, 0) in st.links && 0 in st.roles && st.roles[0].status == Active
    requires st.roles.Keys == {0} && st.screens == SeededScreens(1, entries) && st.grants == SeededGrants(0, entries)
    ensures p in PermissionsOf(st, admin) <==> Listed(entries, p)
  {
    PermissionsAreHeld(st, admin, p);
    SeededGrantsAre(0, entries);
    SeededScreensOk(1, entries);
    if Listed(entries, p) {
      var i :| 0 <= i < |entries| && Gives(entries[i].code, Flags(entries[i].read, entries[i].write), p);
      assert Gives(entries[i].code, st.grants[(0, entries[i].code)], p);
      assert HoldsVia(st, admin, 0, p);
    }
    if Holds(st, admin, p) {
      var r: RoleId :| HoldsVia(st, admin, r, p);
      var code :| (r, code) in st.grants && ActiveCode(st.screens, code) && Gives(code, st.grants[(r, code)], p);
      var i :| 0 <= i < |entries| && entries[i].code == (r, code).1;
    }
  }

  lemma EntryGives(i: nat, p: string)
    requires i < 6
    ensures Gives(CATALOG[i].code, Flags(CATALOG[i].read, CATALOG[i].write), p)
      <==> p in [{"S1.R", "S1.W"}, {"S2.R"}, {"S3.R", "S3.W"}, {"S4.R", "S4.W"}, {"S5.R", "S5.W"}, {"S6.R", "S6.W"}][i]
  {
    var codes := ["S1", "S2", "S3", "S4", "S5", "S6"];
    EntryIs(i);
    assert codes[i] + ".R" == ["S1.R", "S2.R", "S3.R", "S4.R", "S5.R", "S6.R"][i];
    assert codes[i] + ".W" == ["S1.W", "S2.W", "S3.W", "S4.W", "S5.W", "S6.W"][i];
  }

  lemma CatalogLists(p: string)
    ensures Listed(CATALOG, p)
      <==> p in {"S1.R", "S1.W", "S2.R", "S3.R", "S3.W", "S4.R", "S4.W", "S5.R", "S5.W", "S6.R", "S6.W"}
  {
    EntryGives(0, p);
    EntryGives(1, p);
    EntryGives(2, p);
    EntryGives(3, p);
    EntryGives(4, p);
    EntryGives(5, p);
  }

  lemma SeededPermissionSet(st: RbacState, admin: AdminId)
    requires (admin, 0) in st.links && 0 in st.roles && st.roles[0].status == Active && st.roles.Keys == {0}
    requires st.screens == SeededScreens(1, CATALOG) && st.grants == SeededGrants(0, CATALOG)
    ensures PermissionsOf(st, admin)
         == {"S1.R", "S1.W", "S2.R", "S3.R", "S3.W", "S4.R", "S4.W", "S5.R", "S5.W", "S6.R", "S6.W"}
  {
    CatalogCodesDistinct();
    forall p ensures p in PermissionsOf(st, admin)
      <==> p in {"S1.R", "S1.W", "S2.R", "S3.R", "S3.W", "S4.R", "S4.W", "S5.R", "S5.W", "S6.R", "S6.W"}
    {
      SeededPermissions(st, CATALOG, admin, p);
      CatalogLists(p);
    }
  }

  /** Directly after seeding, an assigned admin holds every permission that a route can require, and
      nothing else: all screens to read, all but the audit logs to write. */
  lemma SeededAdminHoldsAll(admin: AdminId)
    ensures var st := RbacStep(RbacStep(EMPTY, EnsureCatalog).state, AssignSuperAdmin(admin)).state;
      PermissionsOf(st, admin)
        == {"S1.R", "S1.W", "S2.R", "S3.R", "S3.W", "S4.R", "S4.W", "S5.R", "S5.W", "S6.R", "S6.W"}
  {
    var seeded := RbacStep(EMPTY, EnsureCatalog).state;
    SeededTables();
    AssignmentStores(seeded, 0, admin);
    SeededPermissionSet(seeded.(links := {(admin, 0)}), admin);
  }
}
