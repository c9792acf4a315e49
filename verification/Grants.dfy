/** Reading and replacing the grants of a role: order, round trip and frame. */
module Grants {
  import opened Common
  import opened RbacModel
  import opened RbacSafety

  // ---- ORDER BY sort_order, code is a strict total order on screens with distinct codes ----

  lemma {:induction false} LexTransitive(s: string, t: string, u: string)
    requires LexLess(s, t) && LexLess(t, u)
    ensures LexLess(s, u)
  {
    if s != "" && s[0] == t[0] && t[0] == u[0] {
      LexTransitive(s[1..], t[1..], u[1..]);
    }
  }

  lemma {:induction false} LexTotal(s: string, t: string)
    ensures LexLess(s, t) || LexLess(t, s) || s == t
    ensures !(LexLess(s, t) && LexLess(t, s)) && (s == t ==> !LexLess(s, t))
  {
    if s != "" && t != "" {
      assert s == [s[0]] + s[1..] && t == [t[0]] + t[1..];
      LexTotal(s[1..], t[1..]);
    }
  }

  lemma BeforeTransitive(x: Screen, y: Screen, z: Screen)
    requires Before(x, y) && Before(y, z)
    ensures Before(x, z)
  {
    if LexLess(x.code, y.code) && LexLess(y.code, z.code) {
      LexTransitive(x.code, y.code, z.code);
    }
  }

  ghost predicate Ordered(screens: seq<Screen>) {
    forall i, j :: 0 <= i < j < |screens| ==> Before(screens[i], screens[j])
  }

  lemma {:induction false} InsertPermutes(x: Screen, sorted: seq<Screen>)
    ensures multiset(InsertScreen(x, sorted)) == multiset(sorted) + multiset{x}
  {
    if sorted != [] {
      assert sorted == [sorted[0]] + sorted[1..];
      InsertPermutes(x, sorted[1..]);
    }
  }

  lemma FirstStaysFirst(head: Screen, rest: seq<Screen>)
    requires Ordered(rest) && forall y :: y in rest ==> Before(head, y)
    ensures Ordered([head] + rest)
  {
  }

  lemma InsertedOrOld(x: Screen, sorted: seq<Screen>, y: Screen)
    requires y in InsertScreen(x, sorted)
    ensures y == x || y in sorted
  {
    InsertPermutes(x, sorted);
    assert y in multiset(InsertScreen(x, sorted));
  }

  lemma {:induction false} InsertKeepsOrder(x: Screen, sorted: seq<Screen>)
    requires Ordered(sorted) && forall y :: y in sorted ==> y.code != x.code
    ensures Ordered(InsertScreen(x, sorted))
  {
    if sorted != [] {
      var head, tail := sorted[0], sorted[1..];
      if Before(x, head) {
        forall y | y in sorted ensures Before(x, y) {
          if y != head {
            BeforeTransitive(x, head, y);
          }
        }
        FirstStaysFirst(x, sorted);
      } else {
        LexTotal(x.code, head.code);
        InsertKeepsOrder(x, tail);
        forall y | y in InsertScreen(x, tail) ensures Before(head, y) {
          InsertedOrOld(x, tail, y);
        }
        FirstStaysFirst(head, InsertScreen(x, tail));
      }
    }
  }

  predicate IsActive(s: Screen) { s.status.Active? }

  lemma LastCodeIsNew(screens: seq<Screen>, sorted: seq<Screen>)
    requires screens != [] && UniqueScreens(screens)
    requires multiset(sorted) == multiset(Filter(screens[..|screens| - 1], IsActive))
    ensures forall y :: y in sorted ==> y.code != screens[|screens| - 1].code
  {
    var init := screens[..|screens| - 1];
    forall y | y in sorted ensures y.code != screens[|screens| - 1].code {
      assert y in multiset(sorted);
      assert y in Filter(init, IsActive);
      var i :| 0 <= i < |init| && init[i] == y;
      assert screens[i] == y;
    }
  }

  /** The listing holds every active screen exactly once, in (sort_order, code) order. */
  lemma {:induction false} ActiveScreensInOrder(screens: seq<Screen>)
    requires UniqueScreens(screens)
    ensures Ordered(ActiveInOrder(screens))
    ensures multiset(ActiveInOrder(screens)) == multiset(Filter(screens, IsActive))
  {
    if screens != [] {
      var init, last := screens[..|screens| - 1], screens[|screens| - 1];
      ActiveScreensInOrder(init);
      assert screens == init + [last];
      FilterConcat(init, [last], IsActive);
      if IsActive(last) {
        LastCodeIsNew(screens, ActiveInOrder(init));
        InsertKeepsOrder(last, ActiveInOrder(init));
        InsertPermutes(last, ActiveInOrder(init));
      }
    }
  }

  lemma ActiveMembers(screens: seq<Screen>, s: Screen)
    requires UniqueScreens(screens)
    ensures s in ActiveInOrder(screens) <==> s in screens && IsActive(s)
  {
    ActiveScreensInOrder(screens);
    assert s in ActiveInOrder(screens) <==> s in multiset(ActiveInOrder(screens));
  }

  /** No two rows of the listing have the same code. */
  lemma RowsHaveDistinctCodes(screens: seq<Screen>, i: nat, j: nat)
    requires UniqueScreens(screens) && i < j < |ActiveInOrder(screens)|
    ensures ActiveInOrder(screens)[i].code != ActiveInOrder(screens)[j].code
  {
    ActiveScreensInOrder(screens);
    var listed := ActiveInOrder(screens);
    ActiveMembers(screens, listed[i]);
    ActiveMembers(screens, listed[j]);
    var a :| 0 <= a < |screens| && screens[a] == listed[i];
    var b :| 0 <= b < |screens| && screens[b] == listed[j];
    assert Before(listed[i], listed[j]);
    LexTotal(listed[i].code, listed[j].code);
    assert a != b;
  }

  /** Dictionary order: a proper prefix comes first, otherwise the first difference decides. */
  lemma {:induction false} LexMeans(s: string, t: string)
    ensures LexLess(s, t)
      <==> exists k :: 0 <= k <= |s| && k < |t| && s[..k] == t[..k] && (k == |s| || s[k] < t[k])
  {
    if s == "" {
      if t != "" {
        assert s[..0] == t[..0];
      }
    } else if t != "" {
      LexMeans(s[1..], t[1..]);
      if s[0] < t[0] {
        assert s[..0] == t[..0];
      } else if s[0] == t[0] {
        var s', t' := s[1..], t[1..];
        if k :| 0 <= k <= |s'| && k < |t'| && s'[..k] == t'[..k] && (k == |s'| || s'[k] < t'[k]) {
          assert s[..k + 1] == [s[0]] + s[1..][..k] && t[..k + 1] == [t[0]] + t[1..][..k];
          assert s[..k + 1] == t[..k + 1];
        }
      }
      if k :| 0 <= k <= |s| && k < |t| && s[..k] == t[..k] && (k == |s| || s[k] < t[k]) {
        if k > 0 {
          assert s[..k][0] == t[..k][0];
          assert s[1..][..k - 1] == s[..k][1..] && t[1..][..k - 1] == t[..k][1..];
        }
      }
    }
  }

  /** The rows of a role's listing ascend by sort order, and by code where that is equal. */
  lemma RowsAscend(st: RbacState, role: RoleId, i: nat, j: nat)
    requires UniqueScreens(st.screens) && i < j < |RoleGrants(st, role)|
    ensures var x, y := RoleGrants(st, role)[i], RoleGrants(st, role)[j];
      x.sortOrder < y.sortOrder
      || (x.sortOrder == y.sortOrder
          && exists k :: 0 <= k <= |x.code| && k < |y.code| && x.code[..k] == y.code[..k]
                         && (k == |x.code| || x.code[k] < y.code[k]))
  {
    ActiveScreensInOrder(st.screens);
    var x, y := ActiveInOrder(st.screens)[i], ActiveInOrder(st.screens)[j];
    assert Before(x, y);
    LexMeans(x.code, y.code);
  }

  predicate ShownAs(screen: Screen, row: GrantRow) {
    screen.status == Active && screen.code == row.code && screen.name == row.name && screen.sortOrder == row.sortOrder
  }

  /** The listing has a row for a code exactly when an active screen has the code, with its name and sort
      order, and with the stored flags or none. */
  lemma RowsAreScreens(st: RbacState, role: RoleId, row: GrantRow)
    requires UniqueScreens(st.screens)
    ensures row in RoleGrants(st, role)
      <==> && (exists i :: 0 <= i < |st.screens| && ShownAs(st.screens[i], row))
           && (if (role, row.code) in st.grants
               then row.read == st.grants[(role, row.code)].read && row.write == st.grants[(role, row.code)].write
               else !row.read && !row.write)
  {
    var rows, listed := RoleGrants(st, role), ActiveInOrder(st.screens);
    if row in rows {
      var i :| 0 <= i < |rows| && rows[i] == row;
      ActiveMembers(st.screens, listed[i]);
      var j :| 0 <= j < |st.screens| && st.screens[j] == listed[i];
    }
    if i :| 0 <= i < |st.screens| && ShownAs(st.screens[i], row) {
      ActiveMembers(st.screens, st.screens[i]);
      var j :| 0 <= j < |listed| && listed[j] == st.screens[i];
      assert rows[j].code == row.code;
    }
  }

  // ---- What a replacement stores ----

  /** Item `j` is the last one submitted for its code. */
  ghost predicate LastFor(items: seq<GrantItem>, code: Code, j: nat) {
    j < |items| && items[j].code == code && forall k :: j < k < |items| ==> items[k].code != code
  }

  lemma {:induction false} CollectIsLast(items: seq<GrantItem>, code: Code)
    ensures code in Collect(items) <==> exists j: nat :: LastFor(items, code, j)
    ensures forall j: nat :: LastFor(items, code, j) ==>
      code in Collect(items) && Collect(items)[code] == Flags(items[j].read || items[j].write, items[j].write)
  {
    if items != [] {
      var n := |items| - 1;
      var init := items[..n];
      CollectIsLast(init, code);
      if items[n].code == code {
        assert LastFor(items, code, n);
      } else {
        forall j: nat ensures LastFor(items, code, j) <==> LastFor(init, code, j) {
          if LastFor(items, code, j) {
            assert forall k :: j < k < |init| ==> init[k] == items[k];
          }
          if LastFor(init, code, j) {
            assert forall k :: j < k < |items| ==> items[k].code != code;
          }
        }
      }
    }
  }

  lemma {:induction false} LastExists(items: seq<GrantItem>, i: nat)
    requires i < |items|
    ensures exists j: nat :: LastFor(items, items[i].code, j)
    decreases |items| - i
  {
    if j :| i < j < |items| && items[j].code == items[i].code {
      LastExists(items, j);
    } else {
      assert LastFor(items, items[i].code, i);
    }
  }

  predicate HasItem(items: seq<GrantItem>, code: Code) {
    exists i :: 0 <= i < |items| && items[i].code == code
  }

  lemma CollectedCodes(items: seq<GrantItem>, code: Code)
    ensures code in Collect(items) <==> HasItem(items, code)
  {
    CollectIsLast(items, code);
    if i :| 0 <= i < |items| && items[i].code == code {
      LastExists(items, i);
    }
  }

  /** A replacement of an existing ordinary role succeeds exactly when every submitted code names an
      active screen; otherwise it names the unknown codes and changes nothing. */
  lemma ReplacementSucceedsIff(st: RbacState, role: RoleId, items: seq<GrantItem>)
    requires role in st.roles && st.roles[role].name != SUPER_ADMIN
    ensures var out := UpdateRoleGrantsStep(st, UpdateRoleGrants(role, items));
      if forall i :: 0 <= i < |items| ==> ActiveCode(st.screens, items[i].code) then out.reply.Rows?
      else
        && out.state == st && out.reply.Failed? && out.reply.error.UnknownScreens?
        && forall c :: c in out.reply.error.codes <==>
          !ActiveCode(st.screens, c) && exists i :: 0 <= i < |items| && items[i].code == c
  {
    forall c ensures c in Collect(items) <==> exists i :: 0 <= i < |items| && items[i].code == c {
      CollectedCodes(items, c);
    }
    var invalid := InvalidCodes(st, items);
    if i :| 0 <= i < |items| && !ActiveCode(st.screens, items[i].code) {
      assert items[i].code in invalid;
    } else {
      assert invalid == {};
    }
  }

  /** After a successful replacement every listed screen shows the flags last submitted for it, with
      write implying read, and no flags when none were submitted. */
  lemma ReplacementShows(st: RbacState, role: RoleId, items: seq<GrantItem>, i: nat)
    requires UpdateRoleGrantsStep(st, UpdateRoleGrants(role, items)).reply.Rows?
    requires i < |UpdateRoleGrantsStep(st, UpdateRoleGrants(role, items)).reply.rows|
    ensures var rows := UpdateRoleGrantsStep(st, UpdateRoleGrants(role, items)).reply.rows;
      && |rows| == |ActiveInOrder(st.screens)| && rows[i].code == ActiveInOrder(st.screens)[i].code
      && (forall j: nat :: LastFor(items, rows[i].code, j) ==>
            rows[i].write == items[j].write && rows[i].read == (items[j].read || items[j].write))
      && ((forall j :: 0 <= j < |items| ==> items[j].code != rows[i].code) ==> !rows[i].read && !rows[i].write)
  {
    var rows := UpdateRoleGrantsStep(st, UpdateRoleGrants(role, items)).reply.rows;
    CollectIsLast(items, rows[i].code);
  }

  // ---- Frame ----

  lemma SameFlagsSameRows(screens: seq<Screen>, role: RoleId, before: map<(RoleId, Code), Flags>,
                          after: map<(RoleId, Code), Flags>)
    requires forall c :: FlagsOf(after, role, c) == FlagsOf(before, role, c)
    ensures GrantRows(screens, after, role) == GrantRows(screens, before, role)
  {
  }

  lemma ReplacementFrame(grants: map<(RoleId, Code), Flags>, role: RoleId, flags: map<Code, Flags>, k: (RoleId, Code))
    requires k.0 != role
    ensures k in ReplaceGrants(grants, role, flags) <==> k in grants
    ensures k in grants ==> ReplaceGrants(grants, role, flags)[k] == grants[k]
  {
  }

  /** Other roles keep their grants, and read back the same list. */
  lemma OtherRolesKeepGrants(st: RbacState, role: RoleId, items: seq<GrantItem>, other: RoleId)
    requires other != role
    ensures var after := UpdateRoleGrantsStep(st, UpdateRoleGrants(role, items)).state;
      && (forall c :: (other, c) in after.grants <==> (other, c) in st.grants)
      && (forall c :: (other, c) in st.grants ==> after.grants[(other, c)] == st.grants[(other, c)])
      && RoleGrants(after, other) == RoleGrants(st, other)
  {
    var after := UpdateRoleGrantsStep(st, UpdateRoleGrants(role, items)).state;
    forall c
      ensures (other, c) in after.grants <==> (other, c) in st.grants
      ensures (other, c) in st.grants ==> after.grants[(other, c)] == st.grants[(other, c)]
    {
      ReplacementFrame(st.grants, role, Collect(items), (other, c));
    }
    SameFlagsSameRows(ActiveInOrder(st.screens), other, st.grants, after.grants);
  }

  lemma GrantsCarryOver(st: RbacState, grants: map<(RoleId, Code), Flags>, admin: AdminId)
    requires forall k :: k in st.grants && (admin, k.0) in st.links ==> k in grants && grants[k] == st.grants[k]
    ensures GrantsOfAdmin(st, admin) <= GrantsOfAdmin(st.(grants := grants), admin)
  {
  }

  /** Admins without the role keep exactly their permissions. */
  lemma OthersKeepPermissions(st: RbacState, role: RoleId, items: seq<GrantItem>, admin: AdminId)
    requires (admin, role) !in st.links
    ensures PermissionsOf(UpdateRoleGrantsStep(st, UpdateRoleGrants(role, items)).state, admin)
         == PermissionsOf(st, admin)
  {
    var after := UpdateRoleGrantsStep(st, UpdateRoleGrants(role, items)).state;
    GrantsCarryOver(st, after.grants, admin);
    GrantsCarryOver(after, st.grants, admin);
  }

  // ---- Round trip ----

  /** The list a client has read, as the items of a replacement. */
  function AsItems(rows: seq<GrantRow>): (items: seq<GrantItem>)
    ensures |items| == |rows|
    ensures forall i :: 0 <= i < |rows| ==> items[i] == GrantItem(rows[i].code, rows[i].read, rows[i].write)
  {
    seq(|rows|, i requires 0 <= i < |rows| => GrantItem(rows[i].code, rows[i].read, rows[i].write))
  }

  /** Stored grants never write without reading. */
  ghost predicate WritersRead(grants: map<(RoleId, Code), Flags>) {
    forall k :: k in grants && grants[k].write ==> grants[k].read
  }

  lemma ListedIsActive(screens: seq<Screen>, i: nat)
    requires UniqueScreens(screens) && i < |ActiveInOrder(screens)|
    ensures ActiveCode(screens, ActiveInOrder(screens)[i].code)
  {
    ActiveMembers(screens, ActiveInOrder(screens)[i]);
    var a :| 0 <= a < |screens| && screens[a] == ActiveInOrder(screens)[i];
  }

  lemma ReadItemIsLast(st: RbacState, role: RoleId, i: nat)
    requires UniqueScreens(st.screens) && i < |RoleGrants(st, role)|
    ensures LastFor(AsItems(RoleGrants(st, role)), RoleGrants(st, role)[i].code, i)
  {
    forall k | i < k < |RoleGrants(st, role)| ensures RoleGrants(st, role)[k].code != RoleGrants(st, role)[i].code {
      RowsHaveDistinctCodes(st.screens, i, k);
    }
  }

  /** Submitting the list just read is accepted and reads back the same list. */
  lemma ResubmissionReadsBack(st: RbacState, role: RoleId)
    requires UniqueScreens(st.screens) && WritersRead(st.grants)
    requires role in st.roles && st.roles[role].name != SUPER_ADMIN
    ensures UpdateRoleGrantsStep(st, UpdateRoleGrants(role, AsItems(RoleGrants(st, role)))).reply
         == Rows(RoleGrants(st, role))
  {
    var rows := RoleGrants(st, role);
    var items := AsItems(rows);
    forall i | 0 <= i < |items| ensures ActiveCode(st.screens, items[i].code) {
      ListedIsActive(st.screens, i);
    }
    ReplacementSucceedsIff(st, role, items);
    var again := UpdateRoleGrantsStep(st, UpdateRoleGrants(role, items)).reply.rows;
    forall i | 0 <= i < |rows| ensures again[i] == rows[i] {
      ReadItemIsLast(st, role, i);
      ReplacementShows(st, role, items, i);
    }
  }

  lemma ListedCodes(screens: seq<Screen>, code: Code)
    requires UniqueScreens(screens)
    ensures ActiveCode(screens, code) <==> HasCode(ActiveInOrder(screens), code)
  {
    var listed := ActiveInOrder(screens);
    if a :| 0 <= a < |screens| && screens[a].code == code && screens[a].status.Active? {
      ActiveMembers(screens, screens[a]);
      var i :| 0 <= i < |listed| && listed[i] == screens[a];
      assert listed[i].code == code;
    }
    if i :| 0 <= i < |listed| && listed[i].code == code {
      ListedIsActive(screens, i);
    }
  }

  lemma ReplacedFlags(grants: map<(RoleId, Code), Flags>, role: RoleId, flags: map<Code, Flags>, code: Code)
    ensures FlagsOf(ReplaceGrants(grants, role, flags), role, code)
         == if code in flags then flags[code] else Flags(false, false)
  {
  }

  lemma SameCodes(items: seq<GrantItem>, listed: seq<Screen>, code: Code)
    requires |items| == |listed| && forall i :: 0 <= i < |items| ==> items[i].code == listed[i].code
    ensures HasItem(items, code) <==> HasCode(listed, code)
  {
    if HasItem(items, code) {
      var i :| 0 <= i < |items| && items[i].code == code;
      assert listed[i].code == code;
    }
    if i :| 0 <= i < |listed| && listed[i].code == code {
      assert items[i].code == code;
    }
  }

  /** The codes of the list just read are those of the active screens. */
  lemma ReadCodes(st: RbacState, role: RoleId, code: Code)
    requires UniqueScreens(st.screens)
    ensures code in Collect(AsItems(RoleGrants(st, role))) <==> ActiveCode(st.screens, code)
  {
    var items := AsItems(RoleGrants(st, role));
    CollectedCodes(items, code);
    SameCodes(items, ActiveInOrder(st.screens), code);
    ListedCodes(st.screens, code);
  }

  lemma ReadFlags(st: RbacState, role: RoleId, code: Code)
    requires UniqueScreens(st.screens) && WritersRead(st.grants) && ActiveCode(st.screens, code)
    ensures code in Collect(AsItems(RoleGrants(st, role)))
    ensures Collect(AsItems(RoleGrants(st, role)))[code] == FlagsOf(st.grants, role, code)
  {
    var items, listed := AsItems(RoleGrants(st, role)), ActiveInOrder(st.screens);
    ListedCodes(st.screens, code);
    var i :| 0 <= i < |listed| && listed[i].code == code;
    ReadItemIsLast(st, role, i);
    CollectIsLast(items, code);
    assert LastFor(items, code, i);
  }

  /** What resubmission stores for each code: the flags read for the listed ones, none for others. */
  lemma ResubmittedFlags(st: RbacState, role: RoleId, code: Code)
    requires UniqueScreens(st.screens) && WritersRead(st.grants)
    requires role in st.roles && st.roles[role].name != SUPER_ADMIN
    ensures var after := UpdateRoleGrantsStep(st, UpdateRoleGrants(role, AsItems(RoleGrants(st, role)))).state;
      FlagsOf(after.grants, role, code)
        == if ActiveCode(st.screens, code) then FlagsOf(st.grants, role, code) else Flags(false, false)
  {
    ResubmissionReadsBack(st, role);
    ReplacedFlags(st.grants, role, Collect(AsItems(RoleGrants(st, role))), code);
    ReadCodes(st, role, code);
    if ActiveCode(st.screens, code) {
      ReadFlags(st, role, code);
    }
  }

  /** Resubmission drops what the list does not show: it keeps all the role's flags exactly when the
      role has none on inactive screens. */
  lemma ResubmissionKeepsAllIff(st: RbacState, role: RoleId)
    requires UniqueScreens(st.screens) && WritersRead(st.grants)
    requires role in st.roles && st.roles[role].name != SUPER_ADMIN
    ensures var after := UpdateRoleGrantsStep(st, UpdateRoleGrants(role, AsItems(RoleGrants(st, role)))).state;
      (forall c :: FlagsOf(after.grants, role, c) == FlagsOf(st.grants, role, c))
      <==> forall c :: !ActiveCode(st.screens, c) ==> FlagsOf(st.grants, role, c) == Flags(false, false)
  {
    forall c ensures var after := UpdateRoleGrantsStep(st, UpdateRoleGrants(role, AsItems(RoleGrants(st, role)))).state;
      FlagsOf(after.grants, role, c)
        == if ActiveCode(st.screens, c) then FlagsOf(st.grants, role, c) else Flags(false, false)
    {
      ResubmittedFlags(st, role, c);
    }
  }

  // ---- Over whole runs ----

  lemma {:induction false} EntriesKeepWritersRead(st: RbacState, role: RoleId, entries: seq<CatalogEntry>)
    requires WritersRead(st.grants) && forall i :: 0 <= i < |entries| ==> entries[i].read
    ensures WritersRead(WithEntries(st, role, entries).grants)
  {
    if entries != [] {
      EntriesKeepWritersRead(st, role, entries[..|entries| - 1]);
    }
  }

  lemma RequestKeepsWritersRead(st: RbacState, req: RbacRequest)
    requires WritersRead(st.grants)
    ensures WritersRead(RbacStep(st, req).state.grants)
  {
    match req
    case UpdateRoleGrants(role, items) =>
      forall c | c in Collect(items) ensures Collect(items)[c].write ==> Collect(items)[c].read {
        CollectIsLast(items, c);
      }
    case EnsureCatalog =>
      var s := WithSuperRole(st);
      CatalogCovers();
      EntriesKeepWritersRead(s, SuperRole(s.roles), CATALOG);
    case _ =>
  }

  lemma {:induction false} WritersReadThroughout(r: RbacRun, k: nat)
    requires r.Valid() && k < |r.states| && WritersRead(r.states[0].grants)
    ensures WritersRead(r.states[k].grants)
  {
    if k > 0 {
      WritersReadThroughout(r, k - 1);
      assert r.StepAt(k - 1);
      RequestKeepsWritersRead(r.states[k - 1], r.requests[k - 1]);
    }
  }

  /** At any point of any run, the grants read for an ordinary role can be submitted again and read
      back the same. */
  lemma RoundTripInEveryRun(r: RbacRun, k: nat, role: RoleId)
    requires FromSeed(r) && k < |r.states|
    requires role in r.states[k].roles && r.states[k].roles[role].name != SUPER_ADMIN
    ensures UpdateRoleGrantsStep(r.states[k], UpdateRoleGrants(role, AsItems(RoleGrants(r.states[k], role)))).reply
         == Rows(RoleGrants(r.states[k], role))
  {
    AlwaysSafe(r, k);
    RequestKeepsWritersRead(EMPTY, EnsureCatalog);
    WritersReadThroughout(r, k);
    ResubmissionReadsBack(r.states[k], role);
  }

  // ---- Flags on inactive screens do arise ----

  lemma FoundById(screens: seq<Screen>, i: nat)
    requires UniqueScreens(screens) && i < |screens|
    ensures FindScreen(screens, screens[i].id) == Some(i)
  {
  }

  lemma InactiveAfter(screens: seq<Screen>, i: nat)
    requires UniqueScreens(screens) && i < |screens|
    ensures UniqueScreens(screens[i := screens[i].(status := Inactive)])
    ensures !ActiveCode(screens[i := screens[i].(status := Inactive)], screens[i].code)
  {
  }

  lemma OneItemStored(st: RbacState, role: RoleId, item: GrantItem)
    requires role in st.roles && st.roles[role].name != SUPER_ADMIN && ActiveCode(st.screens, item.code)
    ensures var out := UpdateRoleGrantsStep(st, UpdateRoleGrants(role, [item]));
      out.reply.Rows? && FlagsOf(out.state.grants, role, item.code) == Normalize(item)
  {
    ReplacementSucceedsIff(st, role, [item]);
    CollectIsLast([item], item.code);
    assert LastFor([item], item.code, 0);
    ReplacedFlags(st.grants, role, Collect([item]), item.code);
  }

  /** Resubmitting what is read for the role takes away its grant on an inactive screen. */
  ghost predicate LosesGrant(st: RbacState, role: RoleId, code: Code) {
    && role in st.roles && st.roles[role].name != SUPER_ADMIN
    && !ActiveCode(st.screens, code) && FlagsOf(st.grants, role, code) == Flags(true, false)
    && FlagsOf(UpdateRoleGrantsStep(st, UpdateRoleGrants(role, AsItems(RoleGrants(st, role)))).state.grants, role, code)
         == Flags(false, false)
  }

  lemma ScreenDeactivated(st: RbacState, i: nat)
    requires UniqueScreens(st.screens) && i < |st.screens| && st.screens[i].code !in PROTECTED_SCREENS
    ensures var after := RbacStep(st, DeleteScreen(st.screens[i].id)).state;
      && after == st.(screens := st.screens[i := st.screens[i].(status := Inactive)])
      && UniqueScreens(after.screens) && !ActiveCode(after.screens, st.screens[i].code)
  {
    FoundById(st.screens, i);
    InactiveAfter(st.screens, i);
  }

  /** Granting a screen and deactivating it leads there. */
  lemma HiddenFlagsAreLost(st: RbacState, role: RoleId, i: nat)
    requires UniqueScreens(st.screens) && WritersRead(st.grants)
    requires role in st.roles && st.roles[role].name != SUPER_ADMIN
    requires i < |st.screens| && st.screens[i].status.Active? && st.screens[i].code !in PROTECTED_SCREENS
    ensures var granted := RbacStep(st, UpdateRoleGrants(role, [GrantItem(st.screens[i].code, true, false)])).state;
      LosesGrant(RbacStep(granted, DeleteScreen(st.screens[i].id)).state, role, st.screens[i].code)
  {
    var code := st.screens[i].code;
    var req := UpdateRoleGrants(role, [GrantItem(code, true, false)]);
    var granted := RbacStep(st, req).state;
    OneItemStored(st, role, GrantItem(code, true, false));
    RequestKeepsWritersRead(st, req);
    ScreenDeactivated(granted, i);
    ResubmittedFlags(RbacStep(granted, DeleteScreen(st.screens[i].id)).state, role, code);
  }

  lemma OrdinaryRoleCreated(st: RbacState, name: string)
    requires name != SUPER_ADMIN && RolesNamed(st.roles, name) == {}
    ensures var out := CreateRoleStep(st, CreateRole(name, None, Active)).state;
      out == st.(roles := st.roles[st.nextId := Role(name, None, Active)], nextId := st.nextId + 1)
  {
  }

  lemma RunOfThree(s0: RbacState, q0: RbacRequest, q1: RbacRequest, q2: RbacRequest) returns (r: RbacRun)
    ensures r.Valid() && r.requests == [q0, q1, q2] && r.states[0] == s0
    ensures r.states[3] == RbacStep(RbacStep(RbacStep(s0, q0).state, q1).state, q2).state
  {
    var s1 := RbacStep(s0, q0).state;
    var s2 := RbacStep(s1, q1).state;
    var s3 := RbacStep(s2, q2).state;
    r := RbacRun([s0, s1, s2, s3], [q0, q1, q2]);
    forall k: nat | k < 3 ensures r.StepAt(k) {
      if k == 0 {
      } else if k == 1 {
      } else {
        assert k == 2;
      }
    }
  }

  /** A role is created, granted screen `i`, and the screen is deactivated. */
  lemma RunThatLosesGrant(s0: RbacState, name: string, i: nat) returns (r: RbacRun)
    requires UniqueScreens(s0.screens) && WritersRead(s0.grants)
    requires name != SUPER_ADMIN && RolesNamed(s0.roles, name) == {}
    requires i < |s0.screens| && s0.screens[i].status.Active? && s0.screens[i].code !in PROTECTED_SCREENS
    ensures r.Valid() && |r.requests| == 3 && r.states[0] == s0
    ensures LosesGrant(r.states[3], s0.nextId, s0.screens[i].code)
  {
    var screen := s0.screens[i];
    OrdinaryRoleCreated(s0, name);
    r := RunOfThree(s0, CreateRole(name, None, Active),
                    UpdateRoleGrants(s0.nextId, [GrantItem(screen.code, true, false)]), DeleteScreen(screen.id));
    var s1 := RbacStep(s0, CreateRole(name, None, Active)).state;
    assert s1.screens == s0.screens && s1.grants == s0.grants;
    HiddenFlagsAreLost(s1, s0.nextId, i);
  }

  /** What the seeded tables offer. */
  lemma FifthSeededScreen()
    ensures var s0 := EnsureCatalogStep(EMPTY);
      && UniqueScreens(s0.screens) && WritersRead(s0.grants) && RolesNamed(s0.roles, "reader") == {}
      && |s0.screens| == 6 && s0.screens[4].status.Active? && s0.screens[4].code == "S5"
  {
    SeededTables();
    CatalogCodesDistinct();
    SeededScreensOk(1, CATALOG);
    RequestKeepsWritersRead(EMPTY, EnsureCatalog);
    assert CATALOG[4].code == "S5";
  }

  /** From the seed such a run exists. */
  lemma GrantLostInARun() returns (r: RbacRun)
    ensures FromSeed(r) && |r.requests| == 3 && LosesGrant(r.states[3], r.states[0].nextId, "S5")
  {
    FifthSeededScreen();
    r := RunThatLosesGrant(EnsureCatalogStep(EMPTY), "reader", 4);
  }
}
