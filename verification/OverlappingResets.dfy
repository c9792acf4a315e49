/** Which password a session rests on when a password reset overlaps the requests that opened it. */
module OverlappingResets {
  import opened Common
  import opened Passwords
  import opened AuthModel
  import opened Interleaving

  ghost function RowIn(t: Trace, k: nat, a: AdminId): AdminRow
    requires t.Valid() && k < |t.states| && a in t.states[0].rows
  {
    InvHolds(t, k);
    t.states[k].rows[a]
  }

  // ---- Loads and commits ----

  /** Request `k` loads the row of `a`. */
  ghost predicate LoadsAt(t: Trace, k: nat, a: AdminId)
    requires t.Valid() && k < |t.actions|
  {
    !t.actions[k].Commit? && Subject(t.states[k], t.actions[k]) == Some(a)
  }

  /** What the load at `k` is going to commit. */
  ghost function LoadedBy(t: Trace, k: nat, a: AdminId): Pending
    requires t.Valid() && k < |t.actions| && a in t.states[0].rows && !t.actions[k].Commit?
  {
    var row := RowIn(t, k, a);
    Pending(a, row, DecisionOf(t.cfg, a, row, t.actions[k]).row)
  }

  /** The commit at `k` writes for `a`. */
  ghost predicate CommitsAt(t: Trace, k: nat, a: AdminId)
    requires t.Valid() && k < |t.actions|
  {
    t.actions[k].Commit? && t.actions[k].id in t.states[k].pending && t.states[k].pending[t.actions[k].id].admin == a
  }

  ghost function Committed(t: Trace, k: nat, a: AdminId): Pending
    requires t.Valid() && k < |t.actions| && CommitsAt(t, k, a)
  {
    t.states[k].pending[t.actions[k].id]
  }

  /** Only a commit for `a` changes the row, to the merge of its columns. */
  lemma RowStepIn(t: Trace, k: nat, a: AdminId)
    requires t.Valid() && k < |t.actions| && a in t.states[0].rows
    ensures RowIn(t, k + 1, a) ==
      if CommitsAt(t, k, a)
      then Merge(RowIn(t, k, a), Committed(t, k, a).loaded, Committed(t, k, a).updated) else RowIn(t, k, a)
  {
    assert t.StepAt(k);
  }

  /** A pending commit goes back to the load that made it. */
  lemma {:induction false} PendingOrigin(t: Trace, k: nat, id: nat) returns (l: nat)
    requires t.Valid() && k < |t.states| && id in t.states[k].pending
    ensures var p := t.states[k].pending[id];
      && p.admin in t.states[0].rows && l < k && LoadsAt(t, l, p.admin)
      && t.actions[l].id == id && p == LoadedBy(t, l, p.admin)
  {
    InvHolds(t, k);
    assert t.StepAt(k - 1);
    InvHolds(t, k - 1);
    if id in t.states[k - 1].pending && t.states[k - 1].pending[id] == t.states[k].pending[id] {
      l := PendingOrigin(t, k - 1, id);
    } else {
      l := k - 1;
    }
  }

  // ---- The chain behind a stored session ----

  /** A request that opened or rotated the session: its load and its commit. */
  datatype Link = Link(load: nat, commit: nat)

  ghost predicate LinkOk(t: Trace, a: AdminId, link: Link)
    requires t.Valid() && a in t.states[0].rows
  {
    && link.load < link.commit < |t.actions| && LoadsAt(t, link.load, a) && CommitsAt(t, link.commit, a)
    && Committed(t, link.commit, a) == LoadedBy(t, link.load, a)
    && WillStore(LoadedBy(t, link.load, a)).Some?
    && WillStore(LoadedBy(t, link.load, a)) == Pointer(t, link.commit + 1, a)
  }

  /** The stored session is the same in all states from `i` to `n`. */
  ghost predicate Steady(t: Trace, a: AdminId, i: nat, n: nat)
    requires t.Valid() && n < |t.states| && a in t.states[0].rows
  {
    forall m: nat :: i <= m <= n ==> Pointer(t, m, a) == Pointer(t, n, a)
  }

  /** What a load that brings a session has checked. */
  lemma LoadChecks(t: Trace, l: nat, a: AdminId)
    requires t.Valid() && l < |t.actions| && a in t.states[0].rows && LoadsAt(t, l, a)
    requires WillStore(LoadedBy(t, l, a)).Some?
    ensures t.actions[l].LoadLogin? || t.actions[l].LoadRefresh?
    ensures t.actions[l].LoadLogin? ==> VerifyPassword(t.actions[l].password, RowIn(t, l, a).hash)
    ensures t.actions[l].LoadRefresh? ==>
      && t.actions[l].token.Signed? && Pointer(t, l, a).Some? && t.actions[l].token.claims.jti == Pointer(t, l, a)
    ensures LoadedBy(t, l, a).updated.hash == LoadedBy(t, l, a).loaded.hash
  {
    InvHolds(t, l);
  }

  /** A session stored in state `n` was stored by some commit and untouched since, or never changed. */
  lemma {:induction false} PointerSource(t: Trace, n: nat, a: AdminId) returns (c: nat)
    requires t.Valid() && n < |t.states| && a in t.states[0].rows && Pointer(t, n, a).Some?
    ensures c <= n && Steady(t, a, if c == n then 0 else c + 1, n)
    ensures c < n ==> CommitsAt(t, c, a) && WillStore(Committed(t, c, a)) == Pointer(t, n, a)
  {
    c := n;
    if n > 0 {
      RowStepIn(t, n - 1, a);
      if Pointer(t, n - 1, a) != Pointer(t, n, a) {
        c := n - 1;
      } else {
        var d := PointerSource(t, n - 1, a);
        c := if d == n - 1 then n else d;
        SteadyExtends(t, a, if d == n - 1 then 0 else d + 1, n - 1);
      }
    }
  }

  lemma SteadyExtends(t: Trace, a: AdminId, i: nat, n: nat)
    requires t.Valid() && n + 1 < |t.states| && a in t.states[0].rows
    requires Steady(t, a, i, n) && Pointer(t, n, a) == Pointer(t, n + 1, a)
    ensures Steady(t, a, i, n + 1)
  {
  }

  /** `chain` explains the session of state `n`: a login, then refreshes that each presented the session
      stored at their load; or refreshes from the session stored at the start. */
  ghost predicate Descends(t: Trace, a: AdminId, chain: seq<Link>, n: nat)
    requires t.Valid() && n < |t.states| && a in t.states[0].rows
  {
    if chain == [] then Pointer(t, n, a).Some? && Steady(t, a, 0, n)
    else
      var last := chain[|chain| - 1];
      && LinkOk(t, a, last) && last.commit < n && Steady(t, a, last.commit + 1, n)
      && (if t.actions[last.load].LoadLogin? then |chain| == 1
          else
            && t.actions[last.load].LoadRefresh? && t.actions[last.load].token.Signed?
            && t.actions[last.load].token.claims.jti == Pointer(t, last.load, a)
            && Descends(t, a, chain[..|chain| - 1], last.load))
  }

  /** However requests overlap, every stored session has such an explanation. */
  lemma {:induction false} SessionDescends(t: Trace, n: nat, a: AdminId) returns (chain: seq<Link>)
    requires t.Valid() && n < |t.states| && a in t.states[0].rows && Pointer(t, n, a).Some?
    ensures Descends(t, a, chain, n)
    decreases n
  {
    var c := PointerSource(t, n, a);
    if c == n {
      chain := [];
    } else {
      var link := LinkOfCommit(t, c, a);
      LoadChecks(t, link.load, a);
      assert Pointer(t, c + 1, a) == Pointer(t, n, a);
      if t.actions[link.load].LoadLogin? {
        chain := [link];
      } else {
        var earlier := SessionDescends(t, link.load, a);
        chain := earlier + [link];
        assert chain[..|chain| - 1] == earlier;
      }
    }
  }

  lemma LinkOfCommit(t: Trace, c: nat, a: AdminId) returns (link: Link)
    requires t.Valid() && c < |t.actions| && a in t.states[0].rows && CommitsAt(t, c, a)
    requires WillStore(Committed(t, c, a)).Some? && WillStore(Committed(t, c, a)) == Pointer(t, c + 1, a)
    ensures link.commit == c && LinkOk(t, a, link)
  {
    var l := PendingOrigin(t, c, t.actions[c].id);
    link := Link(l, c);
  }

  // ---- The password it rests on ----

  ghost predicate FromLogin(t: Trace, chain: seq<Link>)
  {
    chain != [] && chain[0].load < |t.actions| && t.actions[chain[0].load].LoadLogin?
  }

  /** The state whose password the chain rests on: that of the login's load, or the start. */
  ghost function Root(t: Trace, chain: seq<Link>): nat {
    if FromLogin(t, chain) then chain[0].load else 0
  }

  lemma {:induction false} RootIsChecked(t: Trace, a: AdminId, chain: seq<Link>, n: nat)
    requires t.Valid() && n < |t.states| && a in t.states[0].rows && Descends(t, a, chain, n)
    ensures Root(t, chain) <= n
    ensures FromLogin(t, chain) ==>
      VerifyPassword(t.actions[chain[0].load].password, RowIn(t, Root(t, chain), a).hash)
    decreases |chain|
  {
    if chain != [] {
      var last := chain[|chain| - 1];
      LoadChecks(t, last.load, a);
      if !t.actions[last.load].LoadLogin? {
        RootIsChecked(t, a, chain[..|chain| - 1], last.load);
      }
    }
  }

  ghost predicate ChangesAt(t: Trace, m: nat, a: AdminId)
    requires t.Valid() && m < |t.actions| && a in t.states[0].rows
  {
    RowIn(t, m + 1, a).hash != RowIn(t, m, a).hash
  }

  ghost predicate LastChange(t: Trace, m: nat, n: nat, a: AdminId)
    requires t.Valid() && n < |t.states| && a in t.states[0].rows
  {
    m < n && ChangesAt(t, m, a) && forall j: nat :: m < j < n ==> !ChangesAt(t, j, a)
  }

  lemma {:induction false} UnchangedHash(t: Trace, i: nat, n: nat, a: AdminId)
    requires t.Valid() && i <= n < |t.states| && a in t.states[0].rows
    requires forall j: nat :: i <= j < n ==> !ChangesAt(t, j, a)
    ensures RowIn(t, n, a).hash == RowIn(t, i, a).hash
  {
    if i < n {
      UnchangedHash(t, i, n - 1, a);
      assert !ChangesAt(t, n - 1, a);
    }
  }

  lemma {:induction false} FindLastChange(t: Trace, i: nat, n: nat, a: AdminId) returns (found: bool, m: nat)
    requires t.Valid() && i <= n < |t.states| && a in t.states[0].rows
    ensures found ==> i <= m && LastChange(t, m, n, a)
    ensures !found ==> forall j: nat :: i <= j < n ==> !ChangesAt(t, j, a)
  {
    found, m := false, 0;
    if i < n {
      if ChangesAt(t, n - 1, a) {
        found, m := true, n - 1;
      } else {
        found, m := FindLastChange(t, i, n - 1, a);
      }
    }
  }

  /** A stored session rests on the password stored now if and only if no reset has changed it since the
      load of the session's login, or the last one that did brought the same password back. */
  lemma CheckedIff(t: Trace, a: AdminId, chain: seq<Link>, n: nat)
    requires t.Valid() && n < |t.states| && a in t.states[0].rows && Descends(t, a, chain, n)
    ensures FromLogin(t, chain) ==>
      (VerifyPassword(t.actions[chain[0].load].password, RowIn(t, n, a).hash)
       <==> RowIn(t, n, a).hash == RowIn(t, Root(t, chain), a).hash)
    ensures RowIn(t, n, a).hash == RowIn(t, Root(t, chain), a).hash
      <==> forall m: nat :: Root(t, chain) <= m && LastChange(t, m, n, a) ==>
             RowIn(t, m + 1, a).hash == RowIn(t, Root(t, chain), a).hash
  {
    var root := Root(t, chain);
    RootIsChecked(t, a, chain, n);
    var found, m := FindLastChange(t, root, n, a);
    if found {
      UnchangedHash(t, m + 1, n, a);
    } else {
      UnchangedHash(t, root, n, a);
    }
    forall j: nat | root <= j && LastChange(t, j, n, a) ensures RowIn(t, n, a).hash == RowIn(t, j + 1, a).hash {
      UnchangedHash(t, j + 1, n, a);
    }
  }

  // ---- Which resets a session survives ----

  /** A commit that changes a password is that of a reset, which clears the session it has loaded. */
  lemma ChangeIsReset(t: Trace, m: nat, a: AdminId)
    requires t.Valid() && m < |t.actions| && a in t.states[0].rows && ChangesAt(t, m, a)
    ensures CommitsAt(t, m, a) && Committed(t, m, a).updated.hash != Committed(t, m, a).loaded.hash
    ensures Committed(t, m, a).updated.jti == None
    ensures Committed(t, m, a).loaded.jti.Some? ==> Pointer(t, m + 1, a) == None
  {
    RowStepIn(t, m, a);
    var l := PendingOrigin(t, m, t.actions[m].id);
    InvHolds(t, l);
  }

  /** `m` falls between the load and the commit of a request of the chain. */
  ghost predicate InGap(chain: seq<Link>, m: nat) {
    exists q :: 0 <= q < |chain| && chain[q].load < m < chain[q].commit
  }

  /** The reset committed at `m` had loaded the row when no session was stored, so its commit, which
      writes changed columns only, leaves the stored one alone. */
  ghost predicate SawNoSession(t: Trace, m: nat, a: AdminId)
    requires t.Valid() && m < |t.actions|
  {
    CommitsAt(t, m, a) && Committed(t, m, a).loaded.jti.None?
  }

  lemma SteadyThroughChange(t: Trace, a: AdminId, i: nat, n: nat, m: nat)
    requires t.Valid() && n < |t.states| && a in t.states[0].rows && Steady(t, a, i, n) && Pointer(t, n, a).Some?
    requires i <= m < n && ChangesAt(t, m, a)
    ensures SawNoSession(t, m, a)
  {
    ChangeIsReset(t, m, a);
    assert Pointer(t, m + 1, a) == Pointer(t, n, a);
  }

  lemma GapOfPrefix(chain: seq<Link>, m: nat)
    requires chain != []
    ensures InGap(chain[..|chain| - 1], m) ==> InGap(chain, m)
    ensures chain[|chain| - 1].load < m < chain[|chain| - 1].commit ==> InGap(chain, m)
  {
    var init := chain[..|chain| - 1];
    if InGap(init, m) {
      var q :| 0 <= q < |init| && init[q].load < m < init[q].commit;
      assert chain[q] == init[q];
    }
  }

  lemma DescendsStored(t: Trace, a: AdminId, chain: seq<Link>, n: nat)
    requires t.Valid() && n < |t.states| && a in t.states[0].rows && Descends(t, a, chain, n)
    ensures Pointer(t, n, a).Some?
  {
    if chain != [] {
      assert Pointer(t, chain[|chain| - 1].commit + 1, a) == Pointer(t, n, a);
    }
  }

  /** A reset that commits after the login's load and leaves a session of the chain standing either
      commits between the load and the commit of a request of the chain, or had seen no session. */
  lemma {:induction false} SurvivedResets(t: Trace, a: AdminId, chain: seq<Link>, n: nat, m: nat)
    requires t.Valid() && n < |t.states| && a in t.states[0].rows && Descends(t, a, chain, n)
    requires Root(t, chain) <= m < n && ChangesAt(t, m, a)
    ensures InGap(chain, m) || SawNoSession(t, m, a)
    decreases |chain|
  {
    DescendsStored(t, a, chain, n);
    if chain == [] {
      SteadyThroughChange(t, a, 0, n, m);
    } else {
      var last := chain[|chain| - 1];
      LinkEndsAreNoChange(t, a, last);
      GapOfPrefix(chain, m);
      if m > last.commit {
        SteadyThroughChange(t, a, last.commit + 1, n, m);
      } else if m < last.load {
        SurvivedResets(t, a, chain[..|chain| - 1], last.load, m);
      }
    }
  }

  lemma LinkEndsAreNoChange(t: Trace, a: AdminId, link: Link)
    requires t.Valid() && a in t.states[0].rows && LinkOk(t, a, link)
    ensures !ChangesAt(t, link.load, a) && !ChangesAt(t, link.commit, a)
  {
    RowStepIn(t, link.load, a);
    RowStepIn(t, link.commit, a);
    LoadChecks(t, link.load, a);
  }

  /** So without such resets a stored session rests on the password stored now. */
  lemma CheckedWithoutOverlap(t: Trace, a: AdminId, chain: seq<Link>, n: nat)
    requires t.Valid() && n < |t.states| && a in t.states[0].rows && Descends(t, a, chain, n)
    requires forall m: nat :: Root(t, chain) <= m < n && ChangesAt(t, m, a) ==>
      !InGap(chain, m) && !SawNoSession(t, m, a)
    ensures RowIn(t, n, a).hash == RowIn(t, Root(t, chain), a).hash
    ensures FromLogin(t, chain) ==> VerifyPassword(t.actions[chain[0].load].password, RowIn(t, n, a).hash)
  {
    RootIsChecked(t, a, chain, n);
    forall m: nat | Root(t, chain) <= m < n ensures !ChangesAt(t, m, a) {
      if ChangesAt(t, m, a) {
        SurvivedResets(t, a, chain, n, m);
      }
    }
    UnchangedHash(t, Root(t, chain), n, a);
  }

  // ---- Both kinds of survival happen ----

  /** Nothing pending or issued, and known pointers. */
  ghost predicate Fresh(s: Shared) {
    s.pending == map[] && s.issued == {} && PointersKnown(s.rows, s.everStored) && s.everStored <= s.used
  }

  /** A login of an active, unlocked admin with the right password and an unused identifier. */
  ghost predicate GoodLogin(s: Shared, act: Action, a: AdminId) {
    && act.LoadLogin? && act.admin == a && a in s.rows && act.ids.refreshJti !in s.used
    && s.rows[a].status.Active? && !LockedAt(s.rows[a], act.now) && VerifyPassword(act.password, s.rows[a].hash)
  }

  ghost predicate Moves(cfg: Settings, s: Shared, act: Action, next: Shared) {
    (forall id :: id in s.pending ==> s.pending[id].admin in s.rows) && Enabled(s, act) && next == Perform(cfg, s, act)
  }

  lemma LoginLoads(cfg: Settings, s: Shared, a: AdminId, act: Action) returns (next: Shared)
    requires GoodLogin(s, act, a) && act.id !in s.pending
    requires forall id :: id in s.pending ==> s.pending[id].admin in s.rows
    ensures Moves(cfg, s, act, next) && next.rows == s.rows
    ensures var row := s.rows[a];
      next.pending == s.pending[act.id :=
        Pending(a, row, row.(failed := 0, lockedUntil := None, jti := Some(act.ids.refreshJti)))]
  {
    next := Perform(cfg, s, act);
  }

  lemma ResetLoads(cfg: Settings, s: Shared, a: AdminId, id: nat, newPassword: string) returns (next: Shared)
    requires a in s.rows && id !in s.pending
    requires forall x :: x in s.pending ==> s.pending[x].admin in s.rows
    ensures Moves(cfg, s, LoadReset(id, a, newPassword), next) && next.rows == s.rows && next.used == s.used
    ensures next.pending == s.pending[id := Pending(a, s.rows[a], ResetDecision(s.rows[a], newPassword).row)]
  {
    next := Perform(cfg, s, LoadReset(id, a, newPassword));
  }

  lemma CommitStores(cfg: Settings, s: Shared, id: nat) returns (next: Shared)
    requires id in s.pending && forall x :: x in s.pending ==> s.pending[x].admin in s.rows
    ensures Moves(cfg, s, Commit(id), next) && next.pending == s.pending - {id}
    ensures var p := s.pending[id]; next.rows == s.rows[p.admin := Merge(s.rows[p.admin], p.loaded, p.updated)]
  {
    next := Perform(cfg, s, Commit(id));
  }

  lemma TraceOfFour(cfg: Settings, s0: Shared, a0: Action, s1: Shared, a1: Action, s2: Shared, a2: Action, s3: Shared,
                    a3: Action, s4: Shared) returns (t: Trace)
    requires Fresh(s0) && Moves(cfg, s0, a0, s1) && Moves(cfg, s1, a1, s2) && Moves(cfg, s2, a2, s3)
    requires Moves(cfg, s3, a3, s4)
    ensures t == Trace(cfg, [s0, s1, s2, s3, s4], [a0, a1, a2, a3]) && t.Valid()
  {
    t := Trace(cfg, [s0, s1, s2, s3, s4], [a0, a1, a2, a3]);
  }

  /** After a login and a reset, the session stands and its password is gone. */
  ghost predicate Stranded(t: Trace, a: AdminId, login: Action, newPassword: string) {
    && t.Valid() && |t.states| == 5 && a in t.states[4].rows && login.LoadLogin? && login in t.actions
    && t.states[4].rows[a].jti == Some(login.ids.refreshJti)
    && t.states[4].rows[a].hash == HashPassword(newPassword)
    && !VerifyPassword(login.password, t.states[4].rows[a].hash)
  }

  /** A login that loads before a reset commits and commits after it. */
  lemma LoginAcrossReset(cfg: Settings, s: Shared, a: AdminId, login: Action, newPassword: string) returns (t: Trace)
    requires Fresh(s) && GoodLogin(s, login, a) && login.id == 0
    requires HashPassword(newPassword) != s.rows[a].hash
    ensures |t.states| == 5 && t.cfg == cfg && t.states[0] == s
    ensures t.actions == [login, LoadReset(1, a, newPassword), Commit(1), Commit(0)]
    ensures Stranded(t, a, login, newPassword)
  {
    var s1 := LoginLoads(cfg, s, a, login);
    var s2 := ResetLoads(cfg, s1, a, 1, newPassword);
    var s3 := CommitStores(cfg, s2, 1);
    var s4 := CommitStores(cfg, s3, 0);
    t := TraceOfFour(cfg, s, login, s1, LoadReset(1, a, newPassword), s2, Commit(1), s3, Commit(0), s4);
  }

  /** A reset that has loaded the row without a session, and commits after a whole login. */
  lemma ResetAcrossLogin(cfg: Settings, s: Shared, a: AdminId, login: Action, newPassword: string) returns (t: Trace)
    requires Fresh(s) && GoodLogin(s, login, a) && login.id == 0 && s.rows[a].jti.None?
    requires HashPassword(newPassword) != s.rows[a].hash
    ensures |t.states| == 5 && t.cfg == cfg && t.states[0] == s
    ensures t.actions == [LoadReset(1, a, newPassword), login, Commit(0), Commit(1)]
    ensures Stranded(t, a, login, newPassword)
  {
    var s1 := ResetLoads(cfg, s, a, 1, newPassword);
    var s2 := LoginLoads(cfg, s1, a, login);
    var s3 := CommitStores(cfg, s2, 0);
    var s4 := CommitStores(cfg, s3, 1);
    t := TraceOfFour(cfg, s, LoadReset(1, a, newPassword), s1, login, s2, Commit(0), s3, Commit(1), s4);
  }
}
