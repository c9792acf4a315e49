/** Sessions when requests overlap: each request loads the admin row in one step and commits in a
    later one, in any order. A commit is an UPDATE of the columns the request has changed. */
module Interleaving {
  import opened Common
  import opened AuthModel

  /** A request between its load and its commit. */
  datatype Pending = Pending(admin: AdminId, loaded: AdminRow, updated: AdminRow)

  /** `used`, `everStored` and `issued` record identifiers drawn, pointers ever stored and pairs made. */
  datatype Shared = Shared(
    rows: map<AdminId, AdminRow>, pending: map<nat, Pending>,
    used: set<Jti>, everStored: set<Jti>, issued: set<TokenPair>)

  /** Column by column, what the request changed and otherwise what is stored now. */
  function Merge(current: AdminRow, loaded: AdminRow, updated: AdminRow): AdminRow {
    AdminRow(
      if updated.email != loaded.email then updated.email else current.email,
      if updated.hash != loaded.hash then updated.hash else current.hash,
      if updated.status != loaded.status then updated.status else current.status,
      if updated.failed != loaded.failed then updated.failed else current.failed,
      if updated.lockedUntil != loaded.lockedUntil then updated.lockedUntil else current.lockedUntil,
      if updated.jti != loaded.jti then updated.jti else current.jti)
  }

  /** A reset is loaded here after its checks on code and history have passed. */
  datatype Action =
    | LoadLogin(id: nat, admin: AdminId, password: string, now: Time, ids: FreshIds, permissions: set<string>)
    | LoadRefresh(id: nat, token: Bearer, now: Time, ids: FreshIds, permissions: set<string>)
    | LoadLogout(id: nat, token: Bearer, now: Time)
    | LoadReset(id: nat, admin: AdminId, newPassword: string)
    | Commit(id: nat)

  /** The admin a load is about, when the presented token leads to one. */
  function Subject(s: Shared, act: Action): Option<AdminId> {
    match act
    case LoadLogin(_, a, _, _, _, _) => if a in s.rows then Some(a) else None
    case LoadRefresh(_, token, now, _, _) =>
      var claims := Decode(token, now);
      if claims.Some? && claims.value.kind.RefreshKind? && AdminFromPayload(s.rows, claims.value).Allowed?
      then claims.value.user else None
    case LoadLogout(_, token, now) =>
      var claims := Decode(token, now);
      if claims.Some? && claims.value.kind.AccessKind? && claims.value.user.Some? && claims.value.user.value in s.rows
      then claims.value.user else None
    case LoadReset(_, a, _) => if a in s.rows then Some(a) else None
    case Commit(_) => None
  }

  /** The decision a load takes on the row it sees. */
  function DecisionOf(cfg: Settings, a: AdminId, row: AdminRow, act: Action): Decision
    requires !act.Commit?
  {
    match act
    case LoadLogin(_, _, password, now, ids, permissions) => LoginDecision(cfg, a, row, password, now, ids, permissions)
    case LoadRefresh(_, _, now, ids, permissions) => RefreshDecision(cfg, a, row, now, ids, permissions)
    case LoadLogout(_, _, _) => LogoutDecision(row)
    case LoadReset(_, _, newPassword) => ResetDecision(row, newPassword)
  }

  predicate Draws(act: Action) { act.LoadLogin? || act.LoadRefresh? }

  /** Identifiers are fresh, request ids are not in use, and only a loaded request commits. */
  predicate Enabled(s: Shared, act: Action) {
    && (Draws(act) ==> act.ids.refreshJti !in s.used)
    && (act.Commit? <==> act.id in s.pending)
  }

  function Perform(cfg: Settings, s: Shared, act: Action): Shared
    requires Enabled(s, act)
    requires forall id :: id in s.pending ==> s.pending[id].admin in s.rows
  {
    if act.Commit? then
      var p := s.pending[act.id];
      var row := Merge(s.rows[p.admin], p.loaded, p.updated);
      s.(rows := s.rows[p.admin := row],
         pending := s.pending - {act.id},
         everStored := s.everStored + if row.jti.Some? then {row.jti.value} else {})
    else
      var used := if Draws(act) then s.used + {act.ids.refreshJti} else s.used;
      match Subject(s, act)
      case None => s.(used := used)
      case Some(a) =>
        var d := DecisionOf(cfg, a, s.rows[a], act);
        s.(pending := s.pending[act.id := Pending(a, s.rows[a], d.row)],
           used := used,
           issued := s.issued + if d.reply.Tokens? then {d.reply.pair} else {})
  }

  // ---- The invariant ----

  /** The identifier a pending commit is going to store, if it changes the pointer to one. */
  function WillStore(p: Pending): Option<Jti> {
    if p.updated.jti != p.loaded.jti then p.updated.jti else None
  }

  ghost predicate PairOk(pair: TokenPair) {
    && pair.refresh.jti.Some? && pair.access.rjti == pair.refresh.jti
    && pair.access.kind.AccessKind? && pair.refresh.kind.RefreshKind?
    && pair.access.user == pair.refresh.user
  }

  ghost predicate PointersKnown(rows: map<AdminId, AdminRow>, everStored: set<Jti>) {
    forall a :: a in rows && rows[a].jti.Some? ==> rows[a].jti.value in everStored
  }

  /** Pending commits belong to stored admins and bring identifiers that were never stored. */
  ghost predicate PendingOk(s: Shared) {
    forall id :: id in s.pending ==>
      && s.pending[id].admin in s.rows
      && (WillStore(s.pending[id]).Some? ==>
            WillStore(s.pending[id]).value in s.used && WillStore(s.pending[id]).value !in s.everStored)
  }

  ghost predicate PendingDistinct(pending: map<nat, Pending>) {
    forall x, y :: x in pending && y in pending && x != y && WillStore(pending[x]).Some? ==>
      WillStore(pending[x]) != WillStore(pending[y])
  }

  ghost predicate IssuedOk(issued: set<TokenPair>, used: set<Jti>) {
    && (forall p :: p in issued ==> PairOk(p) && p.refresh.jti.value in used)
    && (forall p, q :: p in issued && q in issued && p.refresh.jti == q.refresh.jti ==> p == q)
  }

  ghost predicate Inv(s: Shared) {
    && PointersKnown(s.rows, s.everStored) && s.everStored <= s.used
    && PendingOk(s) && PendingDistinct(s.pending) && IssuedOk(s.issued, s.used)
  }

  lemma DecisionJti(cfg: Settings, a: AdminId, row: AdminRow, act: Action)
    requires !act.Commit?
    ensures var d := DecisionOf(cfg, a, row, act);
      && (WillStore(Pending(a, row, d.row)).Some? ==>
            Draws(act) && WillStore(Pending(a, row, d.row)) == Some(act.ids.refreshJti))
      && (d.reply.Tokens? ==>
            Draws(act) && PairOk(d.reply.pair) && d.reply.pair.refresh.jti == Some(act.ids.refreshJti))
  {
  }

  lemma InvCommit(cfg: Settings, s: Shared, act: Action)
    requires Inv(s) && Enabled(s, act) && act.Commit?
    ensures Inv(Perform(cfg, s, act))
  {
    var t := Perform(cfg, s, act);
    var p := s.pending[act.id];
    var row := t.rows[p.admin];
    assert row.jti == s.rows[p.admin].jti || row.jti == WillStore(p) || row.jti.None?;
    forall id | id in t.pending && WillStore(t.pending[id]).Some?
      ensures WillStore(t.pending[id]).value !in t.everStored
    {
      assert id != act.id;
    }
  }

  /** A new pending commit, whose identifier, if any, was never used. */
  lemma PendingAdded(s: Shared, used: set<Jti>, id: nat, p: Pending)
    requires Inv(s) && s.used <= used && id !in s.pending && p.admin in s.rows
    requires WillStore(p).Some? ==> WillStore(p).value in used && WillStore(p).value !in s.used
    ensures PendingOk(s.(pending := s.pending[id := p], used := used)) && PendingDistinct(s.pending[id := p])
  {
  }

  lemma PairAdded(issued: set<TokenPair>, used: set<Jti>, pair: TokenPair, now: set<Jti>)
    requires IssuedOk(issued, used) && used <= now && PairOk(pair)
    requires pair.refresh.jti.value in now && pair.refresh.jti.value !in used
    ensures IssuedOk(issued + {pair}, now)
  {
  }

  lemma InvLoad(cfg: Settings, s: Shared, act: Action)
    requires Inv(s) && Enabled(s, act) && !act.Commit?
    ensures Inv(Perform(cfg, s, act))
  {
    var subject := Subject(s, act);
    var used := if Draws(act) then s.used + {act.ids.refreshJti} else s.used;
    if subject.Some? {
      var a := subject.value;
      var d := DecisionOf(cfg, a, s.rows[a], act);
      DecisionJti(cfg, a, s.rows[a], act);
      PendingAdded(s, used, act.id, Pending(a, s.rows[a], d.row));
      if d.reply.Tokens? {
        PairAdded(s.issued, s.used, d.reply.pair, used);
      } else {
        assert s.issued + {} == s.issued;
      }
    }
  }

  // ---- Runs ----

  datatype Trace = Trace(cfg: Settings, states: seq<Shared>, actions: seq<Action>) {
    ghost predicate StepAt(k: nat)
      requires |states| == |actions| + 1 && k < |actions|
    {
      && Enabled(states[k], actions[k])
      && (forall id :: id in states[k].pending ==> states[k].pending[id].admin in states[k].rows)
      && states[k + 1] == Perform(cfg, states[k], actions[k])
    }

    /** Starts with nothing pending or issued; the pointers stored then count as used. */
    ghost predicate Valid() {
      && |states| == |actions| + 1
      && states[0].pending == map[] && states[0].issued == {}
      && PointersKnown(states[0].rows, states[0].everStored) && states[0].everStored <= states[0].used
      && (forall k: nat :: k < |actions| ==> StepAt(k))
    }
  }

  lemma {:induction false} InvHolds(t: Trace, k: nat)
    requires t.Valid() && k < |t.states|
    ensures Inv(t.states[k]) && t.states[k].rows.Keys == t.states[0].rows.Keys
  {
    if k > 0 {
      InvHolds(t, k - 1);
      assert t.StepAt(k - 1);
      if t.actions[k - 1].Commit? {
        InvCommit(t.cfg, t.states[k - 1], t.actions[k - 1]);
      } else {
        InvLoad(t.cfg, t.states[k - 1], t.actions[k - 1]);
      }
    }
  }

  ghost function Pointer(t: Trace, k: nat, a: AdminId): Option<Jti>
    requires t.Valid() && k < |t.states| && a in t.states[0].rows
  {
    InvHolds(t, k);
    t.states[k].rows[a].jti
  }

  lemma {:induction false} OnceStored(t: Trace, i: nat, k: nat, a: AdminId)
    requires t.Valid() && i <= k < |t.states| && a in t.states[0].rows && Pointer(t, i, a).Some?
    ensures Pointer(t, i, a).value in t.states[k].everStored
  {
    if i == k {
      InvHolds(t, k);
    } else {
      OnceStored(t, i, k - 1, a);
      assert t.StepAt(k - 1);
    }
  }

  /** However requests overlap, an identifier that stops being the stored pointer never becomes it
      again. */
  lemma {:induction false} PointerNeverReturns(t: Trace, a: AdminId, i: nat, m: nat, k: nat)
    requires t.Valid() && a in t.states[0].rows && i <= m <= k < |t.states|
    requires Pointer(t, i, a).Some? && Pointer(t, m, a) != Pointer(t, i, a)
    ensures Pointer(t, k, a) != Pointer(t, i, a)
  {
    if m < k {
      PointerNeverReturns(t, a, i, m, k - 1);
      OnceStored(t, i, k - 1, a);
      InvHolds(t, k - 1);
      assert t.StepAt(k - 1);
    }
  }

  ghost predicate Accepts(rows: map<AdminId, AdminRow>, pair: TokenPair, a: AdminId) {
    AdminFromPayload(rows, pair.access) == Allowed(a) || AdminFromPayload(rows, pair.refresh) == Allowed(a)
  }

  /** In every state at most one issued pair has a token that is accepted for an admin. */
  lemma AtMostOnePairAccepted(t: Trace, k: nat, a: AdminId, p: TokenPair, q: TokenPair)
    requires t.Valid() && k < |t.states|
    requires p in t.states[k].issued && q in t.states[k].issued
    requires Accepts(t.states[k].rows, p, a) && Accepts(t.states[k].rows, q, a)
    ensures p == q
  {
    InvHolds(t, k);
  }

  // ---- Atomic requests are the undisturbed case ----

  function LoadOf(e: Event, a: AdminId, id: nat): Action
    requires e.req.Login? || e.req.Refresh? || e.req.Logout? || e.req.UpdatePassword?
  {
    match e.req
    case Login(_, password, ids, permissions, _) => LoadLogin(id, a, password, e.now, ids, permissions)
    case Refresh(token, ids, permissions) => LoadRefresh(id, token, e.now, ids, permissions)
    case Logout(token) => LoadLogout(id, token, e.now)
    case UpdatePassword(_, newPassword, _) => LoadReset(id, a, newPassword)
  }

  /** A login that writes the row, itself or by the audit entry that follows. */
  predicate SavesLogin(cfg: Settings, st: AuthState, e: Event, a: AdminId)
    requires e.req.Login? && a in st.admins
  {
    || e.req.auditCommits
    || LoginDecision(cfg, a, st.admins[a], e.req.password, e.now, e.req.ids, e.req.permissions).saved
  }

  /** The atomic request stores what the load decides. */
  lemma AtomicDecision(cfg: Settings, st: AuthState, e: Event, a: AdminId, s: Shared, id: nat)
    requires s.rows == st.admins && a in st.admins
    requires
      || (e.req.Login? && FindByEmail(cfg, st.admins, e.req.email) == Found(a) && SavesLogin(cfg, st, e, a))
      || Refreshes(cfg, st, e, a) || LogsOut(st, e, a) || Resets(cfg, st, e, a)
    ensures Subject(s, LoadOf(e, a, id)) == Some(a)
    ensures Step(cfg, st, e).state.admins == st.admins[a := DecisionOf(cfg, a, st.admins[a], LoadOf(e, a, id)).row]
  {
  }

  lemma LoadThenCommit(cfg: Settings, s: Shared, act: Action, a: AdminId)
    requires Inv(s) && Enabled(s, act) && !act.Commit? && Subject(s, act) == Some(a) && a in s.rows
    requires Inv(Perform(cfg, s, act))
    ensures var loaded := Perform(cfg, s, act);
      && Enabled(loaded, Commit(act.id))
      && Perform(cfg, loaded, Commit(act.id)).rows == s.rows[a := DecisionOf(cfg, a, s.rows[a], act).row]
  {
    var d := DecisionOf(cfg, a, s.rows[a], act);
    assert Merge(s.rows[a], s.rows[a], d.row) == d.row;
  }

  /** A request whose commit directly follows its load leaves the rows an atomic request leaves. */
  lemma AtomicIsLoadThenCommit(cfg: Settings, st: AuthState, e: Event, a: AdminId, s: Shared, id: nat)
    requires Inv(s) && s.rows == st.admins && id !in s.pending && a in st.admins
    requires
      || (e.req.Login? && FindByEmail(cfg, st.admins, e.req.email) == Found(a) && SavesLogin(cfg, st, e, a))
      || Refreshes(cfg, st, e, a) || LogsOut(st, e, a) || Resets(cfg, st, e, a)
    requires Enabled(s, LoadOf(e, a, id))
    ensures var loaded := Perform(cfg, s, LoadOf(e, a, id));
      && Inv(loaded) && Enabled(loaded, Commit(id))
      && Perform(cfg, loaded, Commit(id)).rows == Step(cfg, st, e).state.admins
  {
    var act := LoadOf(e, a, id);
    InvLoad(cfg, s, act);
    AtomicDecision(cfg, st, e, a, s, id);
    LoadThenCommit(cfg, s, act, a);
  }
}
