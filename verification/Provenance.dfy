/** Where a stored session comes from when a reset may stop after any of its four commits. */
module Provenance {
  import opened Common
  import opened Passwords
  import opened AuthModel
  import PasswordHistory

  /** A whole request, or a password reset whose process stops after `commits` commits. */
  datatype CrashEvent =
    | Whole(event: Event)
    | Stopped(now: Time, email: Email, newPassword: string, rowId: nat, commits: nat)

  ghost function CrashStep(cfg: Settings, st: AuthState, ce: CrashEvent): AuthState {
    match ce
    case Whole(e) => Step(cfg, st, e).state
    case Stopped(now, email, newPassword, rowId, commits) =>
      match ResetCheck(cfg, st, email, newPassword, now)
      case Refused(_) => st
      case Allowed(a) => ResetCommits(cfg, st, a, email, newPassword, rowId, now, commits)
  }

  datatype CrashRun = CrashRun(cfg: Settings, states: seq<AuthState>, events: seq<CrashEvent>) {
    ghost predicate StepAt(k: nat)
      requires |states| == |events| + 1 && k < |events|
    {
      states[k + 1] == CrashStep(cfg, states[k], events[k])
    }

    ghost predicate Valid() {
      |states| == |events| + 1 && forall k: nat :: k < |events| ==> StepAt(k)
    }
  }

  /** A whole reset is the one that stops after its fourth commit. */
  lemma WholeResetIsFourCommits(cfg: Settings, st: AuthState, e: Event, a: AdminId)
    requires Resets(cfg, st, e, a)
    ensures CrashStep(cfg, st, Whole(e))
         == CrashStep(cfg, st, Stopped(e.now, e.req.email, e.req.newPassword, e.req.rowId, 4))
  {
  }

  /** What a reset that stops after some commits has stored: the history from the first and trimmed from
      the second, the admin's row from the third, the spent code from the fourth; a refused one nothing. */
  lemma StoppedStores(cfg: Settings, st: AuthState, now: Time, email: Email, newPassword: string, rowId: nat, n: nat)
    ensures var check := ResetCheck(cfg, st, email, newPassword, now);
      var after := CrashStep(cfg, st, Stopped(now, email, newPassword, rowId, n));
      if check.Refused? then after == st
      else
        var a, row := check.admin, st.admins[check.admin]; var added := HistoryRow(rowId, a, row.hash, now);
        && after.history == (if n == 0 then st.history
                             else if n == 1 then st.history + [added]
                             else Trim(st.history + [added], a, cfg.historyDepth))
        && after.admins == (if n <= 2 then st.admins
                            else st.admins[a :=
                              AdminRow(row.email, HashPassword(newPassword), row.status, 0, None, None)])
        && after.otps == (if n <= 3 then st.otps else st.otps - {email})
  {
  }

  ghost predicate LogsInAt(r: CrashRun, k: nat, a: AdminId)
    requires r.Valid() && k < |r.events|
  {
    r.events[k].Whole? && LogsIn(r.cfg, r.states[k], r.events[k].event, a)
  }

  ghost predicate RefreshesAt(r: CrashRun, k: nat, a: AdminId)
    requires r.Valid() && k < |r.events|
  {
    r.events[k].Whole? && Refreshes(r.cfg, r.states[k], r.events[k].event, a)
  }

  /** The identifier a login or refresh draws for its session. */
  function DrawnBy(ce: CrashEvent): Option<Jti> {
    if ce.Whole? && (ce.event.req.Login? || ce.event.req.Refresh?) then Some(ce.event.req.ids.refreshJti) else None
  }

  lemma {:induction false} AdminStays(r: CrashRun, k: nat, a: AdminId)
    requires r.Valid() && k < |r.states| && a in r.states[0].admins
    ensures a in r.states[k].admins
  {
    if k > 0 {
      AdminStays(r, k - 1, a);
      assert r.StepAt(k - 1);
    }
  }

  /** The session and the password of `a` after an event, when it neither opens nor rotates a session. */
  ghost predicate KeepsOrClears(row: AdminRow, next: AdminRow) {
    next.jti.None? || (next.jti == row.jti && next.hash == row.hash)
  }

  lemma CommitsOnAdmins(cfg: Settings, st: AuthState, a: AdminId, email: Email, newPassword: string,
                        rowId: nat, now: Time, n: nat)
    requires a in st.admins
    ensures ResetCommits(cfg, st, a, email, newPassword, rowId, now, n).admins
         == if n >= 3 then st.admins[a := ResetDecision(st.admins[a], newPassword).row] else st.admins
  {
  }

  lemma StoppedSessionStep(cfg: Settings, st: AuthState, ce: CrashEvent, a: AdminId)
    requires a in st.admins && ce.Stopped?
    ensures a in CrashStep(cfg, st, ce).admins && KeepsOrClears(st.admins[a], CrashStep(cfg, st, ce).admins[a])
  {
    var check := ResetCheck(cfg, st, ce.email, ce.newPassword, ce.now);
    if check.Allowed? {
      CommitsOnAdmins(cfg, st, check.admin, ce.email, ce.newPassword, ce.rowId, ce.now, ce.commits);
    }
  }

  lemma WholeSessionStep(cfg: Settings, st: AuthState, e: Event, a: AdminId)
    requires a in st.admins && !LogsIn(cfg, st, e, a) && !Refreshes(cfg, st, e, a)
    ensures a in CrashStep(cfg, st, Whole(e)).admins
    ensures KeepsOrClears(st.admins[a], CrashStep(cfg, st, Whole(e)).admins[a])
  {
    RowStep(cfg, st, e, a);
  }

  /** The identifier a chain of session events ends with; without events, the one stored at the start. */
  ghost function NamedBy(r: CrashRun, a: AdminId, chain: seq<nat>): Option<Jti>
    requires r.Valid() && a in r.states[0].admins && (chain != [] ==> chain[|chain| - 1] < |r.events|)
  {
    if chain == [] then r.states[0].admins[a].jti else DrawnBy(r.events[chain[|chain| - 1]])
  }

  /** `chain` lists refreshes of `a`, each presenting the identifier named before it, after a login of
      `a` or from the session stored at the start. */
  ghost predicate Descent(r: CrashRun, a: AdminId, chain: seq<nat>)
    requires r.Valid() && a in r.states[0].admins
  {
    if chain == [] then true
    else
      var last, earlier := chain[|chain| - 1], chain[..|chain| - 1];
      if earlier == [] && last < |r.events| && LogsInAt(r, last, a) then true
      else
        && Descent(r, a, earlier)
        && (earlier != [] ==> earlier[|earlier| - 1] < last) && last < |r.events|
        && RefreshesAt(r, last, a)
        && r.events[last].event.req.token.claims.jti == NamedBy(r, a, earlier)
  }

  ghost predicate FromLogin(r: CrashRun, a: AdminId, chain: seq<nat>)
    requires r.Valid()
  {
    chain != [] && chain[0] < |r.events| && LogsInAt(r, chain[0], a)
  }

  lemma ExtendDescent(r: CrashRun, a: AdminId, chain: seq<nat>, k: nat)
    requires r.Valid() && a in r.states[0].admins && Descent(r, a, chain)
    requires (chain != [] ==> chain[|chain| - 1] < k) && k < |r.events| && RefreshesAt(r, k, a)
    requires r.events[k].event.req.token.claims.jti == NamedBy(r, a, chain)
    ensures Descent(r, a, chain + [k]) && (FromLogin(r, a, chain + [k]) <==> FromLogin(r, a, chain))
  {
    assert (chain + [k])[..|chain|] == chain;
  }

  lemma OtherSessionStep(r: CrashRun, k: nat, a: AdminId)
    requires r.Valid() && k < |r.events| && a in r.states[k].admins && !LogsInAt(r, k, a) && !RefreshesAt(r, k, a)
    ensures a in r.states[k + 1].admins && KeepsOrClears(r.states[k].admins[a], r.states[k + 1].admins[a])
  {
    assert r.StepAt(k);
    if r.events[k].Whole? {
      WholeSessionStep(r.cfg, r.states[k], r.events[k].event, a);
    } else {
      StoppedSessionStep(r.cfg, r.states[k], r.events[k], a);
    }
  }

  /** `chain` explains the session stored in state `n`, and its first login checked the password stored
      there; without a login the session goes back to the start, and so does the password. */
  ghost predicate Origin(r: CrashRun, a: AdminId, chain: seq<nat>, n: nat)
    requires r.Valid() && n < |r.states| && a in r.states[0].admins && a in r.states[n].admins
  {
    && Descent(r, a, chain) && (chain != [] ==> chain[|chain| - 1] < n)
    && NamedBy(r, a, chain) == r.states[n].admins[a].jti
    && (if FromLogin(r, a, chain)
        then VerifyPassword(r.events[chain[0]].event.req.password, r.states[n].admins[a].hash)
        else r.states[0].admins[a].jti.Some? && r.states[n].admins[a].hash == r.states[0].admins[a].hash)
  }

  lemma OriginOfLogin(r: CrashRun, a: AdminId, k: nat)
    requires r.Valid() && k < |r.events| && a in r.states[0].admins && a in r.states[k].admins && LogsInAt(r, k, a)
    ensures a in r.states[k + 1].admins && Origin(r, a, [k], k + 1)
  {
    assert r.StepAt(k);
    LoginChecked(r.cfg, r.states[k], r.events[k].event, a);
  }

  lemma OriginOfRefresh(r: CrashRun, a: AdminId, chain: seq<nat>, k: nat)
    requires r.Valid() && k < |r.events| && a in r.states[0].admins && a in r.states[k].admins && RefreshesAt(r, k, a)
    requires Origin(r, a, chain, k)
    ensures a in r.states[k + 1].admins && Origin(r, a, chain + [k], k + 1)
  {
    assert r.StepAt(k);
    RefreshPresented(r.cfg, r.states[k], r.events[k].event, a);
    ExtendDescent(r, a, chain, k);
  }

  lemma OriginKept(r: CrashRun, a: AdminId, chain: seq<nat>, k: nat)
    requires r.Valid() && k < |r.events| && a in r.states[0].admins && a in r.states[k].admins
    requires a in r.states[k + 1].admins && Origin(r, a, chain, k)
    requires KeepsOrClears(r.states[k].admins[a], r.states[k + 1].admins[a]) && r.states[k + 1].admins[a].jti.Some?
    ensures Origin(r, a, chain, k + 1)
  {
  }

  /** Every stored session has such an origin, at every commit point. */
  lemma {:induction false} SessionHasOrigin(r: CrashRun, a: AdminId, n: nat) returns (chain: seq<nat>)
    requires r.Valid() && n < |r.states| && a in r.states[0].admins
    requires a in r.states[n].admins && r.states[n].admins[a].jti.Some?
    ensures Origin(r, a, chain, n)
  {
    chain := [];
    if n > 0 {
      AdminStays(r, n - 1, a);
      if LogsInAt(r, n - 1, a) {
        chain := [n - 1];
        OriginOfLogin(r, a, n - 1);
      } else if RefreshesAt(r, n - 1, a) {
        RefreshPresented(r.cfg, r.states[n - 1], r.events[n - 1].event, a);
        var earlier := SessionHasOrigin(r, a, n - 1);
        OriginOfRefresh(r, a, earlier, n - 1);
        chain := earlier + [n - 1];
      } else {
        OtherSessionStep(r, n - 1, a);
        chain := SessionHasOrigin(r, a, n - 1);
        OriginKept(r, a, chain, n - 1);
      }
    }
  }

  /** When no session is stored at the start, every one descends from such a login. */
  lemma SessionDescends(r: CrashRun, a: AdminId, n: nat) returns (chain: seq<nat>)
    requires r.Valid() && n < |r.states| && a in r.states[0].admins && r.states[0].admins[a].jti.None?
    requires a in r.states[n].admins && r.states[n].admins[a].jti.Some?
    ensures Descent(r, a, chain) && FromLogin(r, a, chain) && chain[|chain| - 1] < n
    ensures DrawnBy(r.events[chain[|chain| - 1]]) == r.states[n].admins[a].jti
    ensures VerifyPassword(r.events[chain[0]].event.req.password, r.states[n].admins[a].hash)
  {
    chain := SessionHasOrigin(r, a, n);
  }

  lemma LoginChecked(cfg: Settings, st: AuthState, e: Event, a: AdminId)
    requires a in st.admins && LogsIn(cfg, st, e, a)
    ensures VerifyPassword(e.req.password, st.admins[a].hash)
    ensures CrashStep(cfg, st, Whole(e)).admins[a].hash == st.admins[a].hash
    ensures CrashStep(cfg, st, Whole(e)).admins[a].jti == DrawnBy(Whole(e))
  {
    RowStep(cfg, st, e, a);
    assert Step(cfg, st, e) == LoginStep(cfg, st, e.now, e.req);
  }

  lemma RefreshPresented(cfg: Settings, st: AuthState, e: Event, a: AdminId)
    requires a in st.admins && Refreshes(cfg, st, e, a)
    ensures st.admins[a].jti.Some? && e.req.token.claims.jti == st.admins[a].jti
    ensures CrashStep(cfg, st, Whole(e)).admins[a].hash == st.admins[a].hash
    ensures CrashStep(cfg, st, Whole(e)).admins[a].jti == DrawnBy(Whole(e))
  {
    RowStep(cfg, st, e, a);
    assert Step(cfg, st, e) == RefreshStep(cfg, st, e.now, e.req);
  }

  // ---- The replaced password is already on record ----

  /** The commit that stores the new password finds the replaced one in the trimmed history, when
      its row is newer than those before it. */
  lemma ReplacedHashIsOnRecord(cfg: Settings, st: AuthState, a: AdminId, email: Email, newPassword: string,
                               rowId: nat, now: Time)
    requires a in st.admins
    requires forall h :: h in st.history && h.admin == a ==> Newer(HistoryRow(rowId, a, st.admins[a].hash, now), h)
    ensures var before := ResetCommits(cfg, st, a, email, newPassword, rowId, now, 2);
      var after := ResetCommits(cfg, st, a, email, newPassword, rowId, now, 3);
      && before.admins == st.admins && after.history == before.history
      && after.admins[a].hash == HashPassword(newPassword)
      && HistoryRow(rowId, a, st.admins[a].hash, now) in after.history
  {
    var row := HistoryRow(rowId, a, st.admins[a].hash, now);
    NewestIsKept(st.history, row, cfg.historyDepth);
  }

  lemma NewestIsKept(rows: seq<HistoryRow>, row: HistoryRow, keep: nat)
    requires forall h :: h in rows && h.admin == row.admin ==> Newer(row, h)
    ensures row in Trim(rows + [row], row.admin, keep)
  {
    var a, all := row.admin, rows + [row];
    PasswordHistory.HistoryOfSnoc(rows, row, a);
    NewestIsListedFirst(rows, row);
    var recent := RecentFor(all, a, keep);
    if keep == 0 {
      assert Ids(recent) == {};
    } else {
      assert recent[0] == row;
      assert row in recent && row.id in Ids(recent);
      assert all[..|all| - 1] == rows;
    }
  }

  lemma NewestIsListedFirst(rows: seq<HistoryRow>, row: HistoryRow)
    requires forall h :: h in rows && h.admin == row.admin ==> Newer(row, h)
    ensures NewestFirst(HistoryOf(rows + [row], row.admin)) == [row] + NewestFirst(HistoryOf(rows, row.admin))
  {
    var mine := HistoryOf(rows, row.admin);
    PasswordHistory.HistoryOfSnoc(rows, row, row.admin);
    assert (mine + [row])[..|mine|] == mine;
    var sorted := NewestFirst(mine);
    if sorted != [] {
      PasswordHistory.NewestFirstPermutes(mine);
      assert sorted[0] in multiset(mine);
      HistoryOfMembers(rows, row.admin, sorted[0]);
    }
  }

  lemma {:induction false} HistoryOfMembers(rows: seq<HistoryRow>, a: AdminId, h: HistoryRow)
    ensures h in HistoryOf(rows, a) <==> h in rows && h.admin == a
  {
    if rows != [] {
      HistoryOfMembers(rows[..|rows| - 1], a, h);
      assert rows == rows[..|rows| - 1] + [rows[|rows| - 1]];
    }
  }

  function TimeOf(ce: CrashEvent): Time { if ce.Whole? then ce.event.now else ce.now }

  /** A reset of `a` that passes its checks and comes to its first commit. */
  ghost predicate Records(cfg: Settings, st: AuthState, ce: CrashEvent, a: AdminId) {
    match ce
    case Whole(e) => Resets(cfg, st, e, a)
    case Stopped(now, email, newPassword, _, commits) =>
      commits >= 1 && ResetCheck(cfg, st, email, newPassword, now) == Allowed(a)
  }

  ghost predicate RecordsAt(r: CrashRun, k: nat, a: AdminId)
    requires r.Valid() && k < |r.events|
  {
    Records(r.cfg, r.states[k], r.events[k], a)
  }

  /** `created_at` strictly increases from one history row of `a` to the next. */
  ghost predicate ResetClock(r: CrashRun, a: AdminId)
    requires r.Valid()
  {
    && (forall i: nat, j: nat :: i < j < |r.events| && RecordsAt(r, i, a) && RecordsAt(r, j, a) ==>
          TimeOf(r.events[i]) < TimeOf(r.events[j]))
    && (forall h, k: nat :: h in r.states[0].history && h.admin == a && k < |r.events| && RecordsAt(r, k, a) ==>
          h.createdAt < TimeOf(r.events[k]))
  }

  lemma {:induction false} DropOthersMembers(rows: seq<HistoryRow>, a: AdminId, keep: set<nat>, h: HistoryRow)
    requires h in DropOthers(rows, a, keep)
    ensures h in rows
  {
    if h != rows[|rows| - 1] {
      DropOthersMembers(rows[..|rows| - 1], a, keep, h);
    }
  }

  lemma CommitsAddOneRow(cfg: Settings, st: AuthState, a: AdminId, email: Email, newPassword: string,
                         rowId: nat, now: Time, n: nat, h: HistoryRow)
    requires a in st.admins && h in ResetCommits(cfg, st, a, email, newPassword, rowId, now, n).history
    ensures h in st.history || (n >= 1 && h == HistoryRow(rowId, a, st.admins[a].hash, now))
  {
    var rows := RecordOld(st, a, rowId, now).history;
    if h !in rows {
      DropOthersMembers(rows, a, Ids(RecentFor(rows, a, cfg.historyDepth)), h);
    }
  }

  lemma OtherRequestsKeepHistory(cfg: Settings, st: AuthState, e: Event)
    requires !e.req.UpdatePassword?
    ensures Step(cfg, st, e).state.history == st.history
  {
  }

  /** Only a reset adds to the history, and only a row of its admin with its own time. */
  lemma HistorySources(cfg: Settings, st: AuthState, ce: CrashEvent, h: HistoryRow)
    requires h in CrashStep(cfg, st, ce).history
    ensures h in st.history || (Records(cfg, st, ce, h.admin) && h.createdAt == TimeOf(ce))
  {
    match ce
    case Whole(e) =>
      if e.req.UpdatePassword? {
        assert Step(cfg, st, e) == UpdatePasswordStep(cfg, st, e.now, e.req);
        var check := ResetCheck(cfg, st, e.req.email, e.req.newPassword, e.now);
        if check.Allowed? {
          CommitsAddOneRow(cfg, st, check.admin, e.req.email, e.req.newPassword, e.req.rowId, e.now, 4, h);
        }
      } else {
        OtherRequestsKeepHistory(cfg, st, e);
      }
    case Stopped(now, email, newPassword, rowId, commits) =>
      var check := ResetCheck(cfg, st, email, newPassword, now);
      if check.Allowed? {
        CommitsAddOneRow(cfg, st, check.admin, email, newPassword, rowId, now, commits, h);
      }
  }

  lemma {:induction false} HistoryIsOlder(r: CrashRun, a: AdminId, n: nat, k: nat, h: HistoryRow)
    requires r.Valid() && ResetClock(r, a) && n <= k < |r.events| && RecordsAt(r, k, a)
    requires h in r.states[n].history && h.admin == a
    ensures h.createdAt < TimeOf(r.events[k])
  {
    if n > 0 {
      assert r.StepAt(n - 1);
      HistorySources(r.cfg, r.states[n - 1], r.events[n - 1], h);
      if h in r.states[n - 1].history {
        HistoryIsOlder(r, a, n - 1, k, h);
      } else {
        assert RecordsAt(r, n - 1, a);
      }
    }
  }

  /** A password changes only by a reset that has come to its third commit. */
  lemma ChangeIsReset(cfg: Settings, st: AuthState, ce: CrashEvent, a: AdminId)
    requires a in st.admins
    ensures a in CrashStep(cfg, st, ce).admins
    ensures CrashStep(cfg, st, ce).admins[a].hash != st.admins[a].hash ==>
      Records(cfg, st, ce, a) && (ce.Stopped? ==> ce.commits >= 3)
  {
    match ce
    case Whole(e) => RowStep(cfg, st, e, a);
    case Stopped(now, email, newPassword, rowId, commits) =>
      var check := ResetCheck(cfg, st, email, newPassword, now);
      if check.Allowed? {
        CommitsOnAdmins(cfg, st, check.admin, email, newPassword, rowId, now, commits);
      }
  }

  /** Whenever the stored password of `a` changes, wherever the reset stopped, the one it replaced
      is in the history. */
  lemma ReplacedPasswordIsOnRecord(r: CrashRun, k: nat, a: AdminId) returns (h: HistoryRow)
    requires r.Valid() && ResetClock(r, a) && k < |r.events|
    requires a in r.states[k].admins && a in r.states[k + 1].admins
    requires r.states[k + 1].admins[a].hash != r.states[k].admins[a].hash
    ensures h in r.states[k + 1].history && h.admin == a && h.hash == r.states[k].admins[a].hash
  {
    var st, ce := r.states[k], r.events[k];
    assert r.StepAt(k);
    ChangeIsReset(r.cfg, st, ce, a);
    var part := if ce.Whole? then AsStopped(r.cfg, st, ce.event, a) else ce;
    h := HistoryRow(part.rowId, a, st.admins[a].hash, part.now);
    forall x | x in st.history && x.admin == a ensures Newer(h, x) {
      HistoryIsOlder(r, a, k, k, x);
    }
    ReplacedHashIsOnRecord(r.cfg, st, a, part.email, part.newPassword, part.rowId, part.now);
    OnlyTheThirdCommitStores(r.cfg, st, part, a);
  }

  /** A whole reset as the one that ran to its fourth commit. */
  ghost function AsStopped(cfg: Settings, st: AuthState, e: Event, a: AdminId): (ce: CrashEvent)
    requires Resets(cfg, st, e, a)
    ensures ce.Stopped? && ce.now == e.now && CrashStep(cfg, st, ce) == CrashStep(cfg, st, Whole(e))
  {
    WholeResetIsFourCommits(cfg, st, e, a);
    Stopped(e.now, e.req.email, e.req.newPassword, e.req.rowId, 4)
  }

  lemma OnlyTheThirdCommitStores(cfg: Settings, st: AuthState, ce: CrashEvent, a: AdminId)
    requires ce.Stopped? && a in st.admins && a in CrashStep(cfg, st, ce).admins
    requires CrashStep(cfg, st, ce).admins[a].hash != st.admins[a].hash
    ensures CrashStep(cfg, st, ce).history
         == ResetCommits(cfg, st, a, ce.email, ce.newPassword, ce.rowId, ce.now, 3).history
  {
    var check := ResetCheck(cfg, st, ce.email, ce.newPassword, ce.now);
    CommitsOnAdmins(cfg, st, check.admin, ce.email, ce.newPassword, ce.rowId, ce.now, ce.commits);
  }

  // ---- What a stopped reset leaves behind ----

  lemma CommitsKeepEmails(cfg: Settings, st: AuthState, a: AdminId, email: Email, newPassword: string,
                          rowId: nat, now: Time, n: nat)
    requires a in st.admins
    ensures var after := ResetCommits(cfg, st, a, email, newPassword, rowId, now, n);
      && Matches(cfg, after.admins, email) == Matches(cfg, st.admins, email)
      && a in after.admins && after.admins[a].status == st.admins[a].status
      && after.otps == if n >= 4 then st.otps - {email} else st.otps
  {
    CommitsOnAdmins(cfg, st, a, email, newPassword, rowId, now, n);
  }

  /** A verified code stays good for a further reset exactly until the fourth commit or its expiry:
      a reset that stops after storing the password has not used it up. */
  lemma CodeLivesUntilFourthCommit(cfg: Settings, st: AuthState, a: AdminId, email: Email, newPassword: string,
                                   rowId: nat, now: Time, n: nat, again: string, later: Time)
    requires ResetCheck(cfg, st, email, newPassword, now) == Allowed(a)
    ensures var after := ResetCommits(cfg, st, a, email, newPassword, rowId, now, n);
      && a in after.admins
      && ((ResetCheck(cfg, after, email, again, later) == Allowed(a))
          == (n < 4 && later < st.otps[email].expiresAt && !Reused(cfg, after, a, again)))
  {
    CommitsKeepEmails(cfg, st, a, email, newPassword, rowId, now, n);
  }

  lemma RecentAreRows(rows: seq<HistoryRow>, a: AdminId, limit: nat, h: HistoryRow)
    requires h in RecentFor(rows, a, limit)
    ensures h in rows && h.admin == a
  {
    PasswordHistory.NewestFirstPermutes(HistoryOf(rows, a));
    assert h in NewestFirst(HistoryOf(rows, a));
    assert h in multiset(NewestFirst(HistoryOf(rows, a)));
    HistoryOfMembers(rows, a, h);
  }

  /** A password that `a` has not had yet. */
  ghost predicate Unused(st: AuthState, a: AdminId, password: string)
    requires a in st.admins
  {
    !VerifyPassword(password, st.admins[a].hash)
    && forall h :: h in st.history && h.admin == a ==> !VerifyPassword(password, h.hash)
  }

  lemma UnusedIsNotReused(cfg: Settings, st: AuthState, a: AdminId, password: string)
    requires a in st.admins && Unused(st, a, password)
    ensures !Reused(cfg, st, a, password)
  {
    forall h | h in RecentFor(st.history, a, cfg.historyDepth) ensures !VerifyPassword(password, h.hash) {
      RecentAreRows(st.history, a, cfg.historyDepth, h);
    }
  }

  lemma UnusedAfterThird(cfg: Settings, st: AuthState, a: AdminId, email: Email, first: string, rowId: nat,
                         now: Time, again: string)
    requires a in st.admins && Unused(st, a, again) && HashPassword(again) != HashPassword(first)
    ensures var after := ResetCommits(cfg, st, a, email, first, rowId, now, 3);
      a in after.admins && after.admins[a].hash == HashPassword(first) && Unused(after, a, again)
  {
    var after := ResetCommits(cfg, st, a, email, first, rowId, now, 3);
    CommitsOnAdmins(cfg, st, a, email, first, rowId, now, 3);
    forall h | h in after.history && h.admin == a ensures !VerifyPassword(again, h.hash) {
      CommitsAddOneRow(cfg, st, a, email, first, rowId, now, 3, h);
    }
  }

  ghost predicate IssuesAt(r: CrashRun, k: nat, key: Email)
    requires r.Valid() && k < |r.events|
  {
    r.events[k].Whole? && IssuesOtp(r.cfg, r.states[k], r.events[k].event, key)
  }

  lemma {:induction false} CrashRunExists(cfg: Settings, start: AuthState, events: seq<CrashEvent>)
    returns (r: CrashRun)
    ensures r.Valid() && r.cfg == cfg && r.events == events && r.states[0] == start
  {
    if events == [] {
      r := CrashRun(cfg, [start], []);
    } else {
      var n := |events| - 1;
      var p := CrashRunExists(cfg, start, events[..n]);
      r := CrashRun(cfg, p.states + [CrashStep(cfg, p.states[n], events[n])], events);
      forall k: nat | k < |events| ensures r.StepAt(k) {
        if k < n {
          assert p.StepAt(k);
        }
      }
    }
  }

  /** A code just issued and verified. */
  lemma CodeIsVerified(cfg: Settings, start: AuthState, key: Email, a: AdminId, t: Time)
    requires FindByEmail(cfg, start.admins, key) == Found(a) && start.admins[a].status.Active?
    requires NextOtpRow(cfg, OtpOf(start.otps, key), t).Some? && cfg.otpExpiryMinutes > 0
    ensures var s1 := CrashStep(cfg, start, Whole(Event(t, GenerateOtp(key))));
      var s2 := CrashStep(cfg, s1, Whole(Event(t, VerifyOtp(key, OTP_CODE))));
      && IssuesOtp(cfg, start, Event(t, GenerateOtp(key)), key)
      && s2.admins == start.admins && s2.history == start.history
      && key in s2.otps && s2.otps[key].verified && t < s2.otps[key].expiresAt
  {
  }

  lemma StoppedReset(cfg: Settings, st: AuthState, key: Email, a: AdminId, newPassword: string, t: Time, rowId: nat,
                     commits: nat)
    requires FindByEmail(cfg, st.admins, key) == Found(a) && st.admins[a].status.Active?
    requires key in st.otps && st.otps[key].verified && t < st.otps[key].expiresAt
    requires !Reused(cfg, st, a, newPassword)
    ensures ResetCheck(cfg, st, key, newPassword, t) == Allowed(a)
    ensures CrashStep(cfg, st, Stopped(t, key, newPassword, rowId, commits))
         == ResetCommits(cfg, st, a, key, newPassword, rowId, t, commits)
  {
  }

  lemma WholeReset(cfg: Settings, st: AuthState, key: Email, a: AdminId, newPassword: string, t: Time, rowId: nat)
    requires ResetCheck(cfg, st, key, newPassword, t) == Allowed(a)
    ensures var after := CrashStep(cfg, st, Whole(Event(t, UpdatePassword(key, newPassword, rowId))));
      a in after.admins && after.admins[a].hash == HashPassword(newPassword)
  {
    RowStep(cfg, st, Event(t, UpdatePassword(key, newPassword, rowId)), a);
  }

  /** The two resets that such a code lets pass. */
  lemma TwoResets(cfg: Settings, st: AuthState, key: Email, a: AdminId, first: string, again: string, t: Time,
                  row1: nat, row2: nat)
    requires FindByEmail(cfg, st.admins, key) == Found(a) && st.admins[a].status.Active?
    requires key in st.otps && st.otps[key].verified && t < st.otps[key].expiresAt
    requires Unused(st, a, first) && Unused(st, a, again) && HashPassword(again) != HashPassword(first)
    ensures var s3 := CrashStep(cfg, st, Stopped(t, key, first, row1, 3));
      var s4 := CrashStep(cfg, s3, Whole(Event(t, UpdatePassword(key, again, row2))));
      && a in s3.admins && s3.admins[a].hash == HashPassword(first)
      && a in s4.admins && s4.admins[a].hash == HashPassword(again)
  {
    UnusedIsNotReused(cfg, st, a, first);
    StoppedReset(cfg, st, key, a, first, t, row1, 3);
    UnusedAfterThird(cfg, st, a, key, first, row1, t, again);
    var s3 := ResetCommits(cfg, st, a, key, first, row1, t, 3);
    UnusedIsNotReused(cfg, s3, a, again);
    CodeLivesUntilFourthCommit(cfg, st, a, key, first, row1, t, 3, again, t);
    WholeReset(cfg, s3, key, a, again, t, row2);
  }

  lemma OnlyRequestsIssue(r: CrashRun, k: nat, key: Email)
    requires r.Valid() && k < |r.events|
    ensures IssuesAt(r, k, key) ==> r.events[k].Whole? && r.events[k].event.req.GenerateOtp?
  {
  }

  /** One code, two passwords: from any tables in which an active admin can get a code, a reset stopped
      after its third commit and a whole one follow one issuance and one verification. */
  lemma OneCodeStoresTwoPasswords(cfg: Settings, start: AuthState, key: Email, a: AdminId, first: string,
                                  again: string, t: Time, row1: nat, row2: nat) returns (r: CrashRun)
    requires FindByEmail(cfg, start.admins, key) == Found(a) && start.admins[a].status.Active?
    requires NextOtpRow(cfg, OtpOf(start.otps, key), t).Some? && cfg.otpExpiryMinutes > 0
    requires Unused(start, a, first) && Unused(start, a, again) && HashPassword(again) != HashPassword(first)
    ensures r.Valid() && r.cfg == cfg && r.states[0] == start && |r.events| == 4
    ensures IssuesAt(r, 0, key) && forall k: nat :: 1 <= k < 4 ==> !IssuesAt(r, k, key)
    ensures a in r.states[3].admins && r.states[3].admins[a].hash == HashPassword(first)
    ensures a in r.states[4].admins && r.states[4].admins[a].hash == HashPassword(again)
  {
    r := CrashRunExists(cfg, start, [Whole(Event(t, GenerateOtp(key))), Whole(Event(t, VerifyOtp(key, OTP_CODE))),
                                     Stopped(t, key, first, row1, 3),
                                     Whole(Event(t, UpdatePassword(key, again, row2)))]);
    assert r.StepAt(0) && r.StepAt(1) && r.StepAt(2) && r.StepAt(3);
    forall k: nat | 1 <= k < 4 ensures !IssuesAt(r, k, key) {
      OnlyRequestsIssue(r, k, key);
    }
    CodeIsVerified(cfg, start, key, a, t);
    TwoResets(cfg, r.states[2], key, a, first, again, t, row1, row2);
  }
}
