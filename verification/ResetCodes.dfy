/** The one-time codes of the password reset: how many are issued, and what a reset rests on.
    Everything here concerns one key, so a run is first projected to the log of that key. */
module ResetCodes {
  import opened Common
  import opened AuthModel
  import opened Passwords

  // ---- The log of one key ----

  /** What a request was for the key: a code issued, a code verified, a reset completed, or nothing. */
  datatype Mark = Issue | Verify | Reset | Other

  datatype KeyLog = KeyLog(marks: seq<Mark>, times: seq<Time>, rows: seq<Option<OtpRow>>) {

    ghost predicate StepAt(cfg: Settings, k: nat)
      requires k < |marks| == |times| && |rows| == |marks| + 1
    {
      Enabled(cfg, rows[k], marks[k], times[k]) && rows[k + 1] == RowAfter(cfg, rows[k], marks[k], times[k])
    }

    ghost predicate Follows(cfg: Settings) {
      && |marks| == |times| && |rows| == |marks| + 1
      && (forall k: nat :: k < |marks| ==> StepAt(cfg, k))
      && (forall i, j :: 0 <= i <= j < |times| ==> times[i] <= times[j])
    }
  }

  predicate Enabled(cfg: Settings, row: Option<OtpRow>, mark: Mark, now: Time) {
    match mark
    case Issue => NextOtpRow(cfg, row, now).Some?
    case Verify => row.Some? && now < row.value.expiresAt
    case Reset => row.Some? && row.value.verified && now < row.value.expiresAt
    case Other => true
  }

  function RowAfter(cfg: Settings, row: Option<OtpRow>, mark: Mark, now: Time): Option<OtpRow>
    requires Enabled(cfg, row, mark, now)
  {
    match mark
    case Issue => NextOtpRow(cfg, row, now)
    case Verify => Some(row.value.(verified := true))
    case Reset => None
    case Other => row
  }

  ghost function MarkOf(cfg: Settings, st: AuthState, e: Event, key: Email): Mark {
    if IssuesOtp(cfg, st, e, key) then Issue
    else if VerifiesOtp(cfg, st, e, key) then Verify
    else if ResetsKey(cfg, st, e, key) then Reset
    else Other
  }

  ghost function LogOf(r: Run, key: Email): KeyLog
    requires r.Valid()
  {
    KeyLog(
      seq(|r.events|, k requires 0 <= k < |r.events| => MarkOf(r.cfg, r.states[k], r.events[k], key)),
      seq(|r.events|, k requires 0 <= k < |r.events| => r.events[k].now),
      seq(|r.states|, k requires 0 <= k < |r.states| => OtpOf(r.states[k].otps, key)))
  }

  lemma StepOfKey(cfg: Settings, st: AuthState, e: Event, key: Email)
    ensures var mark := MarkOf(cfg, st, e, key);
      && Enabled(cfg, OtpOf(st.otps, key), mark, e.now)
      && OtpOf(Step(cfg, st, e).state.otps, key) == RowAfter(cfg, OtpOf(st.otps, key), mark, e.now)
      && (mark.Reset? <==> e.req.UpdatePassword? && e.req.email == key && Step(cfg, st, e).reply.Done?)
  {
  }

  /** Every run is, for each key, a log that follows the rules of `generate_otp`, `verify_otp` and
      `update_password`; no other request touches the row. */
  lemma RunProjects(r: Run, key: Email)
    requires r.Valid()
    ensures LogOf(r, key).Follows(r.cfg)
  {
    var log := LogOf(r, key);
    forall k: nat | k < |log.marks| ensures log.StepAt(r.cfg, k) {
      assert r.StepAt(k);
      StepOfKey(r.cfg, r.states[k], r.events[k], key);
    }
  }

  // ---- The throttle ----

  /** Codes issued at times in [lo, hi), among the first `n` requests. */
  function Issues(log: KeyLog, lo: Time, hi: Time, n: nat): nat
    requires n <= |log.marks| == |log.times|
  {
    if n == 0 then 0
    else
      Issues(log, lo, hi, n - 1) + if log.marks[n - 1].Issue? && lo <= log.times[n - 1] < hi then 1 else 0
  }

  /** Resets completed at times in [lo, hi), among the first `n` requests. */
  function ResetCount(log: KeyLog, lo: Time, hi: Time, n: nat): nat
    requires n <= |log.marks| == |log.times|
  {
    if n == 0 then 0
    else
      ResetCount(log, lo, hi, n - 1) + if log.marks[n - 1].Reset? && lo <= log.times[n - 1] < hi then 1 else 0
  }

  /** Codes issued from `lo` on and since the last completed reset. */
  function IssuesSinceReset(log: KeyLog, lo: Time, n: nat): nat
    requires n <= |log.marks| == |log.times|
  {
    if n == 0 || log.marks[n - 1].Reset? then 0
    else
      IssuesSinceReset(log, lo, n - 1) + if log.marks[n - 1].Issue? && lo <= log.times[n - 1] then 1 else 0
  }

  lemma {:induction false} LaterHoldsFewer(log: KeyLog, lo: Time, later: Time, n: nat)
    requires n <= |log.marks| == |log.times| && lo <= later
    ensures IssuesSinceReset(log, later, n) <= IssuesSinceReset(log, lo, n)
  {
    if n > 0 {
      LaterHoldsFewer(log, lo, later, n - 1);
    }
  }

  lemma {:induction false} NothingBefore(cfg: Settings, log: KeyLog, lo: Time, hi: Time, n: nat)
    requires log.Follows(cfg) && n <= |log.marks| && (n > 0 ==> log.times[n - 1] < lo)
    ensures Issues(log, lo, hi, n) == 0 && ResetCount(log, lo, hi, n) == 0
  {
    if n > 0 {
      NothingBefore(cfg, log, lo, hi, n - 1);
    }
  }

  ghost predicate SaneThrottle(cfg: Settings) { cfg.otpMaxRequests >= 1 && cfg.otpWindowMinutes > 0 }

  ghost predicate CountOk(cfg: Settings, row: Option<OtpRow>) {
    row.Some? ==> 1 <= row.value.requestCount <= cfg.otpMaxRequests
  }

  lemma {:induction false} CountStaysOk(cfg: Settings, log: KeyLog, k: nat)
    requires log.Follows(cfg) && SaneThrottle(cfg) && CountOk(cfg, log.rows[0]) && k < |log.rows|
    ensures CountOk(cfg, log.rows[k])
  {
    if k > 0 {
      CountStaysOk(cfg, log, k - 1);
      assert log.StepAt(cfg, k - 1);
    }
  }

  lemma {:induction false} StartedInThePast(cfg: Settings, log: KeyLog, n: nat)
    requires log.Follows(cfg) && log.rows[0].None? && n <= |log.marks|
    ensures log.rows[n].Some? ==> n > 0 && log.rows[n].value.windowStart <= log.times[n - 1]
  {
    if n > 0 {
      StartedInThePast(cfg, log, n - 1);
      assert log.StepAt(cfg, n - 1);
    }
  }

  /** `request_count` is the number of codes issued since `window_started_at`, leaving out those a
      completed reset has used up; none of them is as late as the end of the window. */
  lemma {:induction false} RequestCountIsExact(cfg: Settings, log: KeyLog, n: nat)
    requires log.Follows(cfg) && SaneThrottle(cfg) && log.rows[0].None? && n <= |log.marks|
    ensures match log.rows[n]
      case None => forall lo :: IssuesSinceReset(log, lo, n) == 0
      case Some(row) =>
        && row.requestCount == IssuesSinceReset(log, row.windowStart, n)
        && IssuesSinceReset(log, row.windowStart + Minutes(cfg.otpWindowMinutes), n) == 0
  {
    if n > 0 {
      RequestCountIsExact(cfg, log, n - 1);
      StartedInThePast(cfg, log, n - 1);
      assert log.StepAt(cfg, n - 1);
      var before, now, len := log.rows[n - 1], log.times[n - 1], Minutes(cfg.otpWindowMinutes);
      if before.Some? && now >= before.value.windowStart + len {
        LaterHoldsFewer(log, before.value.windowStart + len, now, n - 1);
        LaterHoldsFewer(log, before.value.windowStart + len, now + len, n - 1);
      }
    }
  }

  /** In every run that starts without a row for the key, the stored count is that number. */
  lemma StoredCountIsExact(r: Run, key: Email, n: nat)
    requires r.Valid() && SaneThrottle(r.cfg) && key !in r.states[0].otps && n < |r.states| && key in r.states[n].otps
    ensures r.states[n].otps[key].requestCount
         == IssuesSinceReset(LogOf(r, key), r.states[n].otps[key].windowStart, n)
  {
    RunProjects(r, key);
    RequestCountIsExact(r.cfg, LogOf(r, key), n);
  }

  /** Codes that can still be issued before the interval that starts at `lo` has passed. */
  function Allowance(cfg: Settings, row: Option<OtpRow>, lo: Time): int {
    match row
    case None => cfg.otpMaxRequests
    case Some(w) => cfg.otpMaxRequests - w.requestCount + if w.windowStart < lo then cfg.otpMaxRequests else 0
  }

  /** Codes that `resets` resets leave room for in an interval of the window length. */
  function IssueLimit(cfg: Settings, resets: nat): int { (resets + 2) * cfg.otpMaxRequests - 1 }

  lemma OneMoreReset(cfg: Settings, resets: nat)
    ensures IssueLimit(cfg, resets + 1) == IssueLimit(cfg, resets) + cfg.otpMaxRequests
  {
  }

  lemma {:induction false} AllowanceCoversIssues(cfg: Settings, log: KeyLog, lo: Time, hi: Time, n: nat)
    requires log.Follows(cfg) && SaneThrottle(cfg) && CountOk(cfg, log.rows[0])
    requires hi == lo + Minutes(cfg.otpWindowMinutes)
    requires n <= |log.marks| && (n > 0 ==> log.times[n - 1] < hi)
    ensures Issues(log, lo, hi, n) + Allowance(cfg, log.rows[n], lo) <= IssueLimit(cfg, ResetCount(log, lo, hi, n))
  {
    CountStaysOk(cfg, log, n);
    if n == 0 || log.times[n - 1] < lo {
      NothingBefore(cfg, log, lo, hi, n);
    } else {
      AllowanceCoversIssues(cfg, log, lo, hi, n - 1);
      CountStaysOk(cfg, log, n - 1);
      OneMoreReset(cfg, ResetCount(log, lo, hi, n - 1));
      assert log.StepAt(cfg, n - 1);
    }
  }

  lemma {:induction false} IssueBoundAmong(cfg: Settings, log: KeyLog, lo: Time, hi: Time, n: nat)
    requires log.Follows(cfg) && SaneThrottle(cfg) && CountOk(cfg, log.rows[0])
    requires hi == lo + Minutes(cfg.otpWindowMinutes) && n <= |log.marks|
    ensures Issues(log, lo, hi, n) <= IssueLimit(cfg, ResetCount(log, lo, hi, n))
  {
    if n > 0 && log.times[n - 1] >= hi {
      IssueBoundAmong(cfg, log, lo, hi, n - 1);
    } else {
      AllowanceCoversIssues(cfg, log, lo, hi, n);
      CountStaysOk(cfg, log, n);
    }
  }

  lemma {:induction false} EmptyIntervalHasNone(log: KeyLog, lo: Time, hi: Time, n: nat)
    requires n <= |log.marks| == |log.times| && hi <= lo
    ensures Issues(log, lo, hi, n) == 0 && ResetCount(log, lo, hi, n) == 0
  {
    if n > 0 {
      EmptyIntervalHasNone(log, lo, hi, n - 1);
    }
  }

  /** In every run, any sliding interval of the window length with R completed resets of a key holds
      at most (R + 2) * max - 1 codes issued for it. */
  lemma IssueRateBoundWithResets(r: Run, key: Email, lo: Time)
    requires r.Valid() && r.cfg.otpMaxRequests >= 1 && CountOk(r.cfg, OtpOf(r.states[0].otps, key))
    ensures LogOf(r, key).Follows(r.cfg)
    ensures var log, hi, n := LogOf(r, key), lo + Minutes(r.cfg.otpWindowMinutes), |r.events|;
      Issues(log, lo, hi, n) <= (ResetCount(log, lo, hi, n) + 2) * r.cfg.otpMaxRequests - 1
  {
    var hi := lo + Minutes(r.cfg.otpWindowMinutes);
    RunProjects(r, key);
    if r.cfg.otpWindowMinutes > 0 {
      IssueBoundAmong(r.cfg, LogOf(r, key), lo, hi, |r.events|);
    } else {
      EmptyIntervalHasNone(LogOf(r, key), lo, hi, |r.events|);
    }
  }

  ghost predicate ResetFree(r: Run, key: Email)
    requires r.Valid()
  {
    forall k: nat :: k < |r.events| ==> !ResetsKey(r.cfg, r.states[k], r.events[k], key)
  }

  lemma {:induction false} ResetFreeCounts(r: Run, key: Email, lo: Time, hi: Time, n: nat)
    requires r.Valid() && ResetFree(r, key) && n <= |r.events|
    ensures ResetCount(LogOf(r, key), lo, hi, n) == 0
  {
    if n > 0 {
      ResetFreeCounts(r, key, lo, hi, n - 1);
      assert !ResetsKey(r.cfg, r.states[n - 1], r.events[n - 1], key);
    }
  }

  /** Although the windows are fixed, any sliding interval of the window length holds at most
      2 * max - 1 codes issued for a key, in every run without a completed reset of that key. */
  lemma IssueRateBound(r: Run, key: Email, lo: Time)
    requires r.Valid() && r.cfg.otpMaxRequests >= 1 && CountOk(r.cfg, OtpOf(r.states[0].otps, key))
    requires ResetFree(r, key)
    ensures LogOf(r, key).Follows(r.cfg)
    ensures Issues(LogOf(r, key), lo, lo + Minutes(r.cfg.otpWindowMinutes), |r.events|) <= 2 * r.cfg.otpMaxRequests - 1
  {
    IssueRateBoundWithResets(r, key, lo);
    ResetFreeCounts(r, key, lo, lo + Minutes(r.cfg.otpWindowMinutes), |r.events|);
  }

  // ---- The bound is reached ----

  /** Request times: one just before 0, then up to the limit at 0, then max more just before the
      interval that starts at 0 has passed. */
  function BurstTime(cfg: Settings, k: nat): Time {
    if k == 0 then -1 else if k < cfg.otpMaxRequests then 0 else Minutes(cfg.otpWindowMinutes) - 1
  }

  /** The row after the first `k` of these requests. */
  function BurstRow(cfg: Settings, k: nat): Option<OtpRow> {
    if k == 0 then None
    else
      var expiry := BurstTime(cfg, k - 1) + Minutes(cfg.otpExpiryMinutes);
      if k <= cfg.otpMaxRequests then Some(OtpRow(expiry, k, -1, false))
      else Some(OtpRow(expiry, k - cfg.otpMaxRequests, Minutes(cfg.otpWindowMinutes) - 1, false))
  }

  lemma BurstStep(cfg: Settings, k: nat)
    requires SaneThrottle(cfg) && k < 2 * cfg.otpMaxRequests
    ensures NextOtpRow(cfg, BurstRow(cfg, k), BurstTime(cfg, k)) == BurstRow(cfg, k + 1)
    ensures BurstRow(cfg, k + 1).Some?
  {
  }

  ghost predicate IsBurst(r: Run, key: Email) {
    && r.Valid() && SaneThrottle(r.cfg)
    && FindsActive(r.cfg, r.states[0].admins, key) && key !in r.states[0].otps
    && |r.events| == 2 * r.cfg.otpMaxRequests
    && forall k: nat :: k < |r.events| ==> r.events[k] == Event(BurstTime(r.cfg, k), GenerateOtp(key))
  }

  lemma {:induction false} BurstState(r: Run, key: Email, k: nat)
    requires IsBurst(r, key) && k < |r.states|
    ensures r.states[k].admins == r.states[0].admins && OtpOf(r.states[k].otps, key) == BurstRow(r.cfg, k)
  {
    if k > 0 {
      BurstState(r, key, k - 1);
      assert r.StepAt(k - 1);
      BurstStep(r.cfg, k - 1);
    }
  }

  lemma BurstMark(r: Run, key: Email, k: nat)
    requires IsBurst(r, key) && k < |r.events|
    ensures LogOf(r, key).marks[k].Issue? && LogOf(r, key).times[k] == BurstTime(r.cfg, k)
    ensures !ResetsKey(r.cfg, r.states[k], r.events[k], key)
  {
    BurstState(r, key, k);
    BurstStep(r.cfg, k);
  }

  lemma {:induction false} BurstIssues(r: Run, key: Email, n: nat)
    requires IsBurst(r, key) && 1 <= n <= |r.events|
    ensures Issues(LogOf(r, key), 0, Minutes(r.cfg.otpWindowMinutes), n) == n - 1
  {
    BurstMark(r, key, n - 1);
    if n > 1 {
      BurstIssues(r, key, n - 1);
    }
  }

  /** The bound is sharp: with any limits some run without a reset issues 2 * max - 1 codes within
      one window length. */
  lemma IssueBoundIsReached(cfg: Settings, start: AuthState, key: Email) returns (r: Run)
    requires SaneThrottle(cfg) && FindsActive(cfg, start.admins, key) && key !in start.otps
    ensures r.Valid() && r.cfg == cfg && r.states[0] == start
    ensures ResetFree(r, key)
    ensures Issues(LogOf(r, key), 0, Minutes(cfg.otpWindowMinutes), |r.events|) == 2 * cfg.otpMaxRequests - 1
  {
    var events := seq(2 * cfg.otpMaxRequests, k requires 0 <= k => Event(BurstTime(cfg, k), GenerateOtp(key)));
    r := RunExists(cfg, start, events);
    forall k: nat | k < |r.events| ensures !ResetsKey(r.cfg, r.states[k], r.events[k], key) {
      BurstMark(r, key, k);
    }
    BurstIssues(r, key, |r.events|);
  }

  /** No reset-free run from these tables issues more than `limit` codes within a window length. */
  ghost predicate NeverMoreThan(cfg: Settings, start: AuthState, key: Email, limit: int) {
    forall states: seq<AuthState>, events: seq<Event>, lo: Time {:trigger Counted(cfg, states, events, key, lo)} ::
      states != [] && states[0] == start && Run(cfg, states, events).Valid() && ResetFree(Run(cfg, states, events), key)
      ==> Counted(cfg, states, events, key, lo) <= limit
  }

  ghost function Counted(cfg: Settings, states: seq<AuthState>, events: seq<Event>, key: Email, lo: Time): nat
    requires Run(cfg, states, events).Valid()
  {
    Issues(LogOf(Run(cfg, states, events), key), lo, lo + Minutes(cfg.otpWindowMinutes), |events|)
  }

  /** So `otp_max_requests_per_window` itself bounds every window length if and only if it is 1. */
  lemma LimitIsExactIff(cfg: Settings, start: AuthState, key: Email)
    requires SaneThrottle(cfg) && FindsActive(cfg, start.admins, key) && key !in start.otps
    ensures NeverMoreThan(cfg, start, key, cfg.otpMaxRequests) <==> cfg.otpMaxRequests == 1
    ensures NeverMoreThan(cfg, start, key, 2 * cfg.otpMaxRequests - 1)
  {
    forall states: seq<AuthState>, events: seq<Event>, lo: Time |
      states != [] && states[0] == start && Run(cfg, states, events).Valid() && ResetFree(Run(cfg, states, events), key)
      ensures Counted(cfg, states, events, key, lo) <= 2 * cfg.otpMaxRequests - 1
    {
      IssueRateBound(Run(cfg, states, events), key, lo);
    }
    var r := IssueBoundIsReached(cfg, start, key);
    assert Run(cfg, r.states, r.events) == r;
    assert Counted(cfg, r.states, r.events, key, 0) == 2 * cfg.otpMaxRequests - 1;
  }

  // ---- The order of the reset protocol ----

  /** Between `i` and `j`, both excluded, no code was issued and no reset completed. */
  ghost predicate Quiet(log: KeyLog, i: nat, j: nat)
    requires j <= |log.marks|
  {
    forall m :: i < m < j ==> !log.marks[m].Issue? && !log.marks[m].Reset?
  }

  /** A stored row goes back to the last issuance, and its mark to a verification after that. */
  lemma {:induction false} RowOrigin(cfg: Settings, log: KeyLog, n: nat) returns (i: nat, j: nat)
    requires log.Follows(cfg) && log.rows[0].None? && n <= |log.marks| && log.rows[n].Some?
    ensures i < n && log.marks[i].Issue? && Quiet(log, i, n)
    ensures log.rows[n].value.expiresAt == log.times[i] + Minutes(cfg.otpExpiryMinutes)
    ensures log.rows[n].value.verified ==> i < j < n && log.marks[j].Verify?
  {
    assert log.StepAt(cfg, n - 1);
    if log.marks[n - 1].Issue? {
      i, j := n - 1, n;
    } else {
      i, j := RowOrigin(cfg, log, n - 1);
      if log.marks[n - 1].Verify? {
        j := n - 1;
      }
    }
  }

  /** Every completed reset at `k` rests on an issuance and then a verification for its key, with
      nothing issued or reset in between, all inside the life of that one code. */
  lemma ResetFollowsProtocol(r: Run, key: Email, k: nat) returns (i: nat, j: nat)
    requires r.Valid() && key !in r.states[0].otps && k < |r.events|
    requires ResetsKey(r.cfg, r.states[k], r.events[k], key)
    ensures i < j < k && Quiet(LogOf(r, key), i, k)
    ensures IssuesOtp(r.cfg, r.states[i], r.events[i], key) && VerifiesOtp(r.cfg, r.states[j], r.events[j], key)
    ensures r.events[j].req.otp == "12345"
    ensures r.events[i].now <= r.events[j].now <= r.events[k].now
    ensures r.events[k].now < r.events[i].now + Minutes(r.cfg.otpExpiryMinutes)
  {
    var log := LogOf(r, key);
    RunProjects(r, key);
    assert log.StepAt(r.cfg, k);
    i, j := RowOrigin(r.cfg, log, k);
    assert MarkOf(r.cfg, r.states[i], r.events[i], key).Issue?;
    assert MarkOf(r.cfg, r.states[j], r.events[j], key).Verify?;
  }

  lemma NotQuiet(log: KeyLog, i: nat, k1: nat, k2: nat)
    requires k1 < k2 <= |log.marks| && Quiet(log, i, k2) && i < k2
    requires i < |log.marks| && log.marks[i].Issue? && log.marks[k1].Reset?
    ensures k1 < i
  {
  }

  lemma MarksOf(r: Run, key: Email, k: nat)
    requires r.Valid() && k < |r.events|
    ensures ResetsKey(r.cfg, r.states[k], r.events[k], key) ==> LogOf(r, key).marks[k].Reset?
    ensures IssuesOtp(r.cfg, r.states[k], r.events[k], key) ==> LogOf(r, key).marks[k].Issue?
  {
  }

  /** One issuance pays for at most one completed reset: a later reset rests on a later issuance. */
  lemma OneIssuancePerReset(r: Run, key: Email, k1: nat, k2: nat) returns (i1: nat, i2: nat)
    requires r.Valid() && key !in r.states[0].otps && k1 < k2 < |r.events|
    requires ResetsKey(r.cfg, r.states[k1], r.events[k1], key) && ResetsKey(r.cfg, r.states[k2], r.events[k2], key)
    ensures i1 < k1 < i2 < k2
    ensures IssuesOtp(r.cfg, r.states[i1], r.events[i1], key) && IssuesOtp(r.cfg, r.states[i2], r.events[i2], key)
    ensures Quiet(LogOf(r, key), i1, k1) && Quiet(LogOf(r, key), i2, k2)
  {
    var j1, j2;
    i1, j1 := ResetFollowsProtocol(r, key, k1);
    i2, j2 := ResetFollowsProtocol(r, key, k2);
    MarksOf(r, key, k1);
    MarksOf(r, key, i2);
    NotQuiet(LogOf(r, key), i2, k1, k2);
  }

  /** A request for a code by an active admin is refused exactly while the window is open and full. */
  lemma CodeRefusedIff(cfg: Settings, st: AuthState, key: Email, now: Time)
    requires FindsActive(cfg, st.admins, key)
    ensures Step(cfg, st, Event(now, GenerateOtp(key))).reply
         == if NextOtpRow(cfg, OtpOf(st.otps, key), now).None? then Error(OtpThrottled) else Done
    ensures NextOtpRow(cfg, OtpOf(st.otps, key), now).None?
      <==> && key in st.otps && now < st.otps[key].windowStart + Minutes(cfg.otpWindowMinutes)
           && st.otps[key].requestCount >= cfg.otpMaxRequests
  {
  }

  /** The protocol can be completed from any tables in which a code can be requested: an active admin
      who asks for one, and during its life verifies it and resets to a password that is not reused, gets
      it stored. */
  lemma ResetIsPossible(cfg: Settings, start: AuthState, key: Email, a: AdminId, newPassword: string, rowId: nat,
                        t1: Time, t2: Time, t3: Time) returns (r: Run)
    requires FindByEmail(cfg, start.admins, key) == Found(a) && start.admins[a].status.Active?
    requires NextOtpRow(cfg, OtpOf(start.otps, key), t1).Some? && !Reused(cfg, start, a, newPassword)
    requires t1 <= t2 <= t3 < t1 + Minutes(cfg.otpExpiryMinutes)
    ensures r.Valid() && r.cfg == cfg && r.states[0] == start
    ensures r.events == [Event(t1, GenerateOtp(key)), Event(t2, VerifyOtp(key, "12345")),
                         Event(t3, UpdatePassword(key, newPassword, rowId))]
    ensures ResetsKey(r.cfg, r.states[2], r.events[2], key)
    ensures a in r.states[3].admins && r.states[3].admins[a].hash == HashPassword(newPassword)
  {
    r := RunExists(cfg, start, [Event(t1, GenerateOtp(key)), Event(t2, VerifyOtp(key, "12345")),
                                Event(t3, UpdatePassword(key, newPassword, rowId))]);
    assert r.StepAt(0) && r.StepAt(1) && r.StepAt(2);
  }
}
