/** How often a password can be guessed wrong: the counter, the lock and the rate they enforce. */
module Lockout {
  import opened Common
  import opened Passwords
  import opened AuthModel

  ghost predicate CounterOk(cfg: Settings, row: AdminRow) {
    0 <= row.failed < cfg.maxFailedLogins && (row.lockedUntil.Some? ==> row.failed == 0)
  }

  /** A run in which admin `a` exists and starts with a consistent counter. */
  ghost predicate Guarded(r: Run, a: AdminId) {
    && r.Valid() && a in r.states[0].admins
    && r.cfg.maxFailedLogins >= 1
    && CounterOk(r.cfg, r.states[0].admins[a])
  }

  lemma {:induction false} CounterStaysOk(r: Run, k: nat, a: AdminId)
    requires Guarded(r, a) && k < |r.states|
    ensures CounterOk(r.cfg, RowAt(r, k, a))
  {
    if k > 0 {
      CounterStaysOk(r, k - 1, a);
      RowAtNext(r, k - 1, a);
    }
  }

  // ---- Counting ----

  ghost predicate FailsAt(r: Run, k: nat, a: AdminId)
    requires r.Valid() && k < |r.events|
  {
    FailsCheck(r.cfg, r.states[k], r.events[k], a)
  }

  ghost predicate ForgivesAt(r: Run, k: nat, a: AdminId)
    requires r.Valid() && k < |r.events|
  {
    LogsIn(r.cfg, r.states[k], r.events[k], a) || Resets(r.cfg, r.states[k], r.events[k], a)
  }

  /** The failing check that locks the account. */
  ghost predicate LocksAt(r: Run, k: nat, a: AdminId)
    requires r.Valid() && k < |r.events|
  {
    FailsAt(r, k, a) && Step(r.cfg, r.states[k], r.events[k]).reply == Error(AccountLocked)
  }

  /** Failing checks of `a` at times in [lo, hi), among the first `n` requests. */
  ghost function Failures(r: Run, a: AdminId, lo: Time, hi: Time, n: nat): nat
    requires r.Valid() && n <= |r.events|
  {
    if n == 0 then 0
    else
      var earlier := Failures(r, a, lo, hi, n - 1);
      if FailsAt(r, n - 1, a) && lo <= r.events[n - 1].now < hi then earlier + 1 else earlier
  }

  ghost function AllFailures(r: Run, a: AdminId, n: nat): nat
    requires r.Valid() && n <= |r.events|
  {
    if n == 0 then 0 else AllFailures(r, a, n - 1) + if FailsAt(r, n - 1, a) then 1 else 0
  }

  ghost function Lockouts(r: Run, a: AdminId, n: nat): nat
    requires r.Valid() && n <= |r.events|
  {
    if n == 0 then 0 else Lockouts(r, a, n - 1) + if LocksAt(r, n - 1, a) then 1 else 0
  }

  /** Failures wiped from the counter by a login or a reset. */
  ghost function Forgiven(r: Run, a: AdminId, n: nat): int
    requires r.Valid() && a in r.states[0].admins && n <= |r.events|
  {
    if n == 0 then 0
    else Forgiven(r, a, n - 1) + if ForgivesAt(r, n - 1, a) then RowAt(r, n - 1, a).failed else 0
  }

  /** One request keeps the balance of failures. */
  lemma StepConserves(r: Run, a: AdminId, k: nat)
    requires Guarded(r, a) && k < |r.events|
    ensures RowAt(r, k, a).failed + (if FailsAt(r, k, a) then 1 else 0)
         == (if LocksAt(r, k, a) then r.cfg.maxFailedLogins else 0)
          + (if ForgivesAt(r, k, a) then RowAt(r, k, a).failed else 0)
          + RowAt(r, k + 1, a).failed
  {
    CounterStaysOk(r, k, a);
    RowAtNext(r, k, a);
  }

  /** Conservation: every failing check is on the counter, in a lockout or forgiven. */
  lemma {:induction false} FailuresAreConserved(r: Run, a: AdminId, n: nat)
    requires Guarded(r, a) && n <= |r.events|
    ensures RowAt(r, 0, a).failed + AllFailures(r, a, n)
         == r.cfg.maxFailedLogins * Lockouts(r, a, n) + Forgiven(r, a, n) + RowAt(r, n, a).failed
  {
    if n > 0 {
      FailuresAreConserved(r, a, n - 1);
      StepConserves(r, a, n - 1);
      OneFewer(r.cfg.maxFailedLogins, Lockouts(r, a, n));
    }
  }

  // ---- The rate ----

  /** No login and no reset of `a` succeeds at a time in [lo, hi). */
  ghost predicate Unforgiven(r: Run, a: AdminId, lo: Time, hi: Time)
    requires r.Valid()
  {
    forall k: nat :: k < |r.events| && lo <= r.events[k].now < hi ==> !ForgivesAt(r, k, a)
  }

  /** Failing checks still possible before `end` for an account in this state. */
  ghost function Budget(cfg: Settings, row: AdminRow, end: Time): int {
    if row.lockedUntil.Some? && row.lockedUntil.value >= end then 0 else cfg.maxFailedLogins - row.failed
  }

  lemma {:induction false} NoFailuresBefore(r: Run, a: AdminId, lo: Time, hi: Time, n: nat)
    requires r.Valid() && n <= |r.events| && (n > 0 ==> r.events[n - 1].now < lo)
    ensures Failures(r, a, lo, hi, n) == 0
  {
    if n > 0 {
      NoFailuresBefore(r, a, lo, hi, n - 1);
    }
  }

  lemma BudgetPays(r: Run, a: AdminId, k: nat, lo: Time, hi: Time)
    requires Guarded(r, a) && k < |r.events| && !ForgivesAt(r, k, a)
    requires hi <= lo + Minutes(r.cfg.lockoutMinutes) && lo <= r.events[k].now < hi
    ensures Budget(r.cfg, RowAt(r, k + 1, a), hi) + (if FailsAt(r, k, a) then 1 else 0)
         <= Budget(r.cfg, RowAt(r, k, a), hi)
  {
    CounterStaysOk(r, k, a);
    RowAtNext(r, k, a);
  }

  lemma {:induction false} BudgetCoversFailures(r: Run, a: AdminId, lo: Time, hi: Time, n: nat)
    requires Guarded(r, a) && n <= |r.events|
    requires hi <= lo + Minutes(r.cfg.lockoutMinutes) && Unforgiven(r, a, lo, hi)
    requires n > 0 ==> r.events[n - 1].now < hi
    ensures Failures(r, a, lo, hi, n) + Budget(r.cfg, RowAt(r, n, a), hi) <= r.cfg.maxFailedLogins
  {
    if n == 0 || r.events[n - 1].now < lo {
      CounterStaysOk(r, n, a);
      NoFailuresBefore(r, a, lo, hi, n);
    } else {
      BudgetCoversFailures(r, a, lo, hi, n - 1);
      assert !ForgivesAt(r, n - 1, a);
      BudgetPays(r, a, n - 1, lo, hi);
    }
  }

  /** The bound for a window no longer than the lockout, among the first `n` requests. */
  lemma {:induction false} ShortWindowBound(r: Run, a: AdminId, lo: Time, hi: Time, n: nat)
    requires Guarded(r, a) && n <= |r.events|
    requires hi <= lo + Minutes(r.cfg.lockoutMinutes) && Unforgiven(r, a, lo, hi)
    ensures Failures(r, a, lo, hi, n) <= r.cfg.maxFailedLogins
  {
    if n > 0 && r.events[n - 1].now >= hi {
      ShortWindowBound(r, a, lo, hi, n - 1);
    } else {
      BudgetCoversFailures(r, a, lo, hi, n);
      CounterStaysOk(r, n, a);
    }
  }

  /** In any window of the lockout length without a login or a reset, at most
      `max_failed_login_attempts` checks fail. */
  lemma FailureRateBound(r: Run, a: AdminId, lo: Time)
    requires Guarded(r, a)
    requires Unforgiven(r, a, lo, lo + Minutes(r.cfg.lockoutMinutes))
    ensures Failures(r, a, lo, lo + Minutes(r.cfg.lockoutMinutes), |r.events|) <= r.cfg.maxFailedLogins
  {
    ShortWindowBound(r, a, lo, lo + Minutes(r.cfg.lockoutMinutes), |r.events|);
  }

  lemma {:induction false} FailuresSplit(r: Run, a: AdminId, lo: Time, mid: Time, hi: Time, n: nat)
    requires r.Valid() && n <= |r.events| && lo <= mid <= hi
    ensures Failures(r, a, lo, hi, n) == Failures(r, a, lo, mid, n) + Failures(r, a, mid, hi, n)
  {
    if n > 0 {
      FailuresSplit(r, a, lo, mid, hi, n - 1);
    }
  }

  lemma {:induction false} ManyWindowsBound(r: Run, a: AdminId, lo: Time, span: nat, windows: nat)
    requires Guarded(r, a) && r.cfg.lockoutMinutes > 0 && windows >= 1
    requires span <= Minutes(r.cfg.lockoutMinutes) * windows
    requires Unforgiven(r, a, lo, lo + span)
    ensures Failures(r, a, lo, lo + span, |r.events|) <= r.cfg.maxFailedLogins * windows
    decreases windows
  {
    var len := Minutes(r.cfg.lockoutMinutes);
    if span <= len {
      ShortWindowBound(r, a, lo, lo + span, |r.events|);
      MoreIsMore(r.cfg.maxFailedLogins, windows);
    } else {
      ShortWindowBound(r, a, lo, lo + len, |r.events|);
      OneFewer(len, windows);
      OneFewer(r.cfg.maxFailedLogins, windows);
      ManyWindowsBound(r, a, lo + len, span - len, windows - 1);
      FailuresSplit(r, a, lo, lo + len, lo + span, |r.events|);
    }
  }

  lemma OneFewer(x: int, n: int)
    ensures x * n == x * (n - 1) + x
  {
  }

  lemma MoreIsMore(x: int, n: int)
    requires x >= 0 && n >= 1
    ensures x <= x * n
  {
  }

  /** A span of any length without a login or a reset holds at most
      max * (span / lockout + 1) failing checks. */
  lemma LongSpanBound(r: Run, a: AdminId, lo: Time, span: nat)
    requires Guarded(r, a) && r.cfg.lockoutMinutes > 0
    requires Unforgiven(r, a, lo, lo + span)
    ensures Failures(r, a, lo, lo + span, |r.events|)
         <= r.cfg.maxFailedLogins * (span / Minutes(r.cfg.lockoutMinutes) + 1)
  {
    var len := Minutes(r.cfg.lockoutMinutes);
    OneFewer(len, span / len + 1);
    ManyWindowsBound(r, a, lo, span, span / len + 1);
  }

  // ---- The lock itself ----

  /** One lockout and one login directly after it: refused unchecked before its end, and from then on
      the right password is enough. */
  lemma LockHoldsExactly(cfg: Settings, a: AdminId, row: AdminRow, wrong: string, t: Time,
                         password: string, now: Time, ids: FreshIds, permissions: set<string>)
    requires CounterOk(cfg, row) && row.status.Active? && !LockedAt(row, t)
    requires row.failed == cfg.maxFailedLogins - 1
    requires !VerifyPassword(wrong, row.hash)
    ensures var locked := LoginDecision(cfg, a, row, wrong, t, ids, permissions);
      var next := LoginDecision(cfg, a, locked.row, password, now, ids, permissions);
      && locked.reply == Error(AccountLocked) && locked.saved
      && (now < t + Minutes(cfg.lockoutMinutes) ==>
            next.row == locked.row && next.reply == Error(AccountLocked) && !next.saved)
      && (now >= t + Minutes(cfg.lockoutMinutes) ==>
            (next.reply.Tokens? <==> VerifyPassword(password, row.hash)))
  {
  }

  /** The end of the lockout that begins with request `k`. */
  function LockEnd(r: Run, k: nat): Time
    requires k < |r.events|
  {
    r.events[k].now + Minutes(r.cfg.lockoutMinutes)
  }

  ghost predicate ResetBetween(r: Run, a: AdminId, k: nat, n: nat)
    requires r.Valid() && n <= |r.events|
  {
    exists m: nat :: k < m < n && Resets(r.cfg, r.states[m], r.events[m], a)
  }

  lemma LockBegins(r: Run, a: AdminId, k: nat)
    requires Guarded(r, a) && k < |r.events| && LocksAt(r, k, a)
    ensures RowAt(r, k + 1, a).lockedUntil == Some(LockEnd(r, k))
  {
    CounterStaysOk(r, k, a);
    RowAtNext(r, k, a);
  }

  lemma LockedStep(r: Run, a: AdminId, k: nat)
    requires Guarded(r, a) && k < |r.events| && LockedAt(RowAt(r, k, a), r.events[k].now)
    requires !Resets(r.cfg, r.states[k], r.events[k], a)
    ensures RowAt(r, k + 1, a).lockedUntil == RowAt(r, k, a).lockedUntil
  {
    RowAtNext(r, k, a);
  }

  lemma {:induction false} LockStays(r: Run, a: AdminId, k: nat, n: nat)
    requires Guarded(r, a) && k < n <= |r.events| && LocksAt(r, k, a) && !ResetBetween(r, a, k, n)
    requires r.events[n - 1].now < LockEnd(r, k)
    ensures RowAt(r, n, a).lockedUntil == Some(LockEnd(r, k))
  {
    if n == k + 1 {
      LockBegins(r, a, k);
    } else {
      assert forall m: nat :: k < m < n ==> !Resets(r.cfg, r.states[m], r.events[m], a);
      LockStays(r, a, k, n - 1);
      LockedStep(r, a, n - 1);
    }
  }

  /** A login of a locked account is refused unchecked and changes nothing. */
  lemma LockedLoginRefused(r: Run, a: AdminId, n: nat)
    requires r.Valid() && a in r.states[0].admins && n < |r.events|
    requires LockedAt(RowAt(r, n, a), r.events[n].now)
    requires r.events[n].req.Login? && FindByEmail(r.cfg, r.states[n].admins, r.events[n].req.email) == Found(a)
    ensures Step(r.cfg, r.states[n], r.events[n]) == Outcome(r.states[n], Error(AccountLocked))
  {
    AdminsFixed(r, n);
    var st := r.states[n];
    assert Step(r.cfg, st, r.events[n]) == LoginStep(r.cfg, st, r.events[n].now, r.events[n].req);
    assert st.admins[a := st.admins[a]] == st.admins;
  }

  /** Whatever requests follow a lockout, the account is locked until its end unless a reset completes:
      it is unlocked earlier only if one lies between, and until then every login is refused. */
  lemma LockHoldsThroughout(r: Run, a: AdminId, k: nat, n: nat)
    requires Guarded(r, a) && k < n < |r.events| && LocksAt(r, k, a) && r.events[n].now < LockEnd(r, k)
    ensures LockedAt(RowAt(r, n, a), r.events[n].now) || ResetBetween(r, a, k, n)
    ensures !ResetBetween(r, a, k, n) && r.events[n].req.Login?
        && FindByEmail(r.cfg, r.states[n].admins, r.events[n].req.email) == Found(a)
      ==> Step(r.cfg, r.states[n], r.events[n]) == Outcome(r.states[n], Error(AccountLocked))
  {
    if !ResetBetween(r, a, k, n) {
      assert r.events[n - 1].now <= r.events[n].now;
      LockStays(r, a, k, n);
      if r.events[n].req.Login? && FindByEmail(r.cfg, r.states[n].admins, r.events[n].req.email) == Found(a) {
        LockedLoginRefused(r, a, n);
      }
    }
  }

  lemma LockStep(r: Run, a: AdminId, k: nat)
    requires Guarded(r, a) && k < |r.events| && RowAt(r, k + 1, a).lockedUntil.Some?
    ensures
      || (LocksAt(r, k, a) && RowAt(r, k + 1, a).lockedUntil == Some(LockEnd(r, k)))
      || (!Resets(r.cfg, r.states[k], r.events[k], a) && RowAt(r, k + 1, a).lockedUntil == RowAt(r, k, a).lockedUntil)
  {
    CounterStaysOk(r, k, a);
    RowAtNext(r, k, a);
  }

  lemma NoResetExtends(r: Run, a: AdminId, k: nat, n: nat)
    requires r.Valid() && k < n < |r.events|
    requires !ResetBetween(r, a, k, n) && !Resets(r.cfg, r.states[n], r.events[n], a)
    ensures !ResetBetween(r, a, k, n + 1)
  {
  }

  /** Locks are set by lockouts only, and gone after a reset. */
  lemma {:induction false} LockedBySomeLockout(r: Run, a: AdminId, n: nat) returns (k: nat)
    requires Guarded(r, a) && n < |r.states|
    requires RowAt(r, n, a).lockedUntil.Some? && RowAt(r, n, a).lockedUntil != RowAt(r, 0, a).lockedUntil
    ensures k < n && LocksAt(r, k, a) && RowAt(r, n, a).lockedUntil == Some(LockEnd(r, k))
    ensures !ResetBetween(r, a, k, n)
  {
    LockStep(r, a, n - 1);
    if LocksAt(r, n - 1, a) && RowAt(r, n, a).lockedUntil == Some(LockEnd(r, n - 1)) {
      k := n - 1;
    } else {
      k := LockedBySomeLockout(r, a, n - 1);
      NoResetExtends(r, a, k, n - 1);
    }
  }

  /** An account that starts unlocked is locked at a request exactly when the time of an earlier
      lockout is running and no reset has completed since. */
  lemma LockedIff(r: Run, a: AdminId, n: nat)
    requires Guarded(r, a) && n < |r.events| && RowAt(r, 0, a).lockedUntil == None
    ensures LockedAt(RowAt(r, n, a), r.events[n].now)
      <==> exists k: nat ::
        k < n && LocksAt(r, k, a) && r.events[n].now < LockEnd(r, k) && !ResetBetween(r, a, k, n)
  {
    if LockedAt(RowAt(r, n, a), r.events[n].now) {
      var k := LockedBySomeLockout(r, a, n);
    }
    if k: nat :| k < n && LocksAt(r, k, a) && r.events[n].now < LockEnd(r, k) && !ResetBetween(r, a, k, n) {
      LockHoldsThroughout(r, a, k, n);
    }
  }

  /** When no lockout's time is running, the right password opens an active account. */
  lemma UnlockedLoginIff(r: Run, a: AdminId, n: nat)
    requires Guarded(r, a) && n < |r.events| && RowAt(r, 0, a).lockedUntil == None
    requires forall k: nat :: k < n && LocksAt(r, k, a) ==> LockEnd(r, k) <= r.events[n].now
    requires r.events[n].req.Login? && FindByEmail(r.cfg, r.states[n].admins, r.events[n].req.email) == Found(a)
    ensures LogsIn(r.cfg, r.states[n], r.events[n], a)
      <==> VerifyPassword(r.events[n].req.password, RowAt(r, n, a).hash) && RowAt(r, n, a).status.Active?
  {
    AdminsFixed(r, n);
    if RowAt(r, n, a).lockedUntil.Some? {
      var k := LockedBySomeLockout(r, a, n);
    }
    assert Step(r.cfg, r.states[n], r.events[n]) == LoginStep(r.cfg, r.states[n], r.events[n].now, r.events[n].req);
  }

  /** The reply to a wrong password counts down exactly to the lockout. */
  lemma RemainingCountsDown(cfg: Settings, a: AdminId, row: AdminRow, password: string, now: Time,
                            ids: FreshIds, permissions: set<string>)
    requires CounterOk(cfg, row) && !LockedAt(row, now) && !VerifyPassword(password, row.hash)
    ensures var d := LoginDecision(cfg, a, row, password, now, ids, permissions);
      match d.reply
      case Error(InvalidCredentials(Some(left))) =>
        1 <= left < cfg.maxFailedLogins && d.row.failed == cfg.maxFailedLogins - left && d.row.lockedUntil == None
      case Error(AccountLocked) =>
        LockedAt(d.row, now) <==> cfg.lockoutMinutes > 0
      case _ => false
  {
  }
}
