/** The password history over whole runs: which rows the table holds, and which passwords it bars. */
module PasswordHistory {
  import opened Common
  import opened Passwords
  import opened AuthModel

  function Hashes(rows: seq<HistoryRow>): (r: seq<Hash>)
    ensures |r| == |rows| && forall i :: 0 <= i < |rows| ==> r[i] == rows[i].hash
  {
    seq(|rows|, i requires 0 <= i < |rows| => rows[i].hash)
  }

  /** Each row is newer than all before it, and no two share an id. */
  ghost predicate Chronological(rows: seq<HistoryRow>) {
    forall i, j :: 0 <= i < j < |rows| ==> Newer(rows[j], rows[i]) && rows[i].id != rows[j].id
  }

  // ---- Sorting ----

  ghost predicate SortedNewest(rows: seq<HistoryRow>) {
    rows != [] ==> (forall x :: x in rows[1..] ==> !Newer(x, rows[0])) && SortedNewest(rows[1..])
  }

  lemma {:induction false} InsertAdds(x: HistoryRow, rows: seq<HistoryRow>)
    ensures multiset(InsertNewest(x, rows)) == multiset(rows) + multiset{x}
  {
    if rows != [] && !Newer(x, rows[0]) {
      InsertAdds(x, rows[1..]);
      assert rows == [rows[0]] + rows[1..];
    }
  }

  lemma {:induction false} InsertMembers(x: HistoryRow, rows: seq<HistoryRow>, y: HistoryRow)
    ensures y in InsertNewest(x, rows) <==> y == x || y in rows
  {
    if rows != [] && !Newer(x, rows[0]) {
      InsertMembers(x, rows[1..], y);
      assert rows == [rows[0]] + rows[1..];
    }
  }

  lemma {:induction false} InsertSorts(x: HistoryRow, rows: seq<HistoryRow>)
    requires SortedNewest(rows)
    ensures SortedNewest(InsertNewest(x, rows))
  {
    var all := InsertNewest(x, rows);
    if rows == [] || Newer(x, rows[0]) {
      assert all[1..] == rows;
      assert rows != [] ==> rows == [rows[0]] + rows[1..];
    } else {
      InsertSorts(x, rows[1..]);
      assert all[1..] == InsertNewest(x, rows[1..]);
      forall y | y in all[1..] ensures !Newer(y, all[0]) {
        InsertMembers(x, rows[1..], y);
      }
    }
  }

  /** `ORDER BY created_at DESC` lists the rows newest first ... */
  lemma {:induction false} NewestFirstSorts(rows: seq<HistoryRow>)
    ensures SortedNewest(NewestFirst(rows))
  {
    if rows != [] {
      NewestFirstSorts(rows[..|rows| - 1]);
      InsertSorts(rows[|rows| - 1], NewestFirst(rows[..|rows| - 1]));
    }
  }

  /** ... and lists all of them. */
  lemma {:induction false} NewestFirstPermutes(rows: seq<HistoryRow>)
    ensures multiset(NewestFirst(rows)) == multiset(rows)
  {
    if rows != [] {
      NewestFirstPermutes(rows[..|rows| - 1]);
      InsertAdds(rows[|rows| - 1], NewestFirst(rows[..|rows| - 1]));
      assert rows == rows[..|rows| - 1] + [rows[|rows| - 1]];
    }
  }

  lemma {:induction false} SortedDescends(rows: seq<HistoryRow>, i: nat, j: nat)
    requires SortedNewest(rows) && i <= j < |rows|
    ensures rows[i].createdAt >= rows[j].createdAt
  {
    if i < j {
      if i == 0 {
        assert rows[j] in rows[1..];
      } else {
        SortedDescends(rows[1..], i - 1, j - 1);
      }
    }
  }

  /** The listing takes as many rows of the admin as the limit allows, with descending times, and no row
      it leaves out is later than one it takes. */
  lemma RecentAreNewest(rows: seq<HistoryRow>, a: AdminId, limit: nat)
    ensures var all, recent := NewestFirst(HistoryOf(rows, a)), RecentFor(rows, a, limit);
      && recent <= all && |recent| == (if limit < |all| then limit else |all|)
      && (forall i, j :: 0 <= i < j < |recent| ==> recent[i].createdAt >= recent[j].createdAt)
      && (forall i, j :: 0 <= i < |recent| <= j < |all| ==> recent[i].createdAt >= all[j].createdAt)
  {
    var all := NewestFirst(HistoryOf(rows, a));
    NewestFirstSorts(HistoryOf(rows, a));
    forall i: nat, j: nat | i < j < |all| ensures all[i].createdAt >= all[j].createdAt {
      SortedDescends(all, i, j);
    }
  }

  /** Rows with strictly ascending times and ids of their own are in chronological order. */
  lemma AscendingIsChronological(rows: seq<HistoryRow>)
    requires forall i, j :: 0 <= i < j < |rows| ==> rows[i].createdAt < rows[j].createdAt && rows[i].id != rows[j].id
    ensures Chronological(rows)
  {
  }

  // ---- One trim ----

  /** Sorting rows that are already in chronological order reverses them. */
  lemma {:induction false} NewestFirstReverses(rows: seq<HistoryRow>)
    requires Chronological(rows)
    ensures NewestFirst(rows) == Reverse(rows)
  {
    if rows != [] {
      var init, last := rows[..|rows| - 1], rows[|rows| - 1];
      NewestFirstReverses(init);
      assert NewestFirst(rows) == InsertNewest(last, Reverse(init));
      assert [last] + Reverse(init) == Reverse(rows);
    }
  }

  function KeepIds(rows: seq<HistoryRow>, keep: set<nat>): seq<HistoryRow> {
    if rows == [] then []
    else
      var earlier, last := KeepIds(rows[..|rows| - 1], keep), rows[|rows| - 1];
      if last.id in keep then earlier + [last] else earlier
  }

  lemma HistoryOfSnoc(rows: seq<HistoryRow>, last: HistoryRow, a: AdminId)
    ensures HistoryOf(rows + [last], a)
         == if last.admin == a then HistoryOf(rows, a) + [last] else HistoryOf(rows, a)
  {
    assert (rows + [last])[..|rows|] == rows;
  }

  lemma KeepIdsSnoc(rows: seq<HistoryRow>, last: HistoryRow, keep: set<nat>)
    ensures KeepIds(rows + [last], keep)
         == if last.id in keep then KeepIds(rows, keep) + [last] else KeepIds(rows, keep)
  {
    assert (rows + [last])[..|rows|] == rows;
  }

  lemma {:induction false} DropOthersOfAdmin(rows: seq<HistoryRow>, a: AdminId, keep: set<nat>)
    ensures HistoryOf(DropOthers(rows, a, keep), a) == KeepIds(HistoryOf(rows, a), keep)
  {
    if rows != [] {
      var init, last := rows[..|rows| - 1], rows[|rows| - 1];
      DropOthersOfAdmin(init, a, keep);
      HistoryOfSnoc(DropOthers(init, a, keep), last, a);
      KeepIdsSnoc(HistoryOf(init, a), last, keep);
    }
  }

  lemma {:induction false} DropOthersOfOther(rows: seq<HistoryRow>, a: AdminId, b: AdminId, keep: set<nat>)
    requires a != b
    ensures HistoryOf(DropOthers(rows, a, keep), b) == HistoryOf(rows, b)
  {
    if rows != [] {
      var init, last := rows[..|rows| - 1], rows[|rows| - 1];
      DropOthersOfOther(init, a, b, keep);
      HistoryOfSnoc(DropOthers(init, a, keep), last, b);
    }
  }

  lemma KeptIds(rows: seq<HistoryRow>, n: nat, i: nat)
    requires Chronological(rows) && n <= |rows| && i < |rows|
    ensures rows[i].id in Ids(rows[n..]) <==> n <= i
  {
    if n <= i {
      assert rows[i] == rows[n..][i - n];
    } else {
      forall h | h in rows[n..] ensures h.id != rows[i].id {
        var j :| 0 <= j < |rows| - n && rows[n..][j] == h;
        assert h == rows[n + j];
      }
    }
  }

  lemma {:induction false} KeepTail(rows: seq<HistoryRow>, n: nat, m: nat)
    requires Chronological(rows) && n <= m <= |rows|
    ensures KeepIds(rows[..m], Ids(rows[n..])) == rows[n..m]
  {
    if m > n {
      KeepTail(rows, n, m - 1);
      KeptIds(rows, n, m - 1);
      assert rows[..m] == rows[..m - 1] + [rows[m - 1]];
      KeepIdsSnoc(rows[..m - 1], rows[m - 1], Ids(rows[n..]));
      assert rows[n..m] == rows[n..m - 1] + [rows[m - 1]];
    } else {
      DropHead(rows, n, m);
    }
  }

  lemma {:induction false} DropHead(rows: seq<HistoryRow>, n: nat, m: nat)
    requires Chronological(rows) && m <= n <= |rows|
    ensures KeepIds(rows[..m], Ids(rows[n..])) == []
  {
    if m > 0 {
      DropHead(rows, n, m - 1);
      KeptIds(rows, n, m - 1);
      assert rows[..m] == rows[..m - 1] + [rows[m - 1]];
      KeepIdsSnoc(rows[..m - 1], rows[m - 1], Ids(rows[n..]));
    }
  }

  lemma KeepNewest(rows: seq<HistoryRow>, n: nat)
    requires Chronological(rows) && n <= |rows|
    ensures KeepIds(rows, Ids(rows[n..])) == rows[n..]
    ensures n < |rows| ==> Ids(rows[n..]) != {}
  {
    KeepTail(rows, n, |rows|);
    assert rows[..|rows|] == rows;
    if n < |rows| {
      assert rows[n] in rows[n..] && rows[n].id in Ids(rows[n..]);
    }
  }

  lemma {:induction false} ReverseMembers(rows: seq<HistoryRow>, x: HistoryRow)
    ensures x in Reverse(rows) <==> x in rows
  {
    if rows != [] {
      ReverseMembers(rows[1..], x);
      assert rows == [rows[0]] + rows[1..];
    }
  }

  lemma {:induction false} ReverseConcat(s: seq<HistoryRow>, t: seq<HistoryRow>)
    ensures Reverse(s + t) == Reverse(t) + Reverse(s)
  {
    if s == [] {
      assert s + t == t;
    } else {
      assert (s + t)[1..] == s[1..] + t;
      ReverseConcat(s[1..], t);
    }
  }

  lemma ReverseTake(rows: seq<HistoryRow>, n: nat)
    requires n <= |rows|
    ensures Reverse(rows)[..n] == Reverse(rows[|rows| - n..])
  {
    var k := |rows| - n;
    ReverseConcat(rows[..k], rows[k..]);
    assert rows == rows[..k] + rows[k..];
  }

  lemma IdsOfReverse(rows: seq<HistoryRow>)
    ensures Ids(Reverse(rows)) == Ids(rows)
  {
    forall x: HistoryRow ensures x in Reverse(rows) <==> x in rows {
      ReverseMembers(rows, x);
    }
  }

  lemma TrimToIds(rows: seq<HistoryRow>, a: AdminId, keep: nat, ids: set<nat>)
    requires ids == Ids(RecentFor(rows, a, keep))
    ensures Trim(rows, a, keep) == if ids == {} then rows else DropOthers(rows, a, ids)
  {
  }

  lemma NewestTaken(h: seq<HistoryRow>, sorted: seq<HistoryRow>, keep: nat)
    requires sorted == Reverse(h)
    ensures (if |sorted| <= keep then sorted else sorted[..keep]) == Reverse(LastN(h, keep))
  {
    if |h| > keep {
      ReverseTake(h, keep);
    }
  }

  /** The most recent rows are the last ones ... */
  lemma RecentAreLast(rows: seq<HistoryRow>, a: AdminId, keep: nat)
    requires Chronological(HistoryOf(rows, a))
    ensures RecentFor(rows, a, keep) == Reverse(LastN(HistoryOf(rows, a), keep))
  {
    NewestFirstReverses(HistoryOf(rows, a));
    NewestTaken(HistoryOf(rows, a), NewestFirst(HistoryOf(rows, a)), keep);
  }

  /** ... and the ids that `trim` keeps are theirs. */
  lemma RecentIds(rows: seq<HistoryRow>, a: AdminId, keep: nat)
    requires Chronological(HistoryOf(rows, a))
    ensures Ids(RecentFor(rows, a, keep)) == Ids(LastN(HistoryOf(rows, a), keep))
  {
    RecentAreLast(rows, a, keep);
    IdsOfReverse(LastN(HistoryOf(rows, a), keep));
  }

  lemma KeepLast(h: seq<HistoryRow>, keep: nat)
    requires Chronological(h) && keep >= 1
    ensures KeepIds(h, Ids(LastN(h, keep))) == LastN(h, keep)
    ensures Ids(LastN(h, keep)) == {} ==> LastN(h, keep) == h
  {
    KeepNewest(h, if |h| <= keep then 0 else |h| - keep);
  }

  /** Trimming chronological rows leaves exactly the last `keep` of them, in their order. */
  lemma TrimKeepsLast(rows: seq<HistoryRow>, a: AdminId, keep: nat)
    requires Chronological(HistoryOf(rows, a)) && keep >= 1
    ensures HistoryOf(Trim(rows, a, keep), a) == LastN(HistoryOf(rows, a), keep)
  {
    var ids := Ids(LastN(HistoryOf(rows, a), keep));
    RecentIds(rows, a, keep);
    TrimToIds(rows, a, keep, ids);
    DropOthersOfAdmin(rows, a, ids);
    KeepLast(HistoryOf(rows, a), keep);
  }

  /** With depth 0 trimming keeps everything. */
  lemma TrimToNothingKeepsAll(rows: seq<HistoryRow>, a: AdminId)
    ensures Trim(rows, a, 0) == rows
  {
    assert RecentFor(rows, a, 0) == [];
    TrimToIds(rows, a, 0, {});
  }

  /** Trimming never touches the rows of another admin. */
  lemma TrimFrame(rows: seq<HistoryRow>, a: AdminId, b: AdminId, keep: nat)
    requires a != b
    ensures HistoryOf(Trim(rows, a, keep), b) == HistoryOf(rows, b)
  {
    DropOthersOfOther(rows, a, b, Ids(RecentFor(rows, a, keep)));
  }

  lemma TrimMeans(rows: seq<HistoryRow>, a: AdminId, keep: nat)
    ensures forall b :: b != a ==> HistoryOf(Trim(rows, a, keep), b) == HistoryOf(rows, b)
    ensures keep >= 1 && Chronological(HistoryOf(rows, a)) ==>
      HistoryOf(Trim(rows, a, keep), a) == LastN(HistoryOf(rows, a), keep)
  {
    forall b | b != a ensures HistoryOf(Trim(rows, a, keep), b) == HistoryOf(rows, b) {
      TrimFrame(rows, a, b, keep);
    }
    if keep >= 1 && Chronological(HistoryOf(rows, a)) {
      TrimKeepsLast(rows, a, keep);
    }
  }

  // ---- One request ----

  lemma ResetHistoryStep(cfg: Settings, st: AuthState, e: Event, a: AdminId)
    requires a in st.admins && Resets(cfg, st, e, a)
    ensures Step(cfg, st, e).state.history
         == Trim(st.history + [HistoryRow(e.req.rowId, a, st.admins[a].hash, e.now)], a, cfg.historyDepth)
  {
    assert Step(cfg, st, e) == UpdatePasswordStep(cfg, st, e.now, e.req);
  }

  lemma OtherHistoryStep(cfg: Settings, st: AuthState, e: Event, a: AdminId)
    requires !Resets(cfg, st, e, a)
    ensures HistoryOf(Step(cfg, st, e).state.history, a) == HistoryOf(st.history, a)
  {
    if e.req.UpdatePassword? {
      assert Step(cfg, st, e) == UpdatePasswordStep(cfg, st, e.now, e.req);
      var check := ResetCheck(cfg, st, e.req.email, e.req.newPassword, e.now);
      if check.Allowed? {
        ResetHistoryStep(cfg, st, e, check.admin);
        var row := HistoryRow(e.req.rowId, check.admin, st.admins[check.admin].hash, e.now);
        HistoryOfSnoc(st.history, row, a);
        TrimFrame(st.history + [row], check.admin, a, cfg.historyDepth);
      }
    }
  }

  // ---- Runs ----

  ghost predicate ResetAt(r: Run, k: nat, a: AdminId)
    requires r.Valid() && k < |r.events|
  {
    Resets(r.cfg, r.states[k], r.events[k], a)
  }

  /** The rows that completed resets of `a` have added, oldest first. */
  ghost function Added(r: Run, a: AdminId, n: nat): seq<HistoryRow>
    requires r.Valid() && a in r.states[0].admins && n <= |r.events|
  {
    if n == 0 then []
    else if ResetAt(r, n - 1, a) then
      Added(r, a, n - 1)
        + [HistoryRow(r.events[n - 1].req.rowId, a, RowAt(r, n - 1, a).hash, r.events[n - 1].now)]
    else Added(r, a, n - 1)
  }

  /** The passwords they replaced. */
  ghost function Replaced(r: Run, a: AdminId, n: nat): seq<Hash>
    requires r.Valid() && a in r.states[0].admins && n <= |r.events|
  {
    Hashes(Added(r, a, n))
  }

  /** All passwords of `a` so far, the current one last. */
  ghost function PasswordsOf(r: Run, a: AdminId, n: nat): seq<Hash>
    requires r.Valid() && a in r.states[0].admins && n <= |r.events|
  {
    Replaced(r, a, n) + [RowAt(r, n, a).hash]
  }

  /** Starts without history for `a`; `created_at` grows from reset to reset and row ids are fresh. */
  ghost predicate StrictHistory(r: Run, a: AdminId) {
    && r.Valid() && a in r.states[0].admins && r.cfg.historyDepth >= 1
    && HistoryOf(r.states[0].history, a) == []
    && Chronological(Added(r, a, |r.events|))
  }

  lemma {:induction false} AddedGrows(r: Run, a: AdminId, n: nat, m: nat)
    requires r.Valid() && a in r.states[0].admins && n <= m <= |r.events|
    ensures Added(r, a, n) <= Added(r, a, m)
  {
    if n < m {
      AddedGrows(r, a, n, m - 1);
    }
  }

  lemma TailIsChronological(r: Run, a: AdminId, n: nat)
    requires StrictHistory(r, a) && n <= |r.events|
    ensures Chronological(Added(r, a, n)) && Chronological(LastN(Added(r, a, n), r.cfg.historyDepth))
  {
    AddedGrows(r, a, n, |r.events|);
  }

  lemma ChronologicalSnoc(rows: seq<HistoryRow>, x: HistoryRow, n: nat)
    requires Chronological(rows + [x])
    ensures Chronological(LastN(rows, n) + [x])
  {
    var all, tail := rows + [x], LastN(rows, n) + [x];
    var d := |all| - |tail|;
    forall i, j | 0 <= i < j < |tail| ensures Newer(tail[j], tail[i]) && tail[i].id != tail[j].id {
      assert tail[i] == all[i + d] && tail[j] == all[j + d];
    }
  }

  lemma LastNSnoc<T>(s: seq<T>, x: T, n: nat)
    requires n >= 1
    ensures LastN(LastN(s, n) + [x], n) == LastN(s + [x], n)
  {
  }

  /** The rows of `a` are at every moment the last `depth` rows its resets have added. */
  lemma {:induction false} TableIsLastAdded(r: Run, a: AdminId, n: nat)
    requires StrictHistory(r, a) && n <= |r.events|
    ensures HistoryOf(r.states[n].history, a) == LastN(Added(r, a, n), r.cfg.historyDepth)
  {
    if n > 0 {
      TableIsLastAdded(r, a, n - 1);
      AdminsFixed(r, n - 1);
      assert r.StepAt(n - 1);
      if ResetAt(r, n - 1, a) {
        var before := r.states[n - 1].history;
        var row := Added(r, a, n)[|Added(r, a, n)| - 1];
        ResetHistoryStep(r.cfg, r.states[n - 1], r.events[n - 1], a);
        HistoryOfSnoc(before, row, a);
        TailIsChronological(r, a, n);
        ChronologicalSnoc(Added(r, a, n - 1), row, r.cfg.historyDepth);
        TrimKeepsLast(before + [row], a, r.cfg.historyDepth);
        LastNSnoc(Added(r, a, n - 1), row, r.cfg.historyDepth);
      } else {
        OtherHistoryStep(r.cfg, r.states[n - 1], r.events[n - 1], a);
      }
    }
  }

  lemma HashesOfLastN(rows: seq<HistoryRow>, n: nat)
    ensures Hashes(LastN(rows, n)) == LastN(Hashes(rows), n)
  {
  }

  lemma HashesOfReverse(rows: seq<HistoryRow>)
    ensures Hashes(Reverse(rows)) == Reverse(Hashes(rows))
  {
  }

  /** The table holds exactly the last `depth` replaced passwords, and lists them newest first. */
  lemma TableIsLastReplaced(r: Run, a: AdminId, n: nat)
    requires StrictHistory(r, a) && n <= |r.events|
    ensures var kept := LastN(Replaced(r, a, n), r.cfg.historyDepth);
      && Hashes(HistoryOf(r.states[n].history, a)) == kept
      && Hashes(RecentFor(r.states[n].history, a, r.cfg.historyDepth)) == Reverse(kept)
  {
    TableIsLastAdded(r, a, n);
    AddedGrows(r, a, n, |r.events|);
    TailIsChronological(r, a, n);
    RecentAreLast(r.states[n].history, a, r.cfg.historyDepth);
    HashesOfLastN(Added(r, a, n), r.cfg.historyDepth);
    HashesOfReverse(HistoryOf(r.states[n].history, a));
  }

  /** Any `run` consecutive elements are pairwise distinct. */
  ghost predicate DistinctNearby(s: seq<Hash>, run: nat) {
    forall i, j :: 0 <= i < j < |s| && j - i < run ==> s[i] != s[j]
  }

  lemma DistinctNearbySnoc(s: seq<Hash>, x: Hash, run: nat)
    requires DistinctNearby(s, run)
    requires forall i :: 0 <= i < |s| && |s| - i < run ==> s[i] != x
    ensures DistinctNearby(s + [x], run)
  {
  }

  lemma NearbyStep(r: Run, a: AdminId, k: nat)
    requires StrictHistory(r, a) && k < |r.events|
    requires DistinctNearby(PasswordsOf(r, a, k), r.cfg.historyDepth + 2)
    ensures DistinctNearby(PasswordsOf(r, a, k + 1), r.cfg.historyDepth + 2)
  {
    PasswordsStep(r, a, k);
    if ResetAt(r, k, a) {
      NewPasswordIsNew(r, a, k);
      DistinctNearbySnoc(PasswordsOf(r, a, k), HashPassword(r.events[k].req.newPassword), r.cfg.historyDepth + 2);
    }
  }

  /** Any depth + 2 consecutive passwords of an admin are pairwise distinct. */
  lemma {:induction false} NearbyPasswordsDiffer(r: Run, a: AdminId, n: nat)
    requires StrictHistory(r, a) && n <= |r.events|
    ensures DistinctNearby(PasswordsOf(r, a, n), r.cfg.historyDepth + 2)
  {
    if n > 0 {
      NearbyPasswordsDiffer(r, a, n - 1);
      NearbyStep(r, a, n - 1);
    }
  }

  lemma PasswordsStep(r: Run, a: AdminId, k: nat)
    requires r.Valid() && a in r.states[0].admins && k < |r.events|
    ensures PasswordsOf(r, a, k + 1) ==
      if ResetAt(r, k, a) then PasswordsOf(r, a, k) + [HashPassword(r.events[k].req.newPassword)]
      else PasswordsOf(r, a, k)
  {
    RowAtNext(r, k, a);
  }

  /** A completed reset sets none of the last depth + 1 passwords. */
  lemma NewPasswordIsNew(r: Run, a: AdminId, k: nat)
    requires StrictHistory(r, a) && k < |r.events| && ResetAt(r, k, a)
    ensures var all := PasswordsOf(r, a, k);
      forall i :: 0 <= i < |all| && |all| - i < r.cfg.historyDepth + 2 ==>
        all[i] != HashPassword(r.events[k].req.newPassword)
  {
    var all, latest := PasswordsOf(r, a, k), HashPassword(r.events[k].req.newPassword);
    forall i | 0 <= i < |all| && |all| - i < r.cfg.historyDepth + 2 ensures all[i] != latest {
      BarredPassword(r, a, k, i);
    }
  }

  lemma BarredPassword(r: Run, a: AdminId, k: nat, i: nat)
    requires StrictHistory(r, a) && k < |r.events| && ResetAt(r, k, a)
    requires i < |PasswordsOf(r, a, k)| < i + r.cfg.historyDepth + 2
    ensures PasswordsOf(r, a, k)[i] != HashPassword(r.events[k].req.newPassword)
  {
    AdminsFixed(r, k);
    if i < |Replaced(r, a, k)| {
      TableIsLastReplaced(r, a, k);
      var recent := RecentFor(r.states[k].history, a, r.cfg.historyDepth);
      var h := ListedAmong(Replaced(r, a, k), recent, r.cfg.historyDepth, i);
      if h.hash == HashPassword(r.events[k].req.newPassword) {
        BarredByHistory(r.cfg, r.states[k], a, r.events[k].req.newPassword, h);
      }
    }
  }

  lemma ListedAmong(all: seq<Hash>, recent: seq<HistoryRow>, depth: nat, i: nat) returns (h: HistoryRow)
    requires Hashes(recent) == Reverse(LastN(all, depth)) && i < |all| <= i + depth
    ensures h in recent && h.hash == all[i]
  {
    var kept, at := LastN(all, depth), |all| - 1 - i;
    assert kept[|kept| - 1 - at] == all[i];
    h := recent[at];
    assert h.hash == Hashes(recent)[at];
  }

  lemma BarredByHistory(cfg: Settings, st: AuthState, a: AdminId, newPassword: string, h: HistoryRow)
    requires a in st.admins && h in RecentFor(st.history, a, cfg.historyDepth)
    requires h.hash == HashPassword(newPassword)
    ensures Reused(cfg, st, a, newPassword)
  {
  }
}
