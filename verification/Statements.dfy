/**
 * The statement statistics of internal/topsrv/postgres/statements.go: deltas between scrapes, an
 * outlier-aware histogram, a ranking in several dimensions, and a two-scrape debounce.  Times are
 * exact reals.
 */
module Statements {
  import opened Options
  import opened Samples

  const TOP_STATEMENTS := 20
  const TOP_META := 30
  const MS_TO_SEC: real := 0.001
  const BOUNDS: seq<real> := [0.0001, 0.0005, 0.001, 0.005, 0.01, 0.05, 0.1, 0.5, 1.0, 5.0, 10.0]

  /** The counters of one pg_stat_statements entry that the deltas use; times in milliseconds. */
  datatype Stmt = Stmt(
    calls: int, totalTime: real, blksRead: int, blksDirtied: int, walBytes: int, minTime: real, maxTime: real)

  datatype Row = Row(key: string, cur: Stmt)

  /** A scanned entry with its deltas; all zero when the statement is new. */
  datatype Entry = Entry(
    key: string, cur: Stmt, deltaTime: real, deltaCalls: int, deltaRead: int, deltaDirtied: int, deltaWal: int)

  // ----- observations and their histogram -----

  /** The histogram as it is published. */
  datatype Histogram = Histogram(count: nat, sum: real, buckets: map<real, nat>)

  /** Cumulative buckets over exactly these observations. */
  ghost predicate Represents(buckets: map<real, nat>, obs: seq<real>) {
    forall le :: le in BOUNDS ==> le in buckets && buckets[le] == CountAtMost(obs, le)
  }

  /** Hence the buckets grow with the bound and never exceed the count. */
  lemma BucketsMonotone(buckets: map<real, nat>, obs: seq<real>, le: real, higher: real)
    requires Represents(buckets, obs) && le in BOUNDS && higher in BOUNDS && le <= higher
    ensures buckets[le] <= buckets[higher] <= |obs|
  {
    CountBounds(obs, le, higher);
  }

  function Repeat(x: real, n: nat): seq<real> {
    seq(n, i => x)
  }

  lemma {:induction false} RepeatTotals(x: real, n: nat, le: real)
    ensures CountAtMost(Repeat(x, n), le) == if x <= le then n else 0
    ensures Sum(Repeat(x, n)) == n as real * x
  {
    if n > 0 {
      assert Repeat(x, n)[..n - 1] == Repeat(x, n - 1);
      RepeatTotals(x, n - 1, le);
    }
  }

  predicate NewMax(cur: Stmt, prev: Stmt, calls: int) {
    cur.maxTime > prev.maxTime && calls > 1
  }

  predicate NewMin(cur: Stmt, prev: Stmt, calls: int) {
    0.0 < cur.minTime < prev.minTime && calls > 1
  }

  /** The calls and the milliseconds left after the outliers. */
  function Remaining(cur: Stmt, prev: Stmt, calls: int, time: real): (int, real) {
    var c1 := if NewMax(cur, prev, calls) then calls - 1 else calls;
    var t1 := if NewMax(cur, prev, calls) then time - cur.maxTime else time;
    if NewMin(cur, prev, c1) then (c1 - 1, t1 - cur.minTime) else (c1, t1)
  }

  function Mean(calls: int, time: real): real
    requires calls > 0
  {
    time * MS_TO_SEC / calls as real
  }

  function Clamp(x: real): real {
    if x < 0.0 then 0.0 else x
  }

  /** A new extreme is an observation of its own. */
  function Outliers(cur: Stmt, prev: Stmt, calls: int): seq<real> {
    (if NewMax(cur, prev, calls) then [cur.maxTime * MS_TO_SEC] else [])
    + (if NewMin(cur, prev, if NewMax(cur, prev, calls) then calls - 1 else calls) then [cur.minTime * MS_TO_SEC] else [])
  }

  /** The observations a delta stands for: the outliers, and the rest at the adjusted mean. */
  function Observations(cur: Stmt, prev: Stmt, calls: int, time: real): seq<real>
    requires calls > 0
  {
    var (c, t) := Remaining(cur, prev, calls, time);
    Outliers(cur, prev, calls) + Repeat(Clamp(Mean(c, t)), c)
  }

  lemma PositiveFactor(n: real, m: real)
    requires n > 0.0
    ensures n * m < 0.0 <==> m < 0.0
  {
    if m < 0.0 {
      assert n * (0.0 - m) > 0.0;
    } else {
      assert n * m >= 0.0;
    }
  }

  lemma MeanRestores(calls: int, time: real)
    requires calls > 0
    ensures calls as real * Mean(calls, time) == time * MS_TO_SEC
    ensures Mean(calls, time) < 0.0 <==> time < 0.0
  {
    var n, m := calls as real, Mean(calls, time);
    assert n * m == time * MS_TO_SEC;
    PositiveFactor(n, m);
  }

  /** The calls at the adjusted mean carry the remaining time, or nothing when it is negative. */
  lemma RestAccounts(calls: int, time: real)
    requires calls > 0
    ensures Sum(Repeat(Clamp(Mean(calls, time)), calls)) == if time < 0.0 then 0.0 else time * MS_TO_SEC
  {
    MeanRestores(calls, time);
    RepeatTotals(Clamp(Mean(calls, time)), calls, 0.0);
  }

  lemma SingletonTotals(x: real)
    ensures Sum([x]) == x && Sum([]) == 0.0
  {
    assert [x][..0] == [];
  }

  /**
   * A delta yields exactly as many observations as calls, and their sum is at least the time
   * spent; it is that time if and only if the outliers left a non-negative remainder.
   */
  lemma ObservationsAccount(cur: Stmt, prev: Stmt, calls: int, time: real)
    requires calls > 0
    ensures |Observations(cur, prev, calls, time)| == calls
    ensures Sum(Observations(cur, prev, calls, time)) >= time * MS_TO_SEC
    ensures Sum(Observations(cur, prev, calls, time)) == time * MS_TO_SEC
            <==> Remaining(cur, prev, calls, time).1 >= 0.0
  {
    var (c, t) := Remaining(cur, prev, calls, time);
    var first := if NewMax(cur, prev, calls) then [cur.maxTime * MS_TO_SEC] else [];
    var second := if NewMin(cur, prev, if NewMax(cur, prev, calls) then calls - 1 else calls)
      then [cur.minTime * MS_TO_SEC] else [];
    var rest := Repeat(Clamp(Mean(c, t)), c);
    SingletonTotals(cur.maxTime * MS_TO_SEC);
    SingletonTotals(cur.minTime * MS_TO_SEC);
    ConcatTotals(first + second, rest, 0.0);
    ConcatTotals(first, second, 0.0);
    RestAccounts(c, t);
    assert time * MS_TO_SEC == Sum(first) + Sum(second) + t * MS_TO_SEC;
  }

  // ----- one scan -----

  /** What persists between scrapes; `obs` are the observations fed so far. */
  datatype Stats = Stats(prev: map<string, Stmt>, obs: seq<real>, sum: real, top: set<string>)

  datatype Scan = Scan(stats: Stats, all: seq<Entry>, seen: set<string>)

  function Delta(row: Row, prev: map<string, Stmt>): Entry {
    if row.key in prev
    then
      var p := prev[row.key];
      Entry(row.key, row.cur, row.cur.totalTime - p.totalTime, row.cur.calls - p.calls,
            row.cur.blksRead - p.blksRead, row.cur.blksDirtied - p.blksDirtied, row.cur.walBytes - p.walBytes)
    else Entry(row.key, row.cur, 0.0, 0, 0, 0, 0)
  }

  predicate Feeds(e: Entry) {
    e.deltaCalls > 0 && e.deltaTime >= 0.0
  }

  function Fed(row: Row, prev: map<string, Stmt>): seq<real> {
    var e := Delta(row, prev);
    if row.key in prev && Feeds(e) then Observations(row.cur, prev[row.key], e.deltaCalls, e.deltaTime) else []
  }

  function FedTime(row: Row, prev: map<string, Stmt>): real {
    var e := Delta(row, prev);
    if row.key in prev && Feeds(e) then e.deltaTime * MS_TO_SEC else 0.0
  }

  /** An unreadable row is skipped altogether. */
  function ScanRow(s: Scan, row: Option<Row>): Scan {
    match row
    case None => s
    case Some(r) =>
      var st := s.stats;
      Scan(st.(prev := st.prev[r.key := r.cur], obs := st.obs + Fed(r, st.prev), sum := st.sum + FedTime(r, st.prev)),
           s.all + [Delta(r, st.prev)], s.seen + {r.key})
  }

  function ScanRows(st: Stats, rows: seq<Option<Row>>): Scan {
    if rows == [] then Scan(st, [], {})
    else ScanRow(ScanRows(st, rows[..|rows| - 1]), rows[|rows| - 1])
  }

  /** Statements that were not seen are forgotten. */
  function Forget(prev: map<string, Stmt>, seen: set<string>): map<string, Stmt> {
    map k | k in prev && k in seen :: prev[k]
  }

  function AfterScan(st: Stats, rows: seq<Option<Row>>): Stats {
    var s := ScanRows(st, rows);
    s.stats.(prev := Forget(s.stats.prev, s.seen))
  }

  function ScannedKeys(rows: seq<Option<Row>>): set<string> {
    set r | r in rows && r.Some? :: r.value.key
  }

  /** The query groups by statement and database, so a key occurs once. */
  ghost predicate DistinctKeys(rows: seq<Option<Row>>) {
    forall i, j :: 0 <= i < j < |rows| && rows[i].Some? && rows[j].Some? ==> rows[i].value.key != rows[j].value.key
  }

  lemma ScannedAppend(rows: seq<Option<Row>>, row: Option<Row>)
    ensures ScannedKeys(rows + [row]) == ScannedKeys(rows) + if row.Some? then {row.value.key} else {}
  {
    assert row in rows + [row];
    assert forall r :: r in rows ==> r in rows + [row];
  }

  /** A scan leaves the statements it read, with their latest counters, and no others. */
  lemma {:induction false} ScanLeavesScanned(st: Stats, rows: seq<Option<Row>>)
    ensures ScanRows(st, rows).seen == ScannedKeys(rows)
    ensures ScannedKeys(rows) <= ScanRows(st, rows).stats.prev.Keys
    ensures AfterScan(st, rows).prev.Keys == ScannedKeys(rows)
    ensures ScanRows(st, rows).stats.top == st.top
  {
    if rows != [] {
      var init, row := rows[..|rows| - 1], rows[|rows| - 1];
      assert rows == init + [row];
      ScannedAppend(init, row);
      ScanLeavesScanned(st, init);
    }
  }

  /** While keys are distinct, the rows still to come find the counters of the previous scrape. */
  lemma {:induction false} LaterKeysUntouched(st: Stats, rows: seq<Option<Row>>, key: string)
    requires key !in ScannedKeys(rows)
    ensures key in ScanRows(st, rows).stats.prev <==> key in st.prev
    ensures key in st.prev ==> ScanRows(st, rows).stats.prev[key] == st.prev[key]
  {
    if rows != [] {
      var init, row := rows[..|rows| - 1], rows[|rows| - 1];
      assert rows == init + [row];
      ScannedAppend(init, row);
      LaterKeysUntouched(st, init, key);
    }
  }

  lemma DistinctLast(rows: seq<Option<Row>>)
    requires DistinctKeys(rows) && rows != [] && rows[|rows| - 1].Some?
    ensures rows[|rows| - 1].value.key !in ScannedKeys(rows[..|rows| - 1])
    ensures DistinctKeys(rows[..|rows| - 1])
  {
  }

  /** Every entry of a scan is the delta of one of its rows against the previous scrape. */
  lemma {:induction false} EntriesAreDeltas(st: Stats, rows: seq<Option<Row>>, e: Entry) returns (i: nat)
    requires DistinctKeys(rows) && e in ScanRows(st, rows).all
    ensures i < |rows| && rows[i].Some? && e == Delta(rows[i].value, st.prev)
  {
    var init, row := rows[..|rows| - 1], rows[|rows| - 1];
    if e in ScanRows(st, init).all {
      i := EntriesAreDeltas(st, init, e);
    } else {
      i := |rows| - 1;
      DistinctLast(rows);
      LaterKeysUntouched(st, init, row.value.key);
    }
  }

  // ----- accounting over a scan -----

  /** The calls one row adds to the histogram's count. */
  function Contribution(row: Row, prev: map<string, Stmt>): nat {
    var e := Delta(row, prev);
    if row.key in prev && Feeds(e) then e.deltaCalls else 0
  }

  function ScanCalls(prev: map<string, Stmt>, rows: seq<Option<Row>>): nat {
    if rows == [] then 0
    else ScanCalls(prev, rows[..|rows| - 1])
         + if rows[|rows| - 1].Some? then Contribution(rows[|rows| - 1].value, prev) else 0
  }

  lemma FedAccounts(row: Row, prev: map<string, Stmt>)
    ensures |Fed(row, prev)| == Contribution(row, prev) && Sum(Fed(row, prev)) >= FedTime(row, prev)
    ensures NeverClamped(row, prev) <==> Sum(Fed(row, prev)) == FedTime(row, prev)
  {
    var e := Delta(row, prev);
    if row.key in prev && Feeds(e) {
      ObservationsAccount(row.cur, prev[row.key], e.deltaCalls, e.deltaTime);
    }
  }

  /** The outliers of this row do not exceed its time. */
  predicate NeverClamped(row: Row, prev: map<string, Stmt>) {
    var e := Delta(row, prev);
    row.key in prev && Feeds(e) ==> Remaining(row.cur, prev[row.key], e.deltaCalls, e.deltaTime).1 >= 0.0
  }

  /** The count grows by the sum of the rows' contributions, each against the previous scrape. */
  lemma {:induction false} CountGrowsByContributions(st: Stats, rows: seq<Option<Row>>)
    requires DistinctKeys(rows)
    ensures |ScanRows(st, rows).stats.obs| == |st.obs| + ScanCalls(st.prev, rows)
  {
    if rows != [] {
      var init, row := rows[..|rows| - 1], rows[|rows| - 1];
      CountGrowsByContributions(st, init);
      if row.Some? {
        DistinctLast(rows);
        LaterKeysUntouched(st, init, row.value.key);
        FedAccounts(row.value, ScanRows(st, init).stats.prev);
      }
    }
  }

  /** No row of the scan held a statement whose outliers exceeded its time. */
  ghost predicate NoneClamped(prev: map<string, Stmt>, rows: seq<Option<Row>>) {
    forall i :: 0 <= i < |rows| && rows[i].Some? ==> NeverClamped(rows[i].value, prev)
  }

  lemma NoneClampedSnoc(prev: map<string, Stmt>, rows: seq<Option<Row>>)
    requires rows != []
    ensures var init, row := rows[..|rows| - 1], rows[|rows| - 1];
      NoneClamped(prev, rows) <==> NoneClamped(prev, init) && (row.Some? ==> NeverClamped(row.value, prev))
  {
    var init := rows[..|rows| - 1];
    assert forall i :: 0 <= i < |init| ==> init[i] == rows[i];
  }

  /** The observations never sum to less than the recorded sum; exactly to it when and only when nothing was clamped. */
  lemma {:induction false} SumNeverBelow(st: Stats, rows: seq<Option<Row>>)
    requires DistinctKeys(rows)
    ensures var after := ScanRows(st, rows).stats;
      && Sum(after.obs) - after.sum >= Sum(st.obs) - st.sum
      && (NoneClamped(st.prev, rows) <==> Sum(after.obs) - after.sum == Sum(st.obs) - st.sum)
  {
    if rows != [] {
      var init, row := rows[..|rows| - 1], rows[|rows| - 1];
      SumNeverBelow(st, init);
      NoneClampedSnoc(st.prev, rows);
      if row.Some? {
        var before := ScanRows(st, init).stats;
        DistinctLast(rows);
        LaterKeysUntouched(st, init, row.value.key);
        FedAccounts(row.value, before.prev);
        ConcatTotals(before.obs, Fed(row.value, before.prev), 0.0);
      }
    }
  }
}
