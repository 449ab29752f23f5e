/** The ranking of statements and what holds over many scrapes (internal/topsrv/postgres/statements.go). */
module TopStatements {
  import opened Listings
  import opened Statements
  import opened Options
  import opened Samples

  /** Delta time, calls, blocks read, blocks dirtied and, if the column exists, WAL bytes. */
  function Dimensions(wal: bool): nat {
    if wal then 5 else 4
  }

  function Value(e: Entry, d: nat): real {
    if d == 0 then e.deltaTime
    else if d == 1 then e.deltaCalls as real
    else if d == 2 then e.deltaRead as real
    else if d == 3 then e.deltaDirtied as real
    else e.deltaWal as real
  }

  ghost predicate IsPermutation(s: seq<nat>, n: nat) {
    && |s| == n && (forall k :: 0 <= k < n ==> s[k] < n) && (forall i :: 0 <= i < n ==> i in s)
    && (forall j, k :: 0 <= j < k < n ==> s[j] != s[k])
  }

  ghost predicate Descending(s: seq<nat>, all: seq<Entry>, d: nat, n: nat)
    requires n <= |s| && forall k :: 0 <= k < |s| ==> s[k] < |all|
  {
    forall j, k :: 0 <= j < n && j < k < |s| ==> Value(all[s[j]], d) >= Value(all[s[k]], d)
  }

  /** Any order the sort may produce; ties may fall either way. */
  ghost predicate Ranks(order: seq<nat>, all: seq<Entry>, d: nat) {
    IsPermutation(order, |all|) && Descending(order, all, d, |order|)
  }

  /** The keys of the first `n` ranks with a positive value. */
  ghost function TopKeys(order: seq<nat>, all: seq<Entry>, d: nat, n: nat): set<string> {
    set k | 0 <= k < |order| && k < n && order[k] < |all| && Value(all[order[k]], d) > 0.0 :: all[order[k]].key
  }

  ghost predicate UnionOfTops(keys: set<string>, orders: seq<seq<nat>>, all: seq<Entry>, n: nat) {
    forall key :: key in keys <==> exists d :: 0 <= d < |orders| && key in TopKeys(orders[d], all, d, n)
  }

  ghost predicate Selected(all: seq<Entry>, wal: bool, metrics: set<string>, meta: set<string>, orders: seq<seq<nat>>) {
    && |orders| == Dimensions(wal)
    && (forall d :: 0 <= d < |orders| ==> Ranks(orders[d], all, d))
    && UnionOfTops(metrics, orders, all, TOP_STATEMENTS)
    && UnionOfTops(meta, orders, all, TOP_META)
  }

  /** The two sets come from some ranking of every dimension. */
  ghost predicate Chosen(all: seq<Entry>, wal: bool, metrics: set<string>, meta: set<string>) {
    exists orders: seq<seq<nat>> :: Selected(all, wal, metrics, meta, orders)
  }

  /** One ranking fills both sets: the metrics are among the metadata. */
  lemma MetricsWithinMeta(all: seq<Entry>, wal: bool, metrics: set<string>, meta: set<string>, orders: seq<seq<nat>>)
    requires Selected(all, wal, metrics, meta, orders)
    ensures metrics <= meta
  {
    forall key | key in metrics
      ensures key in meta
    {
      var d :| 0 <= d < |orders| && key in TopKeys(orders[d], all, d, TOP_STATEMENTS);
      assert key in TopKeys(orders[d], all, d, TOP_META);
    }
  }

  /** No dimension contributes more than `n` keys. */
  lemma {:induction false} TopKeysBounded(order: seq<nat>, all: seq<Entry>, d: nat, n: nat)
    ensures |TopKeys(order, all, d, n)| <= n
  {
    if n == 0 {
      assert TopKeys(order, all, d, n) == {};
    } else {
      TopKeysBounded(order, all, d, n - 1);
      var fewer := TopKeys(order, all, d, n - 1);
      if n - 1 < |order| && order[n - 1] < |all| {
        assert TopKeys(order, all, d, n) <= fewer + {all[order[n - 1]].key};
        SubsetSize(TopKeys(order, all, d, n), fewer + {all[order[n - 1]].key});
      } else {
        assert TopKeys(order, all, d, n) == fewer;
      }
    }
  }

  /** Whatever is selected grew in some ranked dimension. */
  lemma SelectedGrew(all: seq<Entry>, wal: bool, metrics: set<string>, meta: set<string>, orders: seq<seq<nat>>,
                     key: string) returns (i: nat, d: nat)
    requires Selected(all, wal, metrics, meta, orders) && key in meta
    ensures i < |all| && d < Dimensions(wal) && all[i].key == key && Value(all[i], d) > 0.0
  {
    d :| 0 <= d < |orders| && key in TopKeys(orders[d], all, d, TOP_META);
    var k :| 0 <= k < |orders[d]| && k < TOP_META && orders[d][k] < |all|
             && Value(all[orders[d][k]], d) > 0.0 && all[orders[d][k]].key == key;
    i := orders[d][k];
  }

  /** Every entry of a ranking has its own statement. */
  ghost predicate DistinctEntries(all: seq<Entry>) {
    forall i, j :: 0 <= i < j < |all| ==> all[i].key != all[j].key
  }

  /** A scan of distinct rows has distinct entries. */
  lemma {:induction false} DistinctRowsDistinctEntries(st: Stats, rows: seq<Option<Row>>)
    requires DistinctKeys(rows)
    ensures DistinctEntries(ScanRows(st, rows).all)
    ensures forall i :: 0 <= i < |ScanRows(st, rows).all| ==> ScanRows(st, rows).all[i].key in ScannedKeys(rows)
  {
    if rows != [] {
      var init, last := rows[..|rows| - 1], rows[|rows| - 1];
      assert rows == init + [last];
      ScannedAppend(init, last);
      DistinctRowsDistinctEntries(st, init);
      if last.Some? {
        DistinctLast(rows);
      }
    }
  }

  /** The statements of the first `n` ranks. */
  lemma {:induction false} LeadingKeys(order: seq<nat>, all: seq<Entry>, n: nat) returns (keys: set<string>)
    requires IsPermutation(order, |all|) && DistinctEntries(all) && n <= |order|
    ensures |keys| == n
    ensures forall key :: key in keys <==> exists k :: 0 <= k < n && all[order[k]].key == key
  {
    if n == 0 {
      keys := {};
    } else {
      var fewer := LeadingKeys(order, all, n - 1);
      assert all[order[n - 1]].key !in fewer;
      keys := fewer + {all[order[n - 1]].key};
    }
  }

  lemma LeaderSelected(order: seq<nat>, all: seq<Entry>, d: nat, r: nat, n: nat)
    requires r < |order| && order[r] < |all| && Value(all[order[r]], d) > 0.0
    ensures r < n ==> all[order[r]].key in TopKeys(order, all, d, n)
  {
  }

  ghost predicate Beats(all: seq<Entry>, d: nat, key: string, i: nat)
    requires i < |all|
  {
    exists j :: 0 <= j < |all| && all[j].key == key && Value(all[j], d) >= Value(all[i], d)
  }

  /**
   * A statement that grew in a dimension and was left out is matched or beaten there by twenty
   * different statements that were selected.
   */
  lemma LeftOutIsBeaten(all: seq<Entry>, wal: bool, metrics: set<string>, meta: set<string>, orders: seq<seq<nat>>,
                        i: nat, d: nat) returns (better: set<string>)
    requires Selected(all, wal, metrics, meta, orders) && DistinctEntries(all)
    requires i < |all| && d < Dimensions(wal) && Value(all[i], d) > 0.0 && all[i].key !in metrics
    ensures |better| == TOP_STATEMENTS && better <= metrics && all[i].key !in better
    ensures forall key :: key in better ==> Beats(all, d, key, i)
  {
    var order := orders[d];
    assert i in order;
    var r :| 0 <= r < |order| && order[r] == i;
    LeaderSelected(order, all, d, r, TOP_STATEMENTS);
    better := LeadingKeys(order, all, TOP_STATEMENTS);
    forall key | key in better
      ensures key in metrics && Beats(all, d, key, i)
    {
      var k :| 0 <= k < TOP_STATEMENTS && all[order[k]].key == key;
      assert Value(all[order[k]], d) >= Value(all[order[r]], d);
      assert key in TopKeys(order, all, d, TOP_STATEMENTS);
    }
  }

  // ----- many scrapes -----

  /** A scrape that reached the rows: those it was given and the keys selected for metrics. */
  datatype Scrape = Scrape(rows: seq<Option<Row>>, metrics: set<string>)

  /**
   * What the query meets: an error before any row, or a result that is handed over up to row `cut`.
   * A scan stops when there is no next row and never asks why there is none, so that a result that
   * breaks off looks like one that ends.
   */
  datatype Answer = QueryError | Rows(result: seq<Option<Row>>, cut: nat)

  function Delivered(answer: Answer): (rows: seq<Option<Row>>)
    requires answer.Rows?
    ensures rows <= answer.result
  {
    if answer.cut < |answer.result| then answer.result[..answer.cut] else answer.result
  }

  /** An attempt to collect: whether the statistics can be read, whether the lock is taken, and the answer. */
  datatype Attempt = Attempt(readable: bool, locked: bool, answer: Answer, metrics: set<string>)

  /** The attempt reaches the rows. */
  predicate Scans(a: Attempt) {
    a.readable && !a.locked && a.answer.Rows?
  }

  const START := Stats(map[], [], 0.0, {})

  /** The debounce: selected now and in the previous completed scrape. */
  function Emitted(st: Stats, scrape: Scrape): set<string> {
    scrape.metrics * st.top
  }

  /** The entries with these keys, in the order they were scanned. */
  function EntriesOf(all: seq<Entry>, keys: set<string>): seq<Entry> {
    if all == [] then []
    else
      var init, last := all[..|all| - 1], all[|all| - 1];
      EntriesOf(init, keys) + if last.key in keys then [last] else []
  }

  function AfterScrape(st: Stats, scrape: Scrape): Stats {
    AfterScan(st, scrape.rows).(top := scrape.metrics)
  }

  function After(scrapes: seq<Scrape>): Stats {
    if scrapes == [] then START else AfterScrape(After(scrapes[..|scrapes| - 1]), scrapes[|scrapes| - 1])
  }

  function AfterAttempt(st: Stats, a: Attempt): Stats {
    if Scans(a) then AfterScrape(st, Scrape(Delivered(a.answer), a.metrics)) else st
  }

  function AfterAttempts(attempts: seq<Attempt>): Stats {
    if attempts == [] then START else AfterAttempt(AfterAttempts(attempts[..|attempts| - 1]), attempts[|attempts| - 1])
  }

  /** The scrapes of a sequence of attempts, each with the rows it was given. */
  function ScrapesOf(attempts: seq<Attempt>): seq<Scrape> {
    if attempts == [] then []
    else
      var init, last := attempts[..|attempts| - 1], attempts[|attempts| - 1];
      ScrapesOf(init) + if Scans(last) then [Scrape(Delivered(last.answer), last.metrics)] else []
  }

  /** What is proved about scrapes holds of attempts, with the rows delivered in place of the result. */
  lemma {:induction false} AttemptsAreScrapes(attempts: seq<Attempt>)
    ensures AfterAttempts(attempts) == After(ScrapesOf(attempts))
  {
    if attempts != [] {
      var init, last := attempts[..|attempts| - 1], attempts[|attempts| - 1];
      AttemptsAreScrapes(init);
      var done := ScrapesOf(attempts);
      if Scans(last) {
        assert done[..|done| - 1] == ScrapesOf(init);
        assert done[|done| - 1] == Scrape(Delivered(last.answer), last.metrics);
      } else {
        assert done == ScrapesOf(init);
      }
    }
  }

  /** The keys were selected from what this scrape scanned. */
  ghost predicate Honest(st: Stats, wal: bool, scrape: Scrape) {
    DistinctKeys(scrape.rows)
    && exists meta, orders :: Selected(ScanRows(st, scrape.rows).all, wal, scrape.metrics, meta, orders)
  }

  ghost predicate HonestRun(wal: bool, scrapes: seq<Scrape>) {
    forall i :: 0 <= i < |scrapes| ==> Honest(After(scrapes[..i]), wal, scrapes[i])
  }

  /** A selected statement was read by this scrape and by the one before. */
  lemma SelectedWasScannedTwice(st: Stats, wal: bool, scrape: Scrape, key: string)
    requires Honest(st, wal, scrape) && key in scrape.metrics
    ensures key in ScannedKeys(scrape.rows) && key in st.prev
  {
    var all := ScanRows(st, scrape.rows).all;
    var meta, orders :| Selected(all, wal, scrape.metrics, meta, orders);
    MetricsWithinMeta(all, wal, scrape.metrics, meta, orders);
    var i, d := SelectedGrew(all, wal, scrape.metrics, meta, orders, key);
    var r := EntriesAreDeltas(st, scrape.rows, all[i]);
    assert scrape.rows[r] in scrape.rows;
  }

  lemma PrevIsPreviousScan(scrapes: seq<Scrape>, i: nat)
    requires 0 < i <= |scrapes|
    ensures After(scrapes[..i]).prev.Keys == ScannedKeys(scrapes[i - 1].rows)
    ensures After(scrapes[..i]).top == scrapes[i - 1].metrics
  {
    assert scrapes[..i][..i - 1] == scrapes[..i - 1];
    ScanLeavesScanned(After(scrapes[..i - 1]), scrapes[i - 1].rows);
  }

  ghost predicate ReadBy(scrapes: seq<Scrape>, i: int, key: string) {
    0 <= i < |scrapes| && key in ScannedKeys(scrapes[i].rows)
  }

  /** A selected statement was read by this scrape and by the one before. */
  lemma SelectedTwice(wal: bool, scrapes: seq<Scrape>, i: nat, key: string)
    requires HonestRun(wal, scrapes) && i < |scrapes| && key in scrapes[i].metrics
    ensures ReadBy(scrapes, i, key) && ReadBy(scrapes, i - 1, key)
  {
    SelectedWasScannedTwice(After(scrapes[..i]), wal, scrapes[i], key);
    if i > 0 {
      PrevIsPreviousScan(scrapes, i);
    }
  }

  /** An emitted statement was selected by this scrape and by the one before. */
  lemma EmittedSelectedTwice(scrapes: seq<Scrape>, i: nat, key: string)
    requires i < |scrapes| && key in Emitted(After(scrapes[..i]), scrapes[i])
    ensures key in scrapes[i].metrics
    ensures i > 0 && key in scrapes[i - 1].metrics
  {
    if i > 0 {
      PrevIsPreviousScan(scrapes, i);
    }
  }

  /**
   * A statement is emitted only if three consecutive scrapes, up to now, read it.  One that a broken
   * result did not deliver is therefore published neither by that scrape nor by the next two.
   */
  lemma EmittedNeedsThreeScans(wal: bool, scrapes: seq<Scrape>, i: nat, key: string)
    requires HonestRun(wal, scrapes) && i < |scrapes|
    requires key in Emitted(After(scrapes[..i]), scrapes[i])
    ensures ReadBy(scrapes, i - 2, key) && ReadBy(scrapes, i - 1, key) && ReadBy(scrapes, i, key)
  {
    EmittedSelectedTwice(scrapes, i, key);
    SelectedTwice(wal, scrapes, i, key);
    SelectedTwice(wal, scrapes, i - 1, key);
  }

  ghost predicate NothingClamped(scrapes: seq<Scrape>) {
    forall i :: 0 <= i < |scrapes| ==> NoneClamped(After(scrapes[..i]).prev, scrapes[i].rows)
  }

  lemma NothingClampedSnoc(scrapes: seq<Scrape>)
    requires scrapes != []
    ensures var init := scrapes[..|scrapes| - 1];
      NothingClamped(scrapes) <==>
      NothingClamped(init) && NoneClamped(After(init).prev, scrapes[|scrapes| - 1].rows)
  {
    var init := scrapes[..|scrapes| - 1];
    forall i | 0 <= i < |init|
      ensures init[i] == scrapes[i] && init[..i] == scrapes[..i]
    {
    }
  }

  /** Over every run the observations sum to at least the recorded sum, and to it if and only if nothing was clamped. */
  lemma {:induction false} HistogramSumOverRuns(scrapes: seq<Scrape>)
    requires forall i :: 0 <= i < |scrapes| ==> DistinctKeys(scrapes[i].rows)
    ensures Sum(After(scrapes).obs) >= After(scrapes).sum
    ensures NothingClamped(scrapes) <==> Sum(After(scrapes).obs) == After(scrapes).sum
  {
    if scrapes != [] {
      var init := scrapes[..|scrapes| - 1];
      HistogramSumOverRuns(init);
      SumNeverBelow(After(init), scrapes[|scrapes| - 1].rows);
      NothingClampedSnoc(scrapes);
    }
  }

  /**
   * A run in which they sum to more: two calls took 20 ms by the total, but a new maximum of 90 ms is
   * placed as an observation of its own.
   */
  lemma SurplusExample() returns (scrapes: seq<Scrape>)
    ensures forall i :: 0 <= i < |scrapes| ==> DistinctKeys(scrapes[i].rows)
    ensures Sum(After(scrapes).obs) > After(scrapes).sum
  {
    var prev, cur := Stmt(10, 100.0, 0, 0, 0, 1.0, 50.0), Stmt(12, 120.0, 0, 0, 0, 1.0, 90.0);
    var first, second := Scrape([Some(Row("q", prev))], {}), Scrape([Some(Row("q", cur))], {});
    scrapes := [first, second];
    assert first.rows[..0] == [] && [first][..0] == [] && scrapes[..1] == [first];
    assert ScanRows(START, first.rows).stats.prev["q"] == prev;
    assert "q" in ScanRows(START, first.rows).seen;
    assert After([first]).prev["q"] == prev;
    assert !NeverClamped(second.rows[0].value, After(scrapes[..1]).prev);
    assert !NoneClamped(After(scrapes[..1]).prev, scrapes[1].rows);
    HistogramSumOverRuns(scrapes);
  }

  // ----- a statement that never leaves -----

  /** What the rows of one key add to the count in one scan. */
  function KeyCalls(prev: map<string, Stmt>, rows: seq<Option<Row>>, key: string): nat {
    if rows == [] then 0
    else KeyCalls(prev, rows[..|rows| - 1], key)
         + match rows[|rows| - 1] {
             case Some(r) => if r.key == key then Contribution(r, prev) else 0
             case None => 0
           }
  }

  lemma {:induction false} NoKeyNoCalls(prev: map<string, Stmt>, rows: seq<Option<Row>>, key: string)
    requires key !in ScannedKeys(rows)
    ensures KeyCalls(prev, rows, key) == 0
  {
    if rows != [] {
      var init, last := rows[..|rows| - 1], rows[|rows| - 1];
      assert rows == init + [last];
      ScannedAppend(init, last);
      NoKeyNoCalls(prev, init, key);
    }
  }

  /** A key's one row decides its contribution and its counters for the next scrape. */
  lemma {:induction false} OneRowPerKey(st: Stats, rows: seq<Option<Row>>, key: string)
    requires DistinctKeys(rows) && key in ScannedKeys(rows)
    ensures key in ScanRows(st, rows).stats.prev
    ensures var cur := ScanRows(st, rows).stats.prev[key];
      KeyCalls(st.prev, rows, key) == Contribution(Row(key, cur), st.prev)
    decreases rows
  {
    var init, last := rows[..|rows| - 1], rows[|rows| - 1];
    assert rows == init + [last];
    ScannedAppend(init, last);
    if last.Some? && last.value.key == key {
      DistinctLast(rows);
      NoKeyNoCalls(st.prev, init, key);
    } else {
      OneRowPerKey(st, init, key);
    }
  }

  function TotalKeyCalls(st: Stats, scrapes: seq<Scrape>, key: string): nat
    decreases scrapes
  {
    if scrapes == [] then 0
    else KeyCalls(st.prev, scrapes[0].rows, key) + TotalKeyCalls(AfterScrape(st, scrapes[0]), scrapes[1..], key)
  }

  function Later(st: Stats, scrapes: seq<Scrape>): Stats
    decreases scrapes
  {
    if scrapes == [] then st else Later(AfterScrape(st, scrapes[0]), scrapes[1..])
  }

  /** Read by every scrape, with calls and total time that never decrease. */
  ghost predicate Steady(st: Stats, scrapes: seq<Scrape>, key: string)
    decreases scrapes
  {
    && key in st.prev
    && (scrapes != [] ==>
          && DistinctKeys(scrapes[0].rows) && key in ScannedKeys(scrapes[0].rows)
          && var next := AfterScrape(st, scrapes[0]);
          && Steady(next, scrapes[1..], key)
          && next.prev[key].calls >= st.prev[key].calls
          && next.prev[key].totalTime >= st.prev[key].totalTime)
  }

  /** Its contributions to the histogram's count telescope to the last calls minus the first. */
  lemma {:induction false} SteadyCallsTelescope(st: Stats, scrapes: seq<Scrape>, key: string)
    requires Steady(st, scrapes, key)
    ensures key in Later(st, scrapes).prev
    ensures TotalKeyCalls(st, scrapes, key) == Later(st, scrapes).prev[key].calls - st.prev[key].calls
    decreases scrapes
  {
    if scrapes != [] {
      OneRowPerKey(st, scrapes[0].rows, key);
      ScanLeavesScanned(st, scrapes[0].rows);
      SteadyCallsTelescope(AfterScrape(st, scrapes[0]), scrapes[1..], key);
    }
  }

  // ----- results that break off -----

  /** The statements an attempt keeps are those it was given; all of the old ones only if these are the same. */
  lemma KeptIff(st: Stats, a: Attempt)
    ensures AfterAttempt(st, a).prev.Keys == if Scans(a) then ScannedKeys(Delivered(a.answer)) else st.prev.Keys
    ensures AfterAttempt(st, a).prev.Keys == st.prev.Keys
            <==> !Scans(a) || ScannedKeys(Delivered(a.answer)) == st.prev.Keys
  {
    if Scans(a) {
      ScanLeavesScanned(st, Delivered(a.answer));
    }
  }

  lemma {:induction false} UnreadableAddNothing(st: Stats, rows: seq<Option<Row>>, rest: seq<Option<Row>>)
    requires ScannedKeys(rest) == {}
    ensures ScanRows(st, rows + rest) == ScanRows(st, rows)
    decreases |rest|
  {
    if rest == [] {
      assert rows + rest == rows;
    } else {
      var init, last := rest[..|rest| - 1], rest[|rest| - 1];
      assert rest == init + [last];
      ScannedAppend(init, last);
      UnreadableAddNothing(st, rows, init);
      assert (rows + rest)[..|rows + rest| - 1] == rows + init;
    }
  }

  lemma DistinctSides(rows: seq<Option<Row>>, cut: nat, key: string)
    requires DistinctKeys(rows) && cut <= |rows| && key in ScannedKeys(rows[cut..])
    ensures key in ScannedKeys(rows) && key !in ScannedKeys(rows[..cut])
  {
    var j :| 0 <= j < |rows[cut..]| && rows[cut..][j].Some? && rows[cut..][j].value.key == key;
    assert rows[cut + j] in rows;
    forall i | 0 <= i < cut && rows[i].Some?
      ensures rows[i].value.key != key
    {
      assert rows[cut + j].value.key == key;
    }
  }

  /** A result that breaks off leaves the state of the whole result if and only if no readable row is missing. */
  lemma BrokenOffHarmlessIff(st: Stats, result: seq<Option<Row>>, cut: nat)
    requires DistinctKeys(result) && cut <= |result|
    ensures AfterScan(st, result[..cut]) == AfterScan(st, result) <==> ScannedKeys(result[cut..]) == {}
  {
    assert result == result[..cut] + result[cut..];
    if ScannedKeys(result[cut..]) == {} {
      UnreadableAddNothing(st, result[..cut], result[cut..]);
    } else {
      var key :| key in ScannedKeys(result[cut..]);
      DistinctSides(result, cut, key);
      ScanLeavesScanned(st, result);
      ScanLeavesScanned(st, result[..cut]);
      assert key in AfterScan(st, result).prev.Keys && key !in AfterScan(st, result[..cut]).prev.Keys;
    }
  }

  /** One that breaks off before its first row forgets every statement and the whole debounce set. */
  lemma BrokenAtOnce(st: Stats, a: Attempt, wal: bool, meta: set<string>)
    requires Scans(a) && a.answer.cut == 0
    requires Chosen(ScanRows(st, Delivered(a.answer)).all, wal, a.metrics, meta)
    ensures AfterAttempt(st, a) == Stats(map[], st.obs, st.sum, {})
  {
    assert Delivered(a.answer) == [];
    var orders :| Selected([], wal, a.metrics, meta, orders);
    assert forall d :: 0 <= d < |orders| ==> TopKeys(orders[d], [], d, TOP_STATEMENTS) == {};
    assert a.metrics == {};
    assert AfterScan(st, []).prev == map[];
  }

  /** A statement unknown when a scan starts contributes no calls to it. */
  lemma {:induction false} UnknownContributesNothing(prev: map<string, Stmt>, rows: seq<Option<Row>>, key: string)
    requires key !in prev
    ensures KeyCalls(prev, rows, key) == 0
  {
    if rows != [] {
      UnknownContributesNothing(prev, rows[..|rows| - 1], key);
    }
  }

  /** A run of one statement around a scrape that was not given it. */
  ghost predicate SteadyAroundBreak(st: Stats, first: seq<Scrape>, broken: Scrape, second: seq<Scrape>, key: string) {
    var lost := AfterScrape(Later(st, first), broken);
    && Steady(st, first, key) && key !in ScannedKeys(broken.rows)
    && second != [] && DistinctKeys(second[0].rows) && key in ScannedKeys(second[0].rows)
    && Steady(AfterScrape(lost, second[0]), second[1..], key)
  }

  lemma {:induction false} TotalOfParts(st: Stats, first: seq<Scrape>, second: seq<Scrape>, key: string)
    ensures Later(st, first + second) == Later(Later(st, first), second)
    ensures TotalKeyCalls(st, first + second, key)
            == TotalKeyCalls(st, first, key) + TotalKeyCalls(Later(st, first), second, key)
    decreases first
  {
    if first == [] {
      assert first + second == second;
    } else {
      assert (first + second)[1..] == first[1..] + second;
      TotalOfParts(AfterScrape(st, first[0]), first[1..], second, key);
    }
  }

  /**
   * A statement otherwise always read loses to one broken scrape exactly the calls made between the
   * last scrape that read it before and the first that reads it again: they never reach the histogram.
   */
  lemma BreakLosesCalls(st: Stats, first: seq<Scrape>, broken: Scrape, second: seq<Scrape>, key: string)
    requires SteadyAroundBreak(st, first, broken, second, key)
    ensures var before := Later(st, first);
      var again := AfterScrape(AfterScrape(before, broken), second[0]);
      var last := Later(st, first + ([broken] + second));
      && key in before.prev && key in again.prev && key in last.prev
      && TotalKeyCalls(st, first + ([broken] + second), key)
         == last.prev[key].calls - st.prev[key].calls - (again.prev[key].calls - before.prev[key].calls)
  {
    var before := Later(st, first);
    var lost := AfterScrape(before, broken);
    var rest := [broken] + second;
    SteadyCallsTelescope(st, first, key);
    ScanLeavesScanned(before, broken.rows);
    NoKeyNoCalls(before.prev, broken.rows, key);
    UnknownContributesNothing(lost.prev, second[0].rows, key);
    SteadyCallsTelescope(AfterScrape(lost, second[0]), second[1..], key);
    TotalOfParts(st, first, rest, key);
    assert rest[1..] == second;
  }

  // ----- an example -----

  ghost predicate NothingGrew(all: seq<Entry>) {
    forall i, d :: 0 <= i < |all| && 0 <= d < 5 ==> Value(all[i], d) <= 0.0
  }

  /** When nothing grew (an idle database, a reset), the selection is empty whatever the ranking. */
  lemma NothingGrewNothingChosen(all: seq<Entry>, wal: bool, metrics: set<string>, meta: set<string>)
    requires NothingGrew(all) && Chosen(all, wal, metrics, meta)
    ensures metrics == meta == {}
  {
    var orders :| Selected(all, wal, metrics, meta, orders);
    MetricsWithinMeta(all, wal, metrics, meta, orders);
    if key :| key in meta {
      var i, d := SelectedGrew(all, wal, metrics, meta, orders, key);
      assert false;
    }
  }

  function CallsSoFar(calls: int): Option<Row> {
    Some(Row("q", Stmt(calls, calls as real, 0, 0, 0, 1.0, 1.0)))
  }

  /** Three attempts of which the second breaks off before its only row; nothing grew in any of them. */
  function BrokenAttempts(): seq<Attempt> {
    [Attempt(true, false, Rows([CallsSoFar(10)], 1), {}), Attempt(true, false, Rows([CallsSoFar(15)], 0), {}),
     Attempt(true, false, Rows([CallsSoFar(20)], 1), {})]
  }

  /** The selection of one entry that did not grow, or of none, is empty under a ranking that exists. */
  lemma EmptySelection(all: seq<Entry>, wal: bool)
    requires |all| <= 1 && NothingGrew(all)
    ensures Chosen(all, wal, {}, {})
  {
    var order: seq<nat> := if all == [] then [] else [0];
    var orders := seq(Dimensions(wal), d => order);
    forall d | 0 <= d < |orders|
      ensures Ranks(orders[d], all, d) && TopKeys(orders[d], all, d, TOP_META) == {}
    {
      assert all != [] ==> order[0] == 0 && Value(all[0], d) <= 0.0;
    }
    forall d | 0 <= d < |orders|
      ensures TopKeys(orders[d], all, d, TOP_STATEMENTS) == {}
    {
      assert TopKeys(orders[d], all, d, TOP_STATEMENTS) <= TopKeys(orders[d], all, d, TOP_META);
    }
    assert Selected(all, wal, {}, {}, orders);
  }

  /** One row scanned on its own. */
  lemma ScanOne(st: Stats, row: Row)
    ensures ScanRows(st, [Some(row)]) == ScanRow(Scan(st, [], {}), Some(row))
    ensures AfterScan(st, [Some(row)]).prev == map[row.key := row.cur]
  {
    assert [Some(row)][..0] == [];
  }

  lemma BrokenStates()
    ensures AfterAttempts(BrokenAttempts()[..1]) == Stats(map["q" := CallsSoFar(10).value.cur], [], 0.0, {})
    ensures AfterAttempts(BrokenAttempts()[..2]) == START
    ensures AfterAttempts(BrokenAttempts()) == Stats(map["q" := CallsSoFar(20).value.cur], [], 0.0, {})
  {
    var a := BrokenAttempts();
    assert a[..1][..0] == [] && a[..2][..1] == a[..1] && a[..3][..2] == a[..2] && a[..3] == a;
    ScanOne(START, CallsSoFar(10).value);
    ScanOne(START, CallsSoFar(20).value);
    assert Delivered(a[1].answer) == [];
    assert AfterScan(AfterAttempts(a[..1]), []).prev == map[];
  }

  /**
   * The ten calls between the first attempt and the third are lost, although both read the statement
   * and the query of the second succeeded.
   */
  lemma BrokenStreamExample(wal: bool)
    ensures var a := BrokenAttempts();
      && (forall i :: 0 <= i < |a| ==>
            Chosen(ScanRows(AfterAttempts(a[..i]), Delivered(a[i].answer)).all, wal, a[i].metrics, {}))
      && AfterAttempts(a[..1]).prev["q"].calls == 10 && AfterAttempts(a[..2]).prev == map[]
      && AfterAttempts(a).prev["q"].calls == 20 && AfterAttempts(a).obs == []
  {
    var a := BrokenAttempts();
    BrokenStates();
    assert a[..0] == [];
    ScanOne(START, CallsSoFar(10).value);
    ScanOne(START, CallsSoFar(20).value);
    forall i | 0 <= i < |a|
      ensures Chosen(ScanRows(AfterAttempts(a[..i]), Delivered(a[i].answer)).all, wal, a[i].metrics, {})
    {
      assert Delivered(a[1].answer) == [];
      EmptySelection(ScanRows(AfterAttempts(a[..i]), Delivered(a[i].answer)).all, wal);
    }
  }
}
