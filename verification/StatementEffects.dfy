/** What a scrape ranks, publishes and feeds, in the numbers of the statements themselves. */
module StatementEffects {
  import opened Listings
  import opened Statements
  import opened TopStatements
  import opened Options
  import opened Samples

  ghost predicate Increasing(at: seq<nat>, n: nat) {
    (forall j, k :: 0 <= j < k < |at| ==> at[j] < at[k]) && (forall k :: 0 <= k < |at| ==> at[k] < n)
  }

  // ----- the entries of a scan -----

  /** The counters of the row, and what they grew by since the previous scrape; nothing for a new statement. */
  ghost predicate Grown(e: Entry, row: Row, prev: map<string, Stmt>) {
    && e.key == row.key && e.cur == row.cur
    && (row.key in prev ==>
          var p := prev[row.key];
          && e.deltaTime == row.cur.totalTime - p.totalTime && e.deltaCalls == row.cur.calls - p.calls
          && e.deltaRead == row.cur.blksRead - p.blksRead && e.deltaDirtied == row.cur.blksDirtied - p.blksDirtied
          && e.deltaWal == row.cur.walBytes - p.walBytes)
    && (row.key !in prev ==>
          e.deltaTime == 0.0 && e.deltaCalls == e.deltaRead == e.deltaDirtied == e.deltaWal == 0)
  }

  /** One entry for each readable row, in the order of the rows. */
  ghost predicate Entered(all: seq<Entry>, rows: seq<Option<Row>>, prev: map<string, Stmt>, at: seq<nat>) {
    && |at| == |all| && Increasing(at, |rows|)
    && (forall k :: 0 <= k < |at| ==> rows[at[k]].Some? && Grown(all[k], rows[at[k]].value, prev))
    && (forall i :: 0 <= i < |rows| && rows[i].Some? ==> i in at)
  }

  lemma EnteredNext(all: seq<Entry>, rows: seq<Option<Row>>, prev: map<string, Stmt>, at: seq<nat>, e: Entry, row: Row)
    requires Entered(all, rows, prev, at) && Grown(e, row, prev)
    ensures Entered(all + [e], rows + [Some(row)], prev, at + [|rows|])
  {
    var more := at + [|rows|];
    forall i | 0 <= i < |rows + [Some(row)]| && (rows + [Some(row)])[i].Some?
      ensures i in more
    {
      if i == |rows| {
        assert more[|at|] == i;
      } else {
        assert rows[i].Some?;
      }
    }
  }

  lemma EnteredSkip(all: seq<Entry>, rows: seq<Option<Row>>, prev: map<string, Stmt>, at: seq<nat>)
    requires Entered(all, rows, prev, at)
    ensures Entered(all, rows + [None], prev, at)
  {
  }

  lemma {:induction false} EntriesFollowRows(st: Stats, rows: seq<Option<Row>>) returns (at: seq<nat>)
    requires DistinctKeys(rows)
    ensures Entered(ScanRows(st, rows).all, rows, st.prev, at)
  {
    if rows == [] {
      at := [];
    } else {
      var init, row := rows[..|rows| - 1], rows[|rows| - 1];
      assert rows == init + [row];
      at := EntriesFollowRows(st, init);
      var before := ScanRows(st, init);
      match row
      case None => EnteredSkip(before.all, init, st.prev, at);
      case Some(r) =>
        DistinctLast(rows);
        LaterKeysUntouched(st, init, r.key);
        EnteredNext(before.all, init, st.prev, at, Delta(r, before.stats.prev), r);
        at := at + [|init|];
    }
  }

  // ----- what is published -----

  /** The entries that are in both sets, at these positions and in this order. */
  ghost predicate Picked(all: seq<Entry>, picked: seq<Entry>, now: set<string>, before: set<string>, at: seq<nat>) {
    && |at| == |picked| && Increasing(at, |all|)
    && (forall k :: 0 <= k < |at| ==> picked[k] == all[at[k]])
    && (forall i :: 0 <= i < |all| ==> (i in at <==> all[i].key in now && all[i].key in before))
  }

  lemma PickedNext(all: seq<Entry>, picked: seq<Entry>, now: set<string>, before: set<string>, at: seq<nat>, e: Entry)
    requires Picked(all, picked, now, before, at) && e.key in now && e.key in before
    ensures Picked(all + [e], picked + [e], now, before, at + [|all|])
  {
    var more := at + [|all|];
    assert more[|at|] == |all|;
    forall i | 0 <= i < |all + [e]|
      ensures i in more <==> (all + [e])[i].key in now && (all + [e])[i].key in before
    {
      assert i < |all| ==> (i in more <==> i in at);
    }
  }

  lemma PickedSkip(all: seq<Entry>, picked: seq<Entry>, now: set<string>, before: set<string>, at: seq<nat>, e: Entry)
    requires Picked(all, picked, now, before, at) && !(e.key in now && e.key in before)
    ensures Picked(all + [e], picked, now, before, at)
  {
  }

  lemma {:induction false} EntriesPicked(all: seq<Entry>, now: set<string>, before: set<string>)
    returns (at: seq<nat>)
    ensures Picked(all, EntriesOf(all, now * before), now, before, at)
  {
    if all == [] {
      at := [];
    } else {
      var init, last := all[..|all| - 1], all[|all| - 1];
      assert all == init + [last];
      at := EntriesPicked(init, now, before);
      var picked := EntriesOf(init, now * before);
      if last.key in now * before {
        PickedNext(init, picked, now, before, at, last);
        at := at + [|init|];
      } else {
        PickedSkip(init, picked, now, before, at, last);
        assert picked + [] == picked;
      }
    }
  }

  /** Published is what is scanned, selected now and selected before; nothing else, and in the order scanned. */
  ghost predicate Publishes(all: seq<Entry>, emitted: seq<Entry>, now: set<string>, before: set<string>) {
    && (forall e :: e in emitted <==> e in all && e.key in now && e.key in before)
    && exists at: seq<nat> :: Picked(all, emitted, now, before, at)
  }

  lemma PickedPublishes(all: seq<Entry>, now: set<string>, before: set<string>)
    ensures Publishes(all, EntriesOf(all, now * before), now, before)
  {
    var at := EntriesPicked(all, now, before);
    var emitted := EntriesOf(all, now * before);
    forall k | 0 <= k < |emitted|
      ensures emitted[k] in all && emitted[k].key in now && emitted[k].key in before
    {
      assert at[k] in at;
    }
    forall i | 0 <= i < |all| && all[i].key in now && all[i].key in before
      ensures all[i] in emitted
    {
      assert i in at;
      var k :| 0 <= k < |at| && at[k] == i;
      assert emitted[k] == all[i];
    }
  }

  /** A statement selected by two consecutive scrapes is published by the second. */
  lemma SelectedTwiceIsEmitted(scrapes: seq<Scrape>, i: nat, key: string)
    requires 0 < i < |scrapes| && key in scrapes[i - 1].metrics && key in scrapes[i].metrics
    ensures key in Emitted(After(scrapes[..i]), scrapes[i])
  {
    PrevIsPreviousScan(scrapes, i);
  }

  // ----- who is ranked -----

  /** The other entries that grew at least as much by this measure. */
  ghost function Rivals(all: seq<Entry>, i: nat, measure: Entry -> real): set<nat>
    requires i < |all|
  {
    set j: nat | j < |all| && j != i && measure(all[j]) >= measure(all[i])
  }

  /** Those that grew more. */
  ghost function Betters(all: seq<Entry>, i: nat, measure: Entry -> real): set<nat>
    requires i < |all|
  {
    set j: nat | j < |all| && measure(all[j]) > measure(all[i])
  }

  ghost function FirstRanks(order: seq<nat>, n: nat): set<nat>
    requires n <= |order|
  {
    set k | 0 <= k < n :: order[k]
  }

  lemma {:induction false} FirstRanksCount(order: seq<nat>, size: nat, n: nat)
    requires IsPermutation(order, size) && n <= |order|
    ensures |FirstRanks(order, n)| == n
  {
    if n > 0 {
      FirstRanksCount(order, size, n - 1);
      assert FirstRanks(order, n) == FirstRanks(order, n - 1) + {order[n - 1]};
    }
  }

  lemma FewRivalsLead(all: seq<Entry>, order: seq<nat>, d: nat, i: nat, measure: Entry -> real, n: nat)
    requires Ranks(order, all, d) && i < |all| && Value(all[i], d) > 0.0
    requires forall e: Entry :: measure(e) == Value(e, d)
    requires |Rivals(all, i, measure)| < n
    ensures all[i].key in TopKeys(order, all, d, n)
  {
    assert i in order;
    var r :| 0 <= r < |order| && order[r] == i;
    if r >= n {
      FirstRanksCount(order, |all|, n);
      assert FirstRanks(order, n) <= Rivals(all, i, measure);
      SubsetSize(FirstRanks(order, n), Rivals(all, i, measure));
      assert false;
    }
    LeaderSelected(order, all, d, r, n);
  }

  lemma LeadersHaveFewBetters(all: seq<Entry>, order: seq<nat>, d: nat, k: nat, measure: Entry -> real)
    requires Ranks(order, all, d) && k < |order|
    requires forall e: Entry :: measure(e) == Value(e, d)
    ensures |Betters(all, order[k], measure)| <= k
  {
    var better := Betters(all, order[k], measure);
    forall j | j in better
      ensures j in FirstRanks(order, k)
    {
      assert j in order;
      var m :| 0 <= m < |order| && order[m] == j;
      assert m < k;
    }
    FirstRanksCount(order, |all|, k);
    SubsetSize(better, FirstRanks(order, k));
  }

  /** How much an entry grew in time, calls, blocks read, blocks dirtied and WAL. */
  function Measures(): seq<Entry -> real> {
    [(e: Entry) => e.deltaTime, (e: Entry) => e.deltaCalls as real, (e: Entry) => e.deltaRead as real,
     (e: Entry) => e.deltaDirtied as real, (e: Entry) => e.deltaWal as real]
  }

  lemma MeasuresAreValues(d: nat)
    requires d < 5
    ensures forall e: Entry :: Measures()[d](e) == Value(e, d)
  {
  }

  /**
   * A statement that grew and that fewer than twenty others match or beat in time, calls, blocks read,
   * blocks dirtied or, where it is counted, WAL, is selected; fewer than thirty, and its text is wanted.
   */
  lemma TopTwentySelected(all: seq<Entry>, wal: bool, metrics: set<string>, meta: set<string>, orders: seq<seq<nat>>,
                          i: nat, d: nat)
    requires Selected(all, wal, metrics, meta, orders) && i < |all|
    requires d < if wal then 5 else 4
    requires Measures()[d](all[i]) > 0.0
    ensures |Rivals(all, i, Measures()[d])| < 20 ==> all[i].key in metrics
    ensures |Rivals(all, i, Measures()[d])| < 30 ==> all[i].key in meta
  {
    MeasuresAreValues(d);
    if |Rivals(all, i, Measures()[d])| < 20 {
      FewRivalsLead(all, orders[d], d, i, Measures()[d], TOP_STATEMENTS);
    }
    if |Rivals(all, i, Measures()[d])| < 30 {
      FewRivalsLead(all, orders[d], d, i, Measures()[d], TOP_META);
    }
  }

  /** And whatever is selected grew in one of them, with fewer than twenty that grew more. */
  lemma SelectedIsTopTwenty(all: seq<Entry>, wal: bool, metrics: set<string>, meta: set<string>,
                            orders: seq<seq<nat>>, key: string) returns (i: nat, d: nat)
    requires Selected(all, wal, metrics, meta, orders) && key in metrics
    ensures i < |all| && all[i].key == key && d < if wal then 5 else 4
    ensures Measures()[d](all[i]) > 0.0 && |Betters(all, i, Measures()[d])| < 20
  {
    d :| 0 <= d < |orders| && key in TopKeys(orders[d], all, d, TOP_STATEMENTS);
    var order := orders[d];
    var k :| 0 <= k < |order| && k < TOP_STATEMENTS && order[k] < |all| && Value(all[order[k]], d) > 0.0
             && all[order[k]].key == key;
    i := order[k];
    MeasuresAreValues(d);
    LeadersHaveFewBetters(all, order, d, k, Measures()[d]);
  }

  // ----- what is observed -----

  /** The mean of what is left, in seconds, and not below zero. */
  function Rest(calls: int, milliseconds: real): real
    requires calls > 0
  {
    if milliseconds < 0.0 then 0.0 else milliseconds * 0.001 / calls as real
  }

  /**
   * Several calls: a new longest time and a new shortest time are observed as they are, in seconds, and the
   * other calls at their mean; a single call at its own time.
   */
  lemma ObservedAs(cur: Stmt, prev: Stmt, calls: int, time: real)
    requires calls > 0
    ensures var obs := Observations(cur, prev, calls, time);
      var max := cur.maxTime > prev.maxTime && calls > 1;
      var c1, t1 := if max then calls - 1 else calls, if max then time - cur.maxTime else time;
      var min := 0.0 < cur.minTime < prev.minTime && c1 > 1;
      var c2, t2 := if min then c1 - 1 else c1, if min then t1 - cur.minTime else t1;
      && c2 > 0
      && obs == (if max then [cur.maxTime * 0.001] else []) + (if min then [cur.minTime * 0.001] else [])
                + seq(c2, i => Rest(c2, t2))
  {
    var (c, t) := Remaining(cur, prev, calls, time);
    MeanRestores(c, t);
    assert Clamp(Mean(c, t)) == Rest(c, t);
  }

  // ----- the recorded sum -----

  /** The seconds a row adds: what its total time grew by, if its calls grew and its time did not fall. */
  function Seconds(row: Row, prev: map<string, Stmt>): real {
    if row.key in prev && row.cur.calls > prev[row.key].calls && row.cur.totalTime >= prev[row.key].totalTime
    then (row.cur.totalTime - prev[row.key].totalTime) * 0.001
    else 0.0
  }

  /** What the readable rows add that `counts` accepts. */
  function SecondsOf(prev: map<string, Stmt>, rows: seq<Option<Row>>, counts: string -> bool): real {
    if rows == [] then 0.0
    else SecondsOf(prev, rows[..|rows| - 1], counts)
         + match rows[|rows| - 1] {
             case Some(r) => if counts(r.key) then Seconds(r, prev) else 0.0
             case None => 0.0
           }
  }

  /** A scrape adds to the recorded sum the seconds of all its rows, each against the previous scrape. */
  lemma {:induction false} SumGrowsBySeconds(st: Stats, rows: seq<Option<Row>>)
    requires DistinctKeys(rows)
    ensures ScanRows(st, rows).stats.sum == st.sum + SecondsOf(st.prev, rows, key => true)
  {
    if rows != [] {
      var init, row := rows[..|rows| - 1], rows[|rows| - 1];
      SumGrowsBySeconds(st, init);
      if row.Some? {
        DistinctLast(rows);
        LaterKeysUntouched(st, init, row.value.key);
        assert FedTime(row.value, ScanRows(st, init).stats.prev) == Seconds(row.value, st.prev);
      }
    }
  }

  lemma {:induction false} NoRowNoSeconds(prev: map<string, Stmt>, rows: seq<Option<Row>>, key: string)
    requires key !in ScannedKeys(rows)
    ensures SecondsOf(prev, rows, k => k == key) == 0.0
  {
    if rows != [] {
      var init, last := rows[..|rows| - 1], rows[|rows| - 1];
      assert rows == init + [last];
      ScannedAppend(init, last);
      NoRowNoSeconds(prev, init, key);
    }
  }

  lemma {:induction false} OneRowsSeconds(st: Stats, rows: seq<Option<Row>>, key: string)
    requires DistinctKeys(rows) && key in ScannedKeys(rows)
    ensures key in ScanRows(st, rows).stats.prev
    ensures SecondsOf(st.prev, rows, k => k == key) == Seconds(Row(key, ScanRows(st, rows).stats.prev[key]), st.prev)
    decreases rows
  {
    var init, last := rows[..|rows| - 1], rows[|rows| - 1];
    assert rows == init + [last];
    ScannedAppend(init, last);
    if last.Some? && last.value.key == key {
      DistinctLast(rows);
      NoRowNoSeconds(st.prev, init, key);
    } else {
      OneRowsSeconds(st, init, key);
    }
  }

  /** What one statement adds to the recorded sum over several scrapes. */
  function TotalSeconds(st: Stats, scrapes: seq<Scrape>, key: string): real
    decreases scrapes
  {
    if scrapes == [] then 0.0
    else
      SecondsOf(st.prev, scrapes[0].rows, k => k == key)
      + TotalSeconds(AfterScrape(st, scrapes[0]), scrapes[1..], key)
  }

  /** Its time grows only with its calls. */
  ghost predicate TimeNeedsCalls(st: Stats, scrapes: seq<Scrape>, key: string)
    requires Steady(st, scrapes, key)
    decreases scrapes
  {
    scrapes == [] ||
    var next := AfterScrape(st, scrapes[0]);
    assert Steady(next, scrapes[1..], key);
    && (next.prev[key].calls == st.prev[key].calls ==> next.prev[key].totalTime == st.prev[key].totalTime)
    && TimeNeedsCalls(next, scrapes[1..], key)
  }

  /** What a steady statement adds to the recorded sum is its last total time minus its first, in seconds. */
  lemma {:induction false} SteadySecondsTelescope(st: Stats, scrapes: seq<Scrape>, key: string)
    requires Steady(st, scrapes, key) && TimeNeedsCalls(st, scrapes, key)
    ensures key in Later(st, scrapes).prev
    ensures TotalSeconds(st, scrapes, key) * 1000.0 == Later(st, scrapes).prev[key].totalTime - st.prev[key].totalTime
    decreases scrapes
  {
    if scrapes != [] {
      OneRowsSeconds(st, scrapes[0].rows, key);
      ScanLeavesScanned(st, scrapes[0].rows);
      SteadySecondsTelescope(AfterScrape(st, scrapes[0]), scrapes[1..], key);
    }
  }
}
