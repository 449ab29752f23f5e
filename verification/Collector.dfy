/** The statements part of the postgres Collector, proved against its specification. */
module PostgresCollector {
  import opened Arith
  import opened Listings
  import opened StatementEffects
  import opened Statements
  import opened TopStatements
  import opened Options
  import opened Samples

  class Collector {
    const statementsTimeCol: string
    const hasWalBytes: bool
    var prevStmts: map<string, Stmt>
    var histCount: nat
    var histSum: real
    var histBuckets: map<real, nat>
    var prevTopKeys: set<string>
    ghost var obs: seq<real>

    ghost function Abs(): Stats
      reads this
    {
      Stats(prevStmts, obs, histSum, prevTopKeys)
    }

    /** The histogram is the cumulative count of the observations fed so far. */
    ghost predicate Valid()
      reads this
    {
      histCount == |obs| && Represents(histBuckets, obs) && histBuckets.Keys == set le | le in BOUNDS
    }

    constructor (statementsTimeCol: string, hasWalBytes: bool)
      ensures Valid() && Abs() == START
      ensures this.statementsTimeCol == statementsTimeCol && this.hasWalBytes == hasWalBytes
    {
      this.statementsTimeCol, this.hasWalBytes := statementsTimeCol, hasWalBytes;
      prevStmts, histCount, histSum, prevTopKeys, obs := map[], 0, 0.0, {}, [];
      histBuckets := map le | le in BOUNDS :: 0;
    }

    /** One pass over the bounds: `n` observations of `sec`. */
    method AddToBuckets(sec: real, n: nat)
      requires forall le :: le in BOUNDS ==> le in histBuckets
      modifies this`histBuckets
      ensures histBuckets.Keys == old(histBuckets).Keys
      ensures forall le :: le in BOUNDS ==> histBuckets[le] == old(histBuckets[le]) + if sec <= le then n else 0
    {
      var i := 0;
      while i < |BOUNDS|
        invariant 0 <= i <= |BOUNDS|
        invariant histBuckets.Keys == old(histBuckets).Keys
        invariant forall k :: 0 <= k < i ==>
          histBuckets[BOUNDS[k]] == old(histBuckets[BOUNDS[k]]) + if sec <= BOUNDS[k] then n else 0
        invariant forall k :: i <= k < |BOUNDS| ==> histBuckets[BOUNDS[k]] == old(histBuckets[BOUNDS[k]])
      {
        if sec <= BOUNDS[i] {
          BoundsDiffer(i);
          histBuckets := histBuckets[BOUNDS[i] := histBuckets[BOUNDS[i]] + n];
        }
        i := i + 1;
      }
    }

    /** Puts `n` observations of `sec` into the buckets. */
    method Observe(sec: real, n: nat)
      requires Represents(histBuckets, obs)
      modifies this`histBuckets, this`obs
      ensures Represents(histBuckets, obs) && histBuckets.Keys == old(histBuckets).Keys
      ensures obs == old(obs) + Repeat(sec, n)
    {
      AddToBuckets(sec, n);
      BucketsAfter(old(histBuckets), histBuckets, obs, sec, n);
      obs := obs + Repeat(sec, n);
    }

    /** Observes a new maximum and a new minimum; returns the calls and the time they leave. */
    method FeedOutliers(cur: Stmt, prev: Stmt, deltaCalls: int, deltaTime: real) returns (calls: int, time: real)
      requires Represents(histBuckets, obs) && deltaCalls > 0
      modifies this`histBuckets, this`obs
      ensures Represents(histBuckets, obs) && histBuckets.Keys == old(histBuckets).Keys
      ensures (calls, time) == Remaining(cur, prev, deltaCalls, deltaTime) && calls > 0
      ensures obs == old(obs) + Outliers(cur, prev, deltaCalls)
    {
      calls, time := deltaCalls, deltaTime;
      if cur.maxTime > prev.maxTime && calls > 1 {
        Observe(cur.maxTime * MS_TO_SEC, 1);
        calls, time := calls - 1, time - cur.maxTime;
      }
      if 0.0 < cur.minTime < prev.minTime && calls > 1 {
        Observe(cur.minTime * MS_TO_SEC, 1);
        calls, time := calls - 1, time - cur.minTime;
      }
      OutliersJoin(old(obs), cur, prev, deltaCalls);
    }

    method FeedHistogram(cur: Stmt, prev: Stmt, deltaCalls: int, deltaTime: real)
      requires Valid() && deltaCalls > 0
      modifies this`histBuckets, this`histCount, this`histSum, this`obs
      ensures Valid() && obs == old(obs) + Observations(cur, prev, deltaCalls, deltaTime)
      ensures histSum == old(histSum) + deltaTime * MS_TO_SEC
      ensures histCount == old(histCount) + deltaCalls
    {
      var remainingCalls, remainingTime := FeedOutliers(cur, prev, deltaCalls, deltaTime);
      var meanSec := remainingTime * MS_TO_SEC / remainingCalls as real;
      if meanSec < 0.0 {
        meanSec := 0.0;
      }
      Observe(meanSec, remainingCalls);
      histCount := histCount + deltaCalls;
      histSum := histSum + deltaTime * MS_TO_SEC;
      ConcatAssociative(old(obs), Outliers(cur, prev, deltaCalls), Repeat(meanSec, remainingCalls));
      ObservationsAccount(cur, prev, deltaCalls, deltaTime);
    }

    /** Reads rows until there is no next one; why there is none is not asked. */
    method ScanStatements(answer: Answer) returns (all: seq<Entry>)
      requires Valid() && answer.Rows?
      modifies this`prevStmts, this`histBuckets, this`histCount, this`histSum, this`obs
      ensures Valid() && Abs() == AfterScan(old(Abs()), Delivered(answer))
      ensures all == ScanRows(old(Abs()), Delivered(answer)).all
    {
      ghost var st := Abs();
      ghost var rows := Delivered(answer);
      all := [];
      var seen: set<string> := {};
      var i := 0;
      while i < |answer.result| && i < answer.cut
        invariant 0 <= i <= |rows| && Valid()
        invariant ScanRows(st, rows[..i]) == Scan(Abs(), all, seen)
      {
        assert rows[..i + 1][..i] == rows[..i];
        if answer.result[i].Some? {
          var row := answer.result[i].value;
          seen := seen + {row.key};
          var e := Delta(row, prevStmts);
          ghost var before := obs;
          if row.key in prevStmts && e.deltaCalls > 0 && e.deltaTime >= 0.0 {
            FeedHistogram(row.cur, prevStmts[row.key], e.deltaCalls, e.deltaTime);
          } else {
            assert obs + [] == obs;
          }
          prevStmts := prevStmts[row.key := row.cur];
          all := all + [e];
        }
        i := i + 1;
      }
      assert rows[..i] == rows;
      ForgetUnseen(seen);
    }

    /** Deletes the statements not seen by this scan. */
    method ForgetUnseen(seen: set<string>)
      modifies this`prevStmts
      ensures prevStmts == Forget(old(prevStmts), seen)
    {
      var todo := prevStmts.Keys;
      while todo != {}
        invariant todo <= prevStmts.Keys <= old(prevStmts).Keys
        invariant forall k :: k in old(prevStmts) && (k in seen || k in todo) ==> k in prevStmts
        invariant forall k :: k in prevStmts ==> prevStmts[k] == old(prevStmts)[k] && (k in seen || k in todo)
        decreases |todo|
      {
        var key :| key in todo;
        todo := todo - {key};
        if key !in seen {
          prevStmts := prevStmts - {key};
        }
      }
    }

    /** Remembers `top` and returns what was also in the previous top-set. */
    method DebounceTop(top: set<string>) returns (emit: set<string>)
      modifies this`prevTopKeys
      ensures emit == top * old(prevTopKeys) && prevTopKeys == top
    {
      emit := {};
      var todo := top;
      while todo != {}
        invariant todo <= top && emit == (top - todo) * prevTopKeys
        decreases |todo|
      {
        var key :| key in todo;
        todo := todo - {key};
        if key in prevTopKeys {
          emit := emit + {key};
        }
      }
      prevTopKeys := top;
    }

    /** The entries with these keys, as they are sent one by one. */
    method EmitStatements(all: seq<Entry>, emit: set<string>) returns (emitted: seq<Entry>)
      ensures emitted == EntriesOf(all, emit)
    {
      emitted := [];
      var i := 0;
      while i < |all|
        invariant 0 <= i <= |all|
        invariant emitted == EntriesOf(all[..i], emit)
      {
        assert all[..i + 1][..i] == all[..i];
        if all[i].key in emit {
          emitted := emitted + [all[i]];
        }
        i := i + 1;
      }
      assert all[..i] == all;
    }

    /**
     * One attempt to collect.  Without the column, without the lock or with a query that fails at once
     * nothing happens at all; otherwise the rows that were delivered decide everything.
     */
    method CollectStatements(locked: bool, answer: Answer)
      returns (histogram: Option<Histogram>, emitted: seq<Entry>, metrics: set<string>, meta: set<string>)
      requires Valid()
      modifies this
      ensures Valid()
      ensures var a := Attempt(statementsTimeCol != "", locked, answer, metrics);
        var st := old(Abs());
        && Abs() == AfterAttempt(st, a)
        && (Scans(a) ==>
              && Chosen(ScanRows(st, Delivered(answer)).all, hasWalBytes, metrics, meta)
              && emitted == EntriesOf(ScanRows(st, Delivered(answer)).all,
                                      Emitted(st, Scrape(Delivered(answer), metrics)))
              && histogram == if obs == [] then None else Some(Histogram(|obs|, histSum, histBuckets)))
        && (!Scans(a) ==> emitted == [] && histogram == None && metrics == meta == {})
      ensures statementsTimeCol != "" && !locked && answer.Rows? ==>
        && prevTopKeys == metrics
        && Publishes(ScanRows(old(Abs()), Delivered(answer)).all, emitted, metrics, old(prevTopKeys))
    {
      histogram, emitted, metrics, meta := None, [], {}, {};
      if statementsTimeCol == "" {
        return;
      }
      if locked {
        return;
      }
      if answer.QueryError? {
        return;
      }
      ghost var st := Abs();
      ScanLeavesScanned(st, Delivered(answer));
      var all := ScanStatements(answer);
      if histCount > 0 {
        histogram := Some(Histogram(histCount, histSum, histBuckets));
      }
      metrics, meta := SelectTopStatements(all, hasWalBytes);
      var emit := DebounceTop(metrics);
      emitted := EmitStatements(all, emit);
      PickedPublishes(all, metrics, st.top);
    }
  }

  lemma BoundsDiffer(i: nat)
    requires i < |BOUNDS|
    ensures forall k :: 0 <= k < |BOUNDS| && k != i ==> BOUNDS[k] != BOUNDS[i]
  {
    BoundsAscend();
  }

  lemma BoundsAscend()
    ensures forall j, k :: 0 <= j < k < |BOUNDS| ==> BOUNDS[j] < BOUNDS[k]
  {
    assert BOUNDS[0] < BOUNDS[1] < BOUNDS[2] < BOUNDS[3] < BOUNDS[4] < BOUNDS[5];
    assert BOUNDS[5] < BOUNDS[6] < BOUNDS[7] < BOUNDS[8] < BOUNDS[9] < BOUNDS[10];
  }

  /** Adding `n` copies of one observation to the buckets adds them to what the buckets represent. */
  lemma BucketsAfter(before: map<real, nat>, after: map<real, nat>, obs: seq<real>, sec: real, n: nat)
    requires Represents(before, obs)
    requires forall le :: le in BOUNDS ==> le in after && after[le] == before[le] + if sec <= le then n else 0
    ensures Represents(after, obs + Repeat(sec, n))
  {
    forall le | le in BOUNDS
      ensures after[le] == CountAtMost(obs + Repeat(sec, n), le)
    {
      ConcatTotals(obs, Repeat(sec, n), le);
      RepeatTotals(sec, n, le);
    }
  }

  /** The outliers, fed one after the other. */
  lemma OutliersJoin(obs: seq<real>, cur: Stmt, prev: Stmt, calls: int)
    ensures var c1 := if NewMax(cur, prev, calls) then calls - 1 else calls;
      var a := if NewMax(cur, prev, calls) then obs + Repeat(cur.maxTime * MS_TO_SEC, 1) else obs;
      var b := if NewMin(cur, prev, c1) then a + Repeat(cur.minTime * MS_TO_SEC, 1) else a;
      b == obs + Outliers(cur, prev, calls)
  {
    assert Repeat(cur.maxTime * MS_TO_SEC, 1) == [cur.maxTime * MS_TO_SEC];
    assert Repeat(cur.minTime * MS_TO_SEC, 1) == [cur.minTime * MS_TO_SEC];
  }

  // ----- ranking -----

  lemma SwapPermutes(s: seq<nat>, n: nat, i: nat, m: nat)
    requires IsPermutation(s, n) && i < n && m < n
    ensures IsPermutation(s[i := s[m]][m := s[i]], n)
  {
    var t := s[i := s[m]][m := s[i]];
    forall x | 0 <= x < n
      ensures x in t
    {
      assert x in s;
      var k :| 0 <= k < n && s[k] == x;
      assert t[if k == i then m else if k == m then i else k] == x;
    }
  }

  /** `slices.SortFunc`, descending by one dimension; which of equals comes first is not promised. */
  method SortDescending(idx: array<nat>, all: seq<Entry>, d: nat)
    requires IsPermutation(idx[..], |all|)
    modifies idx
    ensures Ranks(idx[..], all, d)
  {
    var i := 0;
    while i < idx.Length
      invariant 0 <= i <= idx.Length
      invariant IsPermutation(idx[..], |all|)
      invariant Descending(idx[..], all, d, i)
    {
      var m, j := i, i + 1;
      while j < idx.Length
        invariant i <= m < j <= idx.Length
        invariant forall k :: i <= k < j ==> Value(all[idx[m]], d) >= Value(all[idx[k]], d)
      {
        if Value(all[idx[j]], d) > Value(all[idx[m]], d) {
          m := j;
        }
        j := j + 1;
      }
      SwapPermutes(idx[..], |all|, i, m);
      ghost var before := idx[..];
      idx[i], idx[m] := idx[m], idx[i];
      assert idx[..] == before[i := before[m]][m := before[i]];
      i := i + 1;
    }
  }

  /** Refills the index slice and ranks it by one dimension. */
  method Rank(idx: array<nat>, all: seq<Entry>, d: nat)
    requires idx.Length == |all|
    modifies idx
    ensures Ranks(idx[..], all, d)
  {
    var i := 0;
    while i < idx.Length
      invariant 0 <= i <= idx.Length
      invariant forall k :: 0 <= k < i ==> idx[k] == k
    {
      idx[i] := i;
      i := i + 1;
    }
    forall k | 0 <= k < |all|
      ensures k in idx[..]
    {
      assert idx[..][k] == k;
    }
    SortDescending(idx, all, d);
  }

  /** Adds the leaders of one dimension to both sets. */
  method AddTopN(idx: array<nat>, all: seq<Entry>, d: nat, metrics: set<string>, meta: set<string>)
    returns (metrics': set<string>, meta': set<string>)
    requires idx.Length == |all|
    modifies idx
    ensures Ranks(idx[..], all, d)
    ensures metrics' == metrics + TopKeys(idx[..], all, d, TOP_STATEMENTS)
    ensures meta' == meta + TopKeys(idx[..], all, d, TOP_META)
  {
    Rank(idx, all, d);
    ghost var order := idx[..];
    metrics', meta' := metrics, meta;
    var rank := 0;
    while rank < TOP_META && rank < idx.Length
      invariant 0 <= rank <= idx.Length && rank <= TOP_META
      invariant idx[..] == order && Ranks(order, all, d)
      invariant metrics' == metrics + TopKeys(order, all, d, Min(rank, TOP_STATEMENTS))
      invariant meta' == meta + TopKeys(order, all, d, rank)
    {
      var e := all[idx[rank]];
      assert idx[rank] == order[rank];
      if Value(e, d) <= 0.0 {
        NoneBelow(order, all, d, rank, TOP_META);
        NoneBelow(order, all, d, rank, TOP_STATEMENTS);
        return;
      }
      TopKeysNext(order, all, d, rank);
      meta' := meta' + {e.key};
      if rank < TOP_STATEMENTS {
        metrics' := metrics' + {e.key};
      }
      rank := rank + 1;
    }
    BeyondTheEnd(order, all, d, rank, TOP_META);
    BeyondTheEnd(order, all, d, rank, TOP_STATEMENTS);
  }

  lemma TopKeysNext(order: seq<nat>, all: seq<Entry>, d: nat, n: nat)
    requires n < |order| && order[n] < |all| && Value(all[order[n]], d) > 0.0
    ensures TopKeys(order, all, d, n + 1) == TopKeys(order, all, d, n) + {all[order[n]].key}
  {
  }

  /** After the first value that is not positive no rank adds a key. */
  lemma NoneBelow(order: seq<nat>, all: seq<Entry>, d: nat, rank: nat, n: nat)
    requires Ranks(order, all, d) && rank < |order| && Value(all[order[rank]], d) <= 0.0
    ensures rank <= n ==> TopKeys(order, all, d, n) == TopKeys(order, all, d, rank)
  {
  }

  lemma BeyondTheEnd(order: seq<nat>, all: seq<Entry>, d: nat, rank: nat, n: nat)
    ensures rank == |order| <= n ==> TopKeys(order, all, d, n) == TopKeys(order, all, d, rank)
  {
  }

  method SelectTopStatements(all: seq<Entry>, wal: bool)
    returns (metrics: set<string>, meta: set<string>)
    ensures Chosen(all, wal, metrics, meta)
  {
    metrics, meta := {}, {};
    ghost var orders: seq<seq<nat>> := [];
    var idx := new nat[|all|];
    var d := 0;
    while d < Dimensions(wal)
      invariant 0 <= d <= Dimensions(wal) && |orders| == d
      invariant forall c :: 0 <= c < d ==> Ranks(orders[c], all, c)
      invariant UnionOfTops(metrics, orders, all, TOP_STATEMENTS)
      invariant UnionOfTops(meta, orders, all, TOP_META)
    {
      ghost var metrics0, meta0, orders0 := metrics, meta, orders;
      metrics, meta := AddTopN(idx, all, d, metrics, meta);
      orders := orders + [idx[..]];
      UnionGrows(metrics0, metrics, orders0, idx[..], all, TOP_STATEMENTS);
      UnionGrows(meta0, meta, orders0, idx[..], all, TOP_META);
      d := d + 1;
    }
    assert Selected(all, wal, metrics, meta, orders);
  }

  lemma UnionGrows(before: set<string>, after: set<string>, orders: seq<seq<nat>>, order: seq<nat>, all: seq<Entry>, n: nat)
    requires UnionOfTops(before, orders, all, n)
    requires after == before + TopKeys(order, all, |orders|, n)
    ensures UnionOfTops(after, orders + [order], all, n)
  {
    forall key
      ensures key in after <==> exists d :: 0 <= d < |orders + [order]| && key in TopKeys((orders + [order])[d], all, d, n)
    {
      if key in before {
        var d :| 0 <= d < |orders| && key in TopKeys(orders[d], all, d, n);
        assert (orders + [order])[d] == orders[d];
      } else if key in after {
        assert (orders + [order])[|orders|] == order;
      }
    }
  }
}
