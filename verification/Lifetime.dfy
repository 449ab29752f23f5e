/** A whole life of the shipper: start-up, the select loop, and the drain on shutdown. */
module Lifetime {
  import opened Arith
  import opened Listings
  import opened Protocol
  import opened Passes
  import opened Options

  /** Between two activities nothing is in flight and the batch is not full. */
  ghost predicate AtRest(cfg: Config, s: State) {
    s.book.flight.None? && |s.batch| < cfg.batchSize
  }

  // ----- start-up: stale `.tmp` files -----

  function TmpRemovals(ids: seq<BatchId>): seq<Step> {
    if ids == [] then [] else [RemoveTmp(ids[0])] + TmpRemovals(ids[1..])
  }

  ghost function CleanupSteps(cfg: Config, tmp: Spool, stuck: set<BatchId>): seq<Step>
    requires StrictTotal(cfg.before)
  {
    if cfg.spoolDir == "" then [] else TmpRemovals(Listing(cfg.before, tmp.Keys - stuck))
  }

  lemma {:induction false} TmpRemovalsRun(cfg: Config, s: State, ids: seq<BatchId>)
    requires StrictTotal(cfg.before) && Ascending(cfg.before, ids) && forall x :: x in ids ==> x in s.tmp
    ensures Legal(cfg, s, TmpRemovals(ids))
    ensures Run(cfg, s, TmpRemovals(ids)) == s.(tmp := s.tmp - ToSet(ids))
    decreases ids
  {
    if ids == [] {
      assert s.tmp - ToSet(ids) == s.tmp;
    } else {
      assert ids[0] in ids;
      var t := Next(cfg, s, RemoveTmp(ids[0]));
      assert forall x :: x in ids[1..] ==> x in ids && cfg.before(ids[0], x);
      TmpRemovalsRun(cfg, t, ids[1..]);
      RunCons(cfg, s, RemoveTmp(ids[0]), TmpRemovals(ids[1..]));
      assert ToSet(ids) == {ids[0]} + ToSet(ids[1..]);
      assert t.tmp - ToSet(ids[1..]) == s.tmp - ToSet(ids);
    }
  }

  lemma ListingMembers(cfg: Config, names: set<BatchId>)
    requires StrictTotal(cfg.before)
    ensures ToSet(Listing(cfg.before, names)) == names && Ascending(cfg.before, Listing(cfg.before, names))
  {
  }

  lemma ListedRemovalsRun(cfg: Config, s: State, ids: seq<BatchId>, gone: set<BatchId>)
    requires StrictTotal(cfg.before) && Ascending(cfg.before, ids) && ToSet(ids) == gone && gone <= s.tmp.Keys
    ensures Legal(cfg, s, TmpRemovals(ids)) && Run(cfg, s, TmpRemovals(ids)) == s.(tmp := s.tmp - gone)
  {
    assert forall x :: x in ids ==> x in ToSet(ids);
    TmpRemovalsRun(cfg, s, ids);
  }

  /** Start-up removes what a crash left behind and nothing that will be replayed. */
  lemma CleanupRun(cfg: Config, s: State, stuck: set<BatchId>)
    requires StrictTotal(cfg.before)
    ensures Legal(cfg, s, CleanupSteps(cfg, s.tmp, stuck))
    ensures var t := Run(cfg, s, CleanupSteps(cfg, s.tmp, stuck));
      && t == s.(tmp := t.tmp)
      && (cfg.spoolDir != "" ==> t.tmp.Keys == s.tmp.Keys * stuck)
  {
    if cfg.spoolDir == "" {
      RunNothing(cfg, s);
    } else {
      var gone := s.tmp.Keys - stuck;
      ListingMembers(cfg, gone);
      ListedRemovalsRun(cfg, s, Listing(cfg.before, gone), gone);
    }
  }

  lemma {:induction false} TmpRemovalsConcat(a: seq<BatchId>, b: seq<BatchId>)
    ensures TmpRemovals(a + b) == TmpRemovals(a) + TmpRemovals(b)
  {
    if a == [] {
      assert a + b == b;
    } else {
      assert (a + b)[1..] == a[1..] + b;
      TmpRemovalsConcat(a[1..], b);
    }
  }

  /** A clean-up begun in `s` has removed the first `i` files. */
  ghost predicate MidCleanup(cfg: Config, s: State, t: State, ids: seq<BatchId>, i: nat) {
    && Pending(cfg, ids, i, t.tmp)
    && Legal(cfg, s, TmpRemovals(ids[..i])) && t == Run(cfg, s, TmpRemovals(ids[..i]))
  }

  lemma MidCleanupStart(cfg: Config, s: State, ids: seq<BatchId>, stuck: set<BatchId>)
    requires StrictTotal(cfg.before) && cfg.spoolDir != "" && ids == Listing(cfg.before, s.tmp.Keys - stuck)
    ensures MidCleanup(cfg, s, s, ids, 0)
    ensures CleanupSteps(cfg, s.tmp, stuck) == TmpRemovals(ids)
  {
    RunNothing(cfg, s);
    assert ids[..0] == [];
    assert forall k :: 0 <= k < |ids| ==> ids[k] in ids;
  }

  lemma MidCleanupStep(cfg: Config, s: State, t: State, ids: seq<BatchId>, i: nat)
    requires StrictTotal(cfg.before) && MidCleanup(cfg, s, t, ids, i) && i < |ids|
    ensures Enabled(cfg, t, RemoveTmp(ids[i]))
    ensures MidCleanup(cfg, s, Next(cfg, t, RemoveTmp(ids[i])), ids, i + 1)
  {
    var u := Next(cfg, t, RemoveTmp(ids[i]));
    PendingStep(cfg, ids, i, t.tmp, u.tmp);
    assert ids[..i + 1] == ids[..i] + [ids[i]];
    TmpRemovalsConcat(ids[..i], [ids[i]]);
    assert TmpRemovals([ids[i]]) == [RemoveTmp(ids[i])];
    RunSnoc(cfg, s, TmpRemovals(ids[..i]), RemoveTmp(ids[i]));
  }

  // ----- the drain on shutdown -----

  /** How many events a round of the drain takes: until the batch is full or the queue empty. */
  function DrainTakes(cfg: Config, s: State): nat
    requires |s.batch| <= cfg.batchSize
  {
    Min(|s.queue|, cfg.batchSize - |s.batch|)
  }

  function Filled(cfg: Config, s: State): State
    requires |s.batch| <= cfg.batchSize
  {
    var n := DrainTakes(cfg, s);
    s.(queue := s.queue[n..], batch := s.batch + s.queue[..n])
  }

  function Backlog(s: State): nat {
    |s.queue| + |s.batch|
  }

  /** One round of the drain: fill the batch from the queue and ship it. */
  ghost function RoundSteps(cfg: Config, s: State, e: FinalEnv): seq<Step>
    requires StrictTotal(cfg.before) && |s.batch| <= cfg.batchSize
  {
    Takes(DrainTakes(cfg, s)) + FinalSteps(cfg, Filled(cfg, s), e)
  }

  lemma RoundRun(cfg: Config, s: State, e: FinalEnv)
    requires StrictTotal(cfg.before) && cfg.batchSize > 0
    requires s.book.flight.None? && |s.batch| <= cfg.batchSize && Backlog(s) > 0
    ensures Legal(cfg, s, Takes(DrainTakes(cfg, s))) && Run(cfg, s, Takes(DrainTakes(cfg, s))) == Filled(cfg, s)
    ensures Filled(cfg, s).batch != [] && |Filled(cfg, s).batch| == Min(Backlog(s), cfg.batchSize)
    ensures Legal(cfg, Filled(cfg, s), FinalSteps(cfg, Filled(cfg, s), e))
    ensures Legal(cfg, s, RoundSteps(cfg, s, e))
    ensures var t := Run(cfg, s, RoundSteps(cfg, s, e));
      && t == Run(cfg, Filled(cfg, s), FinalSteps(cfg, Filled(cfg, s), e))
      && t.batch == [] && t.book.flight.None? && |t.queue| == Backlog(s) - |Filled(cfg, s).batch|
      && t.book.accepted == s.book.accepted && t.book.unsure == s.book.unsure
      && |t.book.records| == |s.book.records| + 1
  {
    TakesRun(cfg, s, DrainTakes(cfg, s));
    FinalRun(cfg, Filled(cfg, s), e);
    RunConcat(cfg, s, Takes(DrainTakes(cfg, s)), FinalSteps(cfg, Filled(cfg, s), e));
  }

  /** `envs(i)` is what the i-th flushFinal meets. */
  ghost function DrainSteps(cfg: Config, s: State, envs: nat -> FinalEnv, i: nat): seq<Step>
    requires StrictTotal(cfg.before) && cfg.batchSize > 0
    requires s.book.flight.None? && |s.batch| <= cfg.batchSize
    decreases Backlog(s)
  {
    if Backlog(s) == 0 then []
    else
      RoundRun(cfg, s, envs(i));
      RoundSteps(cfg, s, envs(i)) + DrainSteps(cfg, Run(cfg, s, RoundSteps(cfg, s, envs(i))), envs, i + 1)
  }

  /**
   * The drain ends with queue and batch empty after exactly ceil((queue + batch) / BatchSize)
   * calls of flushFinal, each closing one record.
   */
  lemma {:induction false} DrainRun(cfg: Config, s: State, envs: nat -> FinalEnv, i: nat)
    requires StrictTotal(cfg.before) && cfg.batchSize > 0
    requires s.book.flight.None? && |s.batch| <= cfg.batchSize
    ensures Legal(cfg, s, DrainSteps(cfg, s, envs, i))
    ensures var t := Run(cfg, s, DrainSteps(cfg, s, envs, i));
      && t.queue == [] && t.batch == [] && t.book.flight.None?
      && t.book.accepted == s.book.accepted && t.book.unsure == s.book.unsure
      && |t.book.records| == |s.book.records| + CeilDiv(Backlog(s), cfg.batchSize)
    decreases Backlog(s)
  {
    if Backlog(s) == 0 {
      RunNothing(cfg, s);
      CeilDivStep(0, cfg.batchSize);
    } else {
      RoundRun(cfg, s, envs(i));
      var b := Run(cfg, s, RoundSteps(cfg, s, envs(i)));
      DrainRun(cfg, b, envs, i + 1);
      CeilDivTake(Backlog(s), cfg.batchSize, |Filled(cfg, s).batch|, Backlog(b));
      RunConcat(cfg, s, RoundSteps(cfg, s, envs(i)), DrainSteps(cfg, b, envs, i + 1));
    }
  }

  /** A drain begun in `s` has reached `t` after `calls` calls of flushFinal shipping `total` events. */
  ghost predicate MidDrain(cfg: Config, s: State, t: State, all: seq<Step>, done: seq<Step>, envs: nat -> FinalEnv,
                           total: nat, calls: nat)
    requires StrictTotal(cfg.before) && cfg.batchSize > 0
  {
    && t.book.flight.None? && |t.batch| <= cfg.batchSize
    && Legal(cfg, s, done) && t == Run(cfg, s, done)
    && all == done + DrainSteps(cfg, t, envs, calls)
    && total + Backlog(t) == Backlog(s)
    && calls + CeilDiv(Backlog(t), cfg.batchSize) == CeilDiv(Backlog(s), cfg.batchSize)
  }

  lemma MidDrainStart(cfg: Config, s: State, envs: nat -> FinalEnv)
    requires StrictTotal(cfg.before) && cfg.batchSize > 0
    requires s.book.flight.None? && |s.batch| <= cfg.batchSize
    ensures MidDrain(cfg, s, s, DrainSteps(cfg, s, envs, 0), [], envs, 0, 0)
  {
    RunNothing(cfg, s);
  }

  lemma MidDrainStep(cfg: Config, s: State, t: State, u: State, all: seq<Step>, done: seq<Step>, envs: nat -> FinalEnv,
                     total: nat, calls: nat, n: nat)
    requires StrictTotal(cfg.before) && cfg.batchSize > 0
    requires MidDrain(cfg, s, t, all, done, envs, total, calls) && Backlog(t) > 0
    requires Legal(cfg, t, RoundSteps(cfg, t, envs(calls))) && u == Run(cfg, t, RoundSteps(cfg, t, envs(calls)))
    requires n == |Filled(cfg, t).batch|
    ensures MidDrain(cfg, s, u, all, done + RoundSteps(cfg, t, envs(calls)), envs, total + n, calls + 1)
    ensures Backlog(u) < Backlog(t)
  {
    var round := RoundSteps(cfg, t, envs(calls));
    RoundRun(cfg, t, envs(calls));
    RunConcat(cfg, s, done, round);
    ConcatAssociative(done, round, DrainSteps(cfg, u, envs, calls + 1));
    CeilDivTake(Backlog(t), cfg.batchSize, n, Backlog(u));
  }

  lemma RunJoin(cfg: Config, s: State, a: State, b: State, x: seq<Step>, y: seq<Step>, z: seq<Step>)
    requires Legal(cfg, s, x) && a == Run(cfg, s, x)
    requires Legal(cfg, a, y) && b == Run(cfg, a, y)
    requires Legal(cfg, b, z)
    ensures Legal(cfg, s, x + (y + z)) && Run(cfg, s, x + (y + z)) == Run(cfg, b, z)
  {
    RunConcat(cfg, a, y, z);
    RunConcat(cfg, s, x, y + z);
  }

  /** With a queue of at most 2·BatchSize and a batch that is not full, three calls suffice. */
  lemma DrainAtMostThree(cfg: Config, s: State)
    requires cfg.batchSize > 0 && |s.queue| <= 2 * cfg.batchSize && |s.batch| <= cfg.batchSize
    ensures CeilDiv(Backlog(s), cfg.batchSize) <= 3
    ensures CeilDiv(Backlog(s), cfg.batchSize) <= 2 <==> Backlog(s) <= 2 * cfg.batchSize
  {
    var n, d := Backlog(s), cfg.batchSize;
    CeilDivStep(n, d);
    if n > d {
      CeilDivStep(n - d, d);
      if n > 2 * d {
        CeilDivStep(n - 2 * d, d);
      }
    }
  }

  lemma MidDrainEnd(cfg: Config, s: State, t: State, all: seq<Step>, done: seq<Step>, envs: nat -> FinalEnv,
                    total: nat, calls: nat)
    requires StrictTotal(cfg.before) && cfg.batchSize > 0
    requires |s.queue| <= 2 * cfg.batchSize && |s.batch| <= cfg.batchSize
    requires MidDrain(cfg, s, t, all, done, envs, total, calls) && Backlog(t) == 0
    ensures Legal(cfg, s, all) && t == Run(cfg, s, all) && t.queue == [] && t.batch == []
    ensures total == Backlog(s) && calls == CeilDiv(Backlog(s), cfg.batchSize) <= 3
  {
    CeilDivStep(0, cfg.batchSize);
    DrainAtMostThree(cfg, s);
    assert done + [] == done;
  }

  // ----- the select loop -----

  /** One turn: a producer enqueues, the loop takes one event, or the ticker fires. */
  datatype Turn = Arrive(ev: Event) | Pump(flush: FlushEnv) | Tick(files: BatchId -> FileEnv, flush: FlushEnv)

  ghost function TickRetry(cfg: Config, s: State, files: BatchId -> FileEnv): seq<Step>
    requires StrictTotal(cfg.before)
  {
    if cfg.spoolDir == "" then [] else RetrySteps(Listing(cfg.before, s.spool.Keys), files, 0)
  }

  lemma TickRetryRun(cfg: Config, s: State, files: BatchId -> FileEnv)
    requires StrictTotal(cfg.before) && s.book.flight.None?
    ensures Legal(cfg, s, TickRetry(cfg, s, files))
    ensures var t := Run(cfg, s, TickRetry(cfg, s, files));
      && t.queue == s.queue && t.batch == s.batch && t.book.flight.None?
      && t.book.accepted == s.book.accepted && t.book.records == s.book.records
  {
    if cfg.spoolDir == "" {
      RunNothing(cfg, s);
    } else {
      var listed := Listing(cfg.before, s.spool.Keys);
      assert listed[0..] == listed;
      PendingStart(cfg, listed, s.spool);
      RetryPass(cfg, s, listed, files, 0, 0);
    }
  }

  ghost function TurnSteps(cfg: Config, s: State, turn: Turn): seq<Step>
    requires cfg.Valid() && AtRest(cfg, s)
  {
    match turn
    case Arrive(ev) => [Step.Enqueue(ev)]
    case Pump(flush) =>
      if s.queue == [] then []
      else
        var a := Next(cfg, s, Take);
        [Take] + (if |a.batch| >= cfg.batchSize then FlushSteps(cfg, a, flush) else [])
    case Tick(files, flush) =>
      TickRetryRun(cfg, s, files);
      var a := Run(cfg, s, TickRetry(cfg, s, files));
      TickRetry(cfg, s, files) + FlushSteps(cfg, a, flush)
  }

  ghost predicate Removes(turn: Turn) {
    turn.Tick? ==> forall x :: turn.files(x).removable
  }

  /** Every turn is a legal run back to rest. */
  lemma TurnRun(cfg: Config, s: State, turn: Turn)
    requires cfg.Valid() && AtRest(cfg, s)
    ensures Legal(cfg, s, TurnSteps(cfg, s, turn))
    ensures AtRest(cfg, Run(cfg, s, TurnSteps(cfg, s, turn)))
  {
    match turn
    case Arrive(ev) => RunOne(cfg, s, Step.Enqueue(ev));
    case Pump(flush) =>
      if s.queue != [] {
        var a := Next(cfg, s, Take);
        if |a.batch| >= cfg.batchSize {
          FlushRun(cfg, a, flush);
          RunCons(cfg, s, Take, FlushSteps(cfg, a, flush));
        } else {
          RunOne(cfg, s, Take);
          assert [Take] + [] == [Take];
        }
      }
    case Tick(files, flush) =>
      TickRetryRun(cfg, s, files);
      var retry := TickRetry(cfg, s, files);
      var a := Run(cfg, s, retry);
      if a.batch != [] {
        FlushRun(cfg, a, flush);
        RunConcat(cfg, s, retry, FlushSteps(cfg, a, flush));
      } else {
        assert retry + [] == retry;
      }
  }

  /** The steps of consecutive turns. */
  ghost function LoopSteps(cfg: Config, s: State, turns: seq<Turn>): seq<Step>
    requires cfg.Valid() && AtRest(cfg, s)
    decreases turns, 0
  {
    if turns == [] then []
    else
      var init := turns[..|turns| - 1];
      LoopRun(cfg, s, init);
      LoopSteps(cfg, s, init) + TurnSteps(cfg, Run(cfg, s, LoopSteps(cfg, s, init)), turns[|turns| - 1])
  }

  lemma {:induction false} LoopRun(cfg: Config, s: State, turns: seq<Turn>)
    requires cfg.Valid() && AtRest(cfg, s)
    ensures Legal(cfg, s, LoopSteps(cfg, s, turns))
    ensures AtRest(cfg, Run(cfg, s, LoopSteps(cfg, s, turns)))
    decreases turns, 1
  {
    if turns != [] {
      var init, turn := turns[..|turns| - 1], turns[|turns| - 1];
      LoopRun(cfg, s, init);
      var a := Run(cfg, s, LoopSteps(cfg, s, init));
      TurnRun(cfg, a, turn);
      RunConcat(cfg, s, LoopSteps(cfg, s, init), TurnSteps(cfg, a, turn));
    }
  }

  lemma LoopTurn(cfg: Config, s: State, t: State, turns: seq<Turn>, i: nat)
    requires cfg.Valid() && AtRest(cfg, s) && i < |turns|
    requires Legal(cfg, s, LoopSteps(cfg, s, turns[..i])) && t == Run(cfg, s, LoopSteps(cfg, s, turns[..i]))
    ensures AtRest(cfg, t) && Legal(cfg, t, TurnSteps(cfg, t, turns[i]))
    ensures AtRest(cfg, Run(cfg, t, TurnSteps(cfg, t, turns[i])))
    ensures Legal(cfg, s, LoopSteps(cfg, s, turns[..i + 1]))
    ensures Run(cfg, s, LoopSteps(cfg, s, turns[..i + 1])) == Run(cfg, t, TurnSteps(cfg, t, turns[i]))
  {
    LoopRun(cfg, s, turns[..i]);
    TurnRun(cfg, t, turns[i]);
    assert turns[..i + 1][..i] == turns[..i] && turns[..i + 1][i] == turns[i];
    RunConcat(cfg, s, LoopSteps(cfg, s, turns[..i]), TurnSteps(cfg, t, turns[i]));
  }

  /** A loop begun in `s` has reached `t` after its first `i` turns. */
  ghost predicate MidLoop(cfg: Config, s: State, t: State, turns: seq<Turn>, i: nat)
    requires cfg.Valid() && AtRest(cfg, s)
  {
    && i <= |turns| && AtRest(cfg, t)
    && Legal(cfg, s, LoopSteps(cfg, s, turns[..i])) && t == Run(cfg, s, LoopSteps(cfg, s, turns[..i]))
  }

  lemma MidLoopStart(cfg: Config, s: State, turns: seq<Turn>)
    requires cfg.Valid() && AtRest(cfg, s)
    ensures MidLoop(cfg, s, s, turns, 0)
  {
    RunNothing(cfg, s);
    assert turns[..0] == [];
  }

  lemma MidLoopStep(cfg: Config, s: State, t: State, turns: seq<Turn>, i: nat, k: nat)
    requires cfg.Valid() && AtRest(cfg, s) && MidLoop(cfg, s, t, turns, i) && i < |turns| && k == i + 1
    ensures Legal(cfg, t, TurnSteps(cfg, t, turns[i]))
    ensures MidLoop(cfg, s, Run(cfg, t, TurnSteps(cfg, t, turns[i])), turns, k)
  {
    LoopTurn(cfg, s, t, turns, i);
  }

  // ----- Run from start to end -----

  /** One call of Run: the clean-up, the first replay, the loop's turns, the drain. */
  datatype Life = Life(stuck: set<BatchId>, files: BatchId -> FileEnv, turns: seq<Turn>, drain: nat -> FinalEnv)

  ghost predicate LifeRemoves(life: Life) {
    && (forall x :: life.files(x).removable)
    && (forall k :: 0 <= k < |life.turns| ==> Removes(life.turns[k]))
  }

  ghost function LifeSteps(cfg: Config, s: State, life: Life): seq<Step>
    requires cfg.Valid() && AtRest(cfg, s)
  {
    CleanupRun(cfg, s, life.stuck);
    var clean := CleanupSteps(cfg, s.tmp, life.stuck);
    var a := Run(cfg, s, clean);
    TickRetryRun(cfg, a, life.files);
    var retry := TickRetry(cfg, a, life.files);
    var b := Run(cfg, a, retry);
    LoopRun(cfg, b, life.turns);
    var loop := LoopSteps(cfg, b, life.turns);
    var c := Run(cfg, b, loop);
    clean + (retry + (loop + DrainSteps(cfg, c, life.drain, 0)))
  }

  /** The states a life passes through: after the clean-up, the first replay, the loop and the drain. */
  ghost predicate Stages(cfg: Config, s: State, life: Life, a: State, b: State, c: State, d: State)
    requires cfg.Valid() && AtRest(cfg, s)
  {
    && Legal(cfg, s, CleanupSteps(cfg, s.tmp, life.stuck))
    && a == Run(cfg, s, CleanupSteps(cfg, s.tmp, life.stuck)) && AtRest(cfg, a)
    && Legal(cfg, a, TickRetry(cfg, a, life.files))
    && b == Run(cfg, a, TickRetry(cfg, a, life.files)) && AtRest(cfg, b)
    && Legal(cfg, b, LoopSteps(cfg, b, life.turns))
    && c == Run(cfg, b, LoopSteps(cfg, b, life.turns)) && AtRest(cfg, c)
    && Legal(cfg, c, DrainSteps(cfg, c, life.drain, 0))
    && d == Run(cfg, c, DrainSteps(cfg, c, life.drain, 0))
    && Legal(cfg, s, LifeSteps(cfg, s, life)) && d == Run(cfg, s, LifeSteps(cfg, s, life))
    && d.queue == [] && d.batch == [] && d.book.flight.None?
  }

  /** Every life is a legal run through these stages, and ends empty. */
  lemma LifeStages(cfg: Config, s: State, life: Life) returns (a: State, b: State, c: State, d: State)
    requires cfg.Valid() && AtRest(cfg, s)
    ensures Stages(cfg, s, life, a, b, c, d)
  {
    CleanupRun(cfg, s, life.stuck);
    var clean := CleanupSteps(cfg, s.tmp, life.stuck);
    a := Run(cfg, s, clean);
    TickRetryRun(cfg, a, life.files);
    var retry := TickRetry(cfg, a, life.files);
    b := Run(cfg, a, retry);
    LoopRun(cfg, b, life.turns);
    var loop := LoopSteps(cfg, b, life.turns);
    c := Run(cfg, b, loop);
    DrainRun(cfg, c, life.drain, 0);
    var drain := DrainSteps(cfg, c, life.drain, 0);
    d := Run(cfg, c, drain);
    RunJoin(cfg, a, b, c, retry, loop, drain);
    RunConcat(cfg, s, clean, retry + (loop + drain));
  }
}
