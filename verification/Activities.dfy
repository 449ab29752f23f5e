/**
 * The consumer's life as a sequence of activities, each woven with whatever events arrive between
 * its effects.
 */
module Activities {
  import opened Listings
  import opened Options
  import opened Protocol
  import opened Passes
  import opened Lifetime
  import opened Interruptions

  /**
   * What the loop does between two looks at the queue: clean up, replay, flush, take one event, ship
   * one batch of the drain, or wait.
   */
  datatype Activity =
    | CleanUp(stuck: set<BatchId>)
    | Replay(files: BatchId -> FileEnv)
    | Ship(flush: FlushEnv)
    | ShipFinally(final: FinalEnv)
    | Pull
    | Wait

  /** Between two activities; the batch may be full. */
  ghost predicate Quiet(cfg: Config, s: State) {
    s.book.flight.None? && |s.batch| <= cfg.batchSize && |s.queue| <= 2 * cfg.batchSize
  }

  ghost function ActSteps(cfg: Config, s: State, act: Activity): seq<Step>
    requires cfg.Valid()
  {
    match act
    case CleanUp(stuck) => CleanupSteps(cfg, s.tmp, stuck)
    case Replay(files) => TickRetry(cfg, s, files)
    case Ship(flush) => FlushSteps(cfg, s, flush)
    case ShipFinally(final) => FinalSteps(cfg, s, final)
    case Pull => if s.queue != [] && |s.batch| < cfg.batchSize then [Take] else []
    case Wait => []
  }

  ghost predicate ActRemoves(act: Activity) {
    act.Replay? ==> AllRemovable(act.files)
  }

  lemma ShipRun(cfg: Config, s: State, flush: FlushEnv)
    requires cfg.Valid() && Quiet(cfg, s)
    ensures Legal(cfg, s, FlushSteps(cfg, s, flush)) && Quiet(cfg, Run(cfg, s, FlushSteps(cfg, s, flush)))
  {
    if s.batch == [] {
      RunNothing(cfg, s);
    } else {
      FlushRun(cfg, s, flush);
    }
  }

  lemma ShipFinallyRun(cfg: Config, s: State, final: FinalEnv)
    requires cfg.Valid() && Quiet(cfg, s)
    ensures Legal(cfg, s, FinalSteps(cfg, s, final)) && Quiet(cfg, Run(cfg, s, FinalSteps(cfg, s, final)))
  {
    if s.batch == [] {
      RunNothing(cfg, s);
    } else {
      FinalRun(cfg, s, final);
    }
  }

  lemma ActRun(cfg: Config, s: State, act: Activity)
    requires cfg.Valid() && Quiet(cfg, s)
    ensures Legal(cfg, s, ActSteps(cfg, s, act)) && Quiet(cfg, Run(cfg, s, ActSteps(cfg, s, act)))
  {
    match act
    case CleanUp(stuck) => CleanupRun(cfg, s, stuck);
    case Replay(files) => TickRetryRun(cfg, s, files);
    case Ship(flush) => ShipRun(cfg, s, flush);
    case ShipFinally(final) => ShipFinallyRun(cfg, s, final);
    case Pull =>
      if s.queue != [] && |s.batch| < cfg.batchSize {
        RunOne(cfg, s, Take);
      } else {
        RunNothing(cfg, s);
      }
    case Wait => RunNothing(cfg, s);
  }

  /** The steps of an activity are the consumer's own, and prompt when removals succeed. */
  lemma ActIsPrompt(cfg: Config, s: State, act: Activity)
    requires cfg.Valid()
    ensures Own(ActSteps(cfg, s, act)) && (ActRemoves(act) ==> Prompt(ActSteps(cfg, s, act)))
  {
    match act
    case CleanUp(stuck) =>
      if cfg.spoolDir != "" {
        TmpRemovalsReplayNothing(Listing(cfg.before, s.tmp.Keys - stuck));
      }
    case Replay(files) => TickRetryIsPrompt(cfg, s, files);
    case Ship(flush) => FlushReplaysNothing(cfg, s, flush);
    case ShipFinally(final) => FinalReplaysNothing(cfg, s, final);
    case Pull =>
    case Wait =>
  }

  // ----- activities woven with arrivals -----

  /** An activity and the run it became: its own steps, with the events that arrived among them. */
  datatype Piece = Piece(act: Activity, woven: seq<Step>)

  predicate NoDeath(steps: seq<Step>) {
    forall k :: 0 <= k < |steps| ==> !steps[k].Die?
  }

  ghost predicate Weaves(cfg: Config, s: State, p: Piece)
    requires cfg.Valid()
  {
    Consumed(p.woven) == ActSteps(cfg, s, p.act) && NoDeath(p.woven)
  }

  lemma PieceRun(cfg: Config, s: State, p: Piece)
    requires cfg.Valid() && Quiet(cfg, s) && Weaves(cfg, s, p)
    ensures Legal(cfg, s, p.woven) && Quiet(cfg, Run(cfg, s, p.woven))
  {
    ActRun(cfg, s, p.act);
    var more := ArrivalsCommute(cfg, s, p.woven);
  }

  /** Each activity starts from where the one before it, with its arrivals, has led. */
  ghost predicate Woven(cfg: Config, s: State, pieces: seq<Piece>)
    requires cfg.Valid() && Quiet(cfg, s)
    decreases pieces
  {
    pieces == [] ||
    (Weaves(cfg, s, pieces[0]) &&
     (PieceRun(cfg, s, pieces[0]);
      Woven(cfg, Run(cfg, s, pieces[0].woven), pieces[1..])))
  }

  function Joined(pieces: seq<Piece>): seq<Step>
    decreases pieces
  {
    if pieces == [] then [] else pieces[0].woven + Joined(pieces[1..])
  }

  /** Whatever the activities and the arrivals, the whole is a legal run that ends between two activities. */
  lemma {:induction false} JoinedRun(cfg: Config, s: State, pieces: seq<Piece>)
    requires cfg.Valid() && Quiet(cfg, s) && Woven(cfg, s, pieces)
    ensures Legal(cfg, s, Joined(pieces)) && Quiet(cfg, Run(cfg, s, Joined(pieces)))
    decreases pieces
  {
    if pieces == [] {
      RunNothing(cfg, s);
    } else {
      PieceRun(cfg, s, pieces[0]);
      JoinedRun(cfg, Run(cfg, s, pieces[0].woven), pieces[1..]);
      RunConcat(cfg, s, pieces[0].woven, Joined(pieces[1..]));
    }
  }

  ghost predicate PiecesRemove(pieces: seq<Piece>) {
    forall p :: p in pieces ==> ActRemoves(p.act)
  }

  lemma {:induction false} ConsumedConcat(a: seq<Step>, b: seq<Step>)
    ensures Consumed(a + b) == Consumed(a) + Consumed(b)
    decreases |b|
  {
    if b == [] {
      assert a + b == a;
    } else {
      var init := b[..|b| - 1];
      ConsumedConcat(a, init);
      assert (a + b)[..|a + b| - 1] == a + init;
    }
  }

  /** The consumer's own steps of such a run are prompt when removals succeed. */
  lemma {:induction false} JoinedIsPrompt(cfg: Config, s: State, pieces: seq<Piece>)
    requires cfg.Valid() && Quiet(cfg, s) && Woven(cfg, s, pieces) && PiecesRemove(pieces)
    ensures Prompt(Consumed(Joined(pieces)))
    decreases pieces
  {
    if pieces != [] {
      var p := pieces[0];
      assert p in pieces;
      ActIsPrompt(cfg, s, p.act);
      PieceRun(cfg, s, p);
      assert forall q :: q in pieces[1..] ==> q in pieces;
      JoinedIsPrompt(cfg, Run(cfg, s, p.woven), pieces[1..]);
      ConsumedConcat(p.woven, Joined(pieces[1..]));
      PromptConcat(Consumed(p.woven), Consumed(Joined(pieces[1..])));
    }
  }

  // ----- every life is such a run -----

  /** The steps are those of a sequence of activities from `s`, which remove what they get accepted if asked to. */
  ghost predicate Realised(cfg: Config, s: State, pieces: seq<Piece>, steps: seq<Step>, removes: bool)
    requires cfg.Valid()
  {
    && Quiet(cfg, s) && Woven(cfg, s, pieces) && Joined(pieces) == steps
    && (removes ==> PiecesRemove(pieces))
  }

  lemma {:induction false} OwnIsConsumed(steps: seq<Step>)
    requires Own(steps)
    ensures Consumed(steps) == steps
  {
    if steps != [] {
      OwnIsConsumed(steps[..|steps| - 1]);
    }
  }

  lemma WovenOne(cfg: Config, s: State, p: Piece)
    requires cfg.Valid() && Quiet(cfg, s) && Weaves(cfg, s, p)
    ensures Woven(cfg, s, [p]) && Joined([p]) == p.woven
  {
    PieceRun(cfg, s, p);
    assert [p][1..] == [] && Joined([]) == [];
    assert p.woven + [] == p.woven;
  }

  lemma OneRealised(cfg: Config, s: State, act: Activity, steps: seq<Step>, removes: bool) returns (pieces: seq<Piece>)
    requires cfg.Valid() && Quiet(cfg, s) && steps == ActSteps(cfg, s, act) && (removes ==> ActRemoves(act))
    ensures Realised(cfg, s, pieces, steps, removes)
  {
    ActIsPrompt(cfg, s, act);
    OwnIsConsumed(steps);
    WovenOne(cfg, s, Piece(act, steps));
    pieces := [Piece(act, steps)];
  }

  lemma ArrivalRealised(cfg: Config, s: State, ev: Event, removes: bool) returns (pieces: seq<Piece>)
    requires cfg.Valid() && Quiet(cfg, s)
    ensures Realised(cfg, s, pieces, [Step.Enqueue(ev)], removes)
  {
    var steps := [Step.Enqueue(ev)];
    assert steps[..0] == [] && Consumed(steps) == [];
    WovenOne(cfg, s, Piece(Wait, steps));
    pieces := [Piece(Wait, steps)];
  }

  /** The rest of a woven run, taken from where its first piece leads. */
  lemma AfterFirst(cfg: Config, s: State, a: seq<Piece>) returns (t: State)
    requires cfg.Valid() && Quiet(cfg, s) && Woven(cfg, s, a) && a != []
    ensures Legal(cfg, s, a[0].woven) && t == Run(cfg, s, a[0].woven) && Quiet(cfg, t) && Woven(cfg, t, a[1..])
    ensures Legal(cfg, t, Joined(a[1..])) && Legal(cfg, s, Joined(a))
    ensures Run(cfg, s, Joined(a)) == Run(cfg, t, Joined(a[1..]))
  {
    PieceRun(cfg, s, a[0]);
    t := Run(cfg, s, a[0].woven);
    JoinedRun(cfg, t, a[1..]);
    RunConcat(cfg, s, a[0].woven, Joined(a[1..]));
  }

  lemma WovenCons(cfg: Config, s: State, p: Piece, rest: seq<Piece>)
    requires cfg.Valid() && Quiet(cfg, s) && Weaves(cfg, s, p)
    requires Legal(cfg, s, p.woven) && Quiet(cfg, Run(cfg, s, p.woven)) && Woven(cfg, Run(cfg, s, p.woven), rest)
    ensures Woven(cfg, s, [p] + rest) && Joined([p] + rest) == p.woven + Joined(rest)
  {
    assert ([p] + rest)[1..] == rest;
  }

  lemma {:induction false} JoinedConcat(cfg: Config, s: State, a: seq<Piece>, b: seq<Piece>)
    requires cfg.Valid() && Quiet(cfg, s) && Woven(cfg, s, a)
    requires Legal(cfg, s, Joined(a)) && Quiet(cfg, Run(cfg, s, Joined(a))) && Woven(cfg, Run(cfg, s, Joined(a)), b)
    ensures Woven(cfg, s, a + b) && Joined(a + b) == Joined(a) + Joined(b)
    decreases a
  {
    if a == [] {
      assert a + b == b;
    } else {
      var t := AfterFirst(cfg, s, a);
      JoinedConcat(cfg, t, a[1..], b);
      ConsConcat(a, b);
      WovenCons(cfg, s, a[0], a[1..] + b);
      ConcatAssociative(a[0].woven, Joined(a[1..]), Joined(b));
    }
  }

  lemma ThenRealised(cfg: Config, s: State, t: State, a: seq<Piece>, x: seq<Step>, b: seq<Piece>, y: seq<Step>,
                     removes: bool)
    requires cfg.Valid() && Realised(cfg, s, a, x, removes)
    requires Legal(cfg, s, x) && t == Run(cfg, s, x) && Realised(cfg, t, b, y, removes)
    ensures Realised(cfg, s, a + b, x + y, removes)
  {
    JoinedConcat(cfg, s, a, b);
  }

  lemma TakeRealised(cfg: Config, s: State, removes: bool) returns (pieces: seq<Piece>, t: State)
    requires cfg.Valid() && Quiet(cfg, s) && s.queue != [] && |s.batch| < cfg.batchSize
    ensures Realised(cfg, s, pieces, [Take], removes)
    ensures Legal(cfg, s, [Take]) && t == Run(cfg, s, [Take]) && Quiet(cfg, t)
    ensures |t.queue| == |s.queue| - 1 && |t.batch| == |s.batch| + 1
  {
    pieces := OneRealised(cfg, s, Pull, [Take], removes);
    RunOne(cfg, s, Take);
    t := Next(cfg, s, Take);
  }

  lemma PumpRealised(cfg: Config, s: State, flush: FlushEnv, removes: bool) returns (pieces: seq<Piece>)
    requires cfg.Valid() && AtRest(cfg, s) && Quiet(cfg, s) && s.queue != []
    ensures Realised(cfg, s, pieces, TurnSteps(cfg, s, Pump(flush)), removes)
  {
    var taking, a := TakeRealised(cfg, s, removes);
    RunOne(cfg, s, Take);
    var full := |a.batch| >= cfg.batchSize;
    var after := if full then FlushSteps(cfg, a, flush) else [];
    var rest := OneRealised(cfg, a, if full then Ship(flush) else Wait, after, removes);
    ThenRealised(cfg, s, a, taking, [Take], rest, after, removes);
    pieces := taking + rest;
  }

  lemma TickRealised(cfg: Config, s: State, files: BatchId -> FileEnv, flush: FlushEnv, removes: bool)
    returns (pieces: seq<Piece>)
    requires cfg.Valid() && AtRest(cfg, s) && Quiet(cfg, s) && (removes ==> AllRemovable(files))
    ensures Realised(cfg, s, pieces, TurnSteps(cfg, s, Tick(files, flush)), removes)
  {
    TickRetryRun(cfg, s, files);
    var retry := TickRetry(cfg, s, files);
    var a := Run(cfg, s, retry);
    var first := OneRealised(cfg, s, Replay(files), retry, removes);
    var second := OneRealised(cfg, a, Ship(flush), FlushSteps(cfg, a, flush), removes);
    ThenRealised(cfg, s, a, first, retry, second, FlushSteps(cfg, a, flush), removes);
    pieces := first + second;
  }

  lemma TurnRealised(cfg: Config, s: State, turn: Turn, removes: bool) returns (pieces: seq<Piece>)
    requires cfg.Valid() && AtRest(cfg, s) && Quiet(cfg, s) && (removes ==> Removes(turn))
    ensures Realised(cfg, s, pieces, TurnSteps(cfg, s, turn), removes)
  {
    match turn
    case Arrive(ev) => pieces := ArrivalRealised(cfg, s, ev, removes);
    case Pump(flush) =>
      if s.queue == [] {
        pieces := OneRealised(cfg, s, Wait, [], removes);
      } else {
        pieces := PumpRealised(cfg, s, flush, removes);
      }
    case Tick(files, flush) => pieces := TickRealised(cfg, s, files, flush, removes);
  }

  lemma {:induction false} LoopRealised(cfg: Config, s: State, turns: seq<Turn>, removes: bool)
    returns (pieces: seq<Piece>)
    requires cfg.Valid() && AtRest(cfg, s) && Quiet(cfg, s)
    requires removes ==> forall k :: 0 <= k < |turns| ==> Removes(turns[k])
    ensures Realised(cfg, s, pieces, LoopSteps(cfg, s, turns), removes)
    decreases turns
  {
    if turns == [] {
      pieces := OneRealised(cfg, s, Wait, [], removes);
    } else {
      var init, turn := turns[..|turns| - 1], turns[|turns| - 1];
      var before := LoopRealised(cfg, s, init, removes);
      LoopRun(cfg, s, init);
      JoinedRun(cfg, s, before);
      var a := Run(cfg, s, LoopSteps(cfg, s, init));
      var last := TurnRealised(cfg, a, turn, removes);
      ThenRealised(cfg, s, a, before, LoopSteps(cfg, s, init), last, TurnSteps(cfg, a, turn), removes);
      pieces := before + last;
    }
  }

  lemma TakesCons(n: nat, fewer: nat)
    requires n == fewer + 1
    ensures Takes(n) == [Take] + Takes(fewer)
  {
  }

  lemma {:induction false} TakesRealised(cfg: Config, s: State, n: nat, removes: bool) returns (pieces: seq<Piece>)
    requires cfg.Valid() && Quiet(cfg, s) && n <= |s.queue| && |s.batch| + n <= cfg.batchSize
    ensures Realised(cfg, s, pieces, Takes(n), removes)
    decreases n
  {
    if n == 0 {
      pieces := OneRealised(cfg, s, Wait, [], removes);
    } else {
      var one, t := TakeRealised(cfg, s, removes);
      var fewer := n - 1;
      var rest := TakesRealised(cfg, t, fewer, removes);
      TakesCons(n, fewer);
      ThenRealised(cfg, s, t, one, [Take], rest, Takes(fewer), removes);
      pieces := one + rest;
    }
  }

  lemma RoundRealised(cfg: Config, s: State, e: FinalEnv, removes: bool) returns (pieces: seq<Piece>)
    requires cfg.Valid() && Quiet(cfg, s) && Backlog(s) > 0
    ensures Realised(cfg, s, pieces, RoundSteps(cfg, s, e), removes)
  {
    RoundRun(cfg, s, e);
    var takes, filled := Takes(DrainTakes(cfg, s)), Filled(cfg, s);
    var first := TakesRealised(cfg, s, DrainTakes(cfg, s), removes);
    var second := OneRealised(cfg, filled, ShipFinally(e), FinalSteps(cfg, filled, e), removes);
    ThenRealised(cfg, s, filled, first, takes, second, FinalSteps(cfg, filled, e), removes);
    pieces := first + second;
  }

  lemma {:induction false} DrainRealised(cfg: Config, s: State, envs: nat -> FinalEnv, i: nat, removes: bool)
    returns (pieces: seq<Piece>)
    requires cfg.Valid() && Quiet(cfg, s)
    ensures Realised(cfg, s, pieces, DrainSteps(cfg, s, envs, i), removes)
    decreases Backlog(s)
  {
    if Backlog(s) == 0 {
      pieces := OneRealised(cfg, s, Wait, [], removes);
    } else {
      RoundRun(cfg, s, envs(i));
      var round := RoundSteps(cfg, s, envs(i));
      var t := Run(cfg, s, round);
      var first := RoundRealised(cfg, s, envs(i), removes);
      var rest := DrainRealised(cfg, t, envs, i + 1, removes);
      ThenRealised(cfg, s, t, first, round, rest, DrainSteps(cfg, t, envs, i + 1), removes);
      pieces := first + rest;
    }
  }

  /** A life of the process, from start-up to the end of the drain, is a sequence of activities. */
  lemma LifeRealised(cfg: Config, s: State, life: Life) returns (pieces: seq<Piece>)
    requires cfg.Valid() && AtRest(cfg, s) && Quiet(cfg, s)
    ensures Realised(cfg, s, pieces, LifeSteps(cfg, s, life), LifeRemoves(life))
  {
    var removes := LifeRemoves(life);
    var a, b, c, d := LifeStages(cfg, s, life);
    var clean, retry := CleanupSteps(cfg, s.tmp, life.stuck), TickRetry(cfg, a, life.files);
    var loop, drain := LoopSteps(cfg, b, life.turns), DrainSteps(cfg, c, life.drain, 0);
    var cleaning := OneRealised(cfg, s, CleanUp(life.stuck), clean, removes);
    JoinedRun(cfg, s, cleaning);
    var replaying := OneRealised(cfg, a, Replay(life.files), retry, removes);
    JoinedRun(cfg, a, replaying);
    var looping := LoopRealised(cfg, b, life.turns, removes);
    JoinedRun(cfg, b, looping);
    var draining := DrainRealised(cfg, c, life.drain, 0, removes);
    ThenRealised(cfg, b, c, looping, loop, draining, drain, removes);
    ThenRealised(cfg, a, b, replaying, retry, looping + draining, loop + drain, removes);
    ThenRealised(cfg, s, a, cleaning, clean, replaying + (looping + draining), retry + (loop + drain), removes);
    pieces := cleaning + (replaying + (looping + draining));
  }
}
