/**
 * What a flush, a replay and a turn of the loop achieve, read off the states before and after them and
 * the status codes that came back.
 */
module Shipping {
  import opened Listings
  import opened Options
  import opened Protocol
  import opened Passes
  import opened Lifetime

  // ----- what is closed and sent -----

  /** The log only grows. */
  lemma {:induction false} LogGrows(cfg: Config, s: State, steps: seq<Step>)
    requires Legal(cfg, s, steps)
    ensures s.book.log <= Run(cfg, s, steps).book.log
    decreases steps
  {
    if steps != [] {
      LogGrows(cfg, Next(cfg, s, steps[0]), steps[1..]);
    }
  }

  /** One record more, holding these events; none if there are none. */
  ghost predicate Closes(s: State, t: State, events: seq<Event>) {
    if events == [] then t.book.records == s.book.records
    else
      && |t.book.records| == |s.book.records| + 1 && s.book.records <= t.book.records
      && var r := t.book.records[|s.book.records|];
         !r.Abandoned? && EventsOf(r) == events
  }

  /** The file was sent between these two states. */
  ghost predicate SentSince(s: State, t: State, id: BatchId, reply: Reply)
    requires |s.book.log| <= |t.book.log|
  {
    id in s.spool && Transmission(id, s.spool[id], reply) in t.book.log[|s.book.log|..]
  }

  /** The files before which fewer than three fail transiently, and that may be sent, are in the log. */
  ghost predicate SendsListed(s: State, t: State, listed: seq<BatchId>, files: BatchId -> FileEnv)
    requires |s.book.log| <= |t.book.log|
  {
    forall i :: 0 <= i < |listed| && TransientCount(listed[..i], files) < 3
                && files(listed[i]).owned && files(listed[i]).readable ==>
      SentSince(s, t, listed[i], files(listed[i]).reply)
  }

  ghost predicate SendsSpooled(cfg: Config, s: State, t: State, files: BatchId -> FileEnv)
    requires StrictTotal(cfg.before) && |s.book.log| <= |t.book.log|
  {
    cfg.spoolDir != "" ==> SendsListed(s, t, Listing(cfg.before, s.spool.Keys), files)
  }

  /**
   * A turn, by its effects.  A producer adds its event while there is room.  An event that is taken
   * closes a batch if and only if it fills it.  A tick replays the spool and ships whatever is batched.
   */
  ghost predicate Turned(cfg: Config, s: State, t: State, turn: Turn)
    requires StrictTotal(cfg.before) && |s.book.log| <= |t.book.log|
  {
    match turn
    case Arrive(ev) =>
      && t.queue == s.queue + (if |s.queue| < 2 * cfg.batchSize then [ev] else [])
      && t.batch == s.batch && t.book.records == s.book.records
    case Pump(_) =>
      if s.queue == [] then t == s
      else
        var b := s.batch + [s.queue[0]];
        && t.queue == s.queue[1..]
        && if |b| == cfg.batchSize then t.batch == [] && Closes(s, t, b)
           else t.batch == b && t.book.records == s.book.records
    case Tick(files, _) =>
      t.queue == s.queue && t.batch == [] && Closes(s, t, s.batch) && SendsSpooled(cfg, s, t, files)
  }

  lemma FlushCloses(cfg: Config, s: State, e: FlushEnv)
    requires StrictTotal(cfg.before) && s.book.flight.None?
    ensures Legal(cfg, s, FlushSteps(cfg, s, e))
    ensures var t := Run(cfg, s, FlushSteps(cfg, s, e));
      t.queue == s.queue && t.batch == [] && Closes(s, t, s.batch)
  {
    if s.batch == [] {
      RunNothing(cfg, s);
    } else {
      FlushRun(cfg, s, e);
    }
  }

  lemma {:induction false} SentHas(spool: Spool, files: seq<BatchId>, env: BatchId -> FileEnv, i: nat)
    requires (forall x :: x in files ==> x in spool) && i < |files|
    requires env(files[i]).owned && env(files[i]).readable
    ensures files[i] in files
    ensures Transmission(files[i], spool[files[i]], env(files[i]).reply) in Sent(spool, files, env)
    decreases |files|
  {
    assert files[0] in files;
    if i > 0 {
      assert forall x :: x in files[1..] ==> x in files;
      SentHas(spool, files[1..], env, i - 1);
    }
  }

  lemma PassSends(s: State, t: State, files: seq<BatchId>, env: BatchId -> FileEnv, n: nat, i: nat)
    requires AfterPass(s, t, files, env, 0, n) && i < n
    requires env(files[i]).owned && env(files[i]).readable
    ensures s.book.log <= t.book.log && SentSince(s, t, files[i], env(files[i]).reply)
  {
    var visited := files[0..n];
    assert visited[i] == files[i];
    SentHas(s.spool, visited, env, i);
    assert t.book.log[|s.book.log|..] == Sent(s.spool, visited, env);
  }

  lemma PassSendsListed(s: State, t: State, listed: seq<BatchId>, files: BatchId -> FileEnv)
    requires AfterPass(s, t, listed, files, 0, Visited(listed, files, 0)) && |s.book.log| <= |t.book.log|
    ensures SendsListed(s, t, listed, files)
  {
    forall i | 0 <= i < |listed| && TransientCount(listed[..i], files) < 3
               && files(listed[i]).owned && files(listed[i]).readable
      ensures SentSince(s, t, listed[i], files(listed[i]).reply)
    {
      VisitedIff(listed, files, i);
      PassSends(s, t, listed, files, Visited(listed, files, 0), i);
    }
  }

  lemma TickVisits(cfg: Config, s: State, listed: seq<BatchId>, files: BatchId -> FileEnv)
    requires StrictTotal(cfg.before) && s.book.flight.None? && cfg.spoolDir != ""
    requires listed == Listing(cfg.before, s.spool.Keys)
    ensures Legal(cfg, s, TickRetry(cfg, s, files))
    ensures AfterPass(s, Run(cfg, s, TickRetry(cfg, s, files)), listed, files, 0, Visited(listed, files, 0))
  {
    WholeSlice(listed);
    PendingStart(cfg, listed, s.spool);
    RetryPass(cfg, s, listed, files, 0, 0);
    assert 0 + Visited(listed, files, 0) == Visited(listed, files, 0);
  }

  lemma TickSends(cfg: Config, s: State, files: BatchId -> FileEnv)
    requires StrictTotal(cfg.before) && s.book.flight.None?
    ensures Legal(cfg, s, TickRetry(cfg, s, files))
    ensures var t := Run(cfg, s, TickRetry(cfg, s, files));
      s.book.log <= t.book.log && SendsSpooled(cfg, s, t, files)
  {
    TickRetryRun(cfg, s, files);
    LogGrows(cfg, s, TickRetry(cfg, s, files));
    if cfg.spoolDir != "" {
      var listed := Listing(cfg.before, s.spool.Keys);
      TickVisits(cfg, s, listed, files);
      PassSendsListed(s, Run(cfg, s, TickRetry(cfg, s, files)), listed, files);
    }
  }

  lemma LaterLogHas(log: seq<Transmission>, mid: seq<Transmission>, end: seq<Transmission>)
    requires log <= mid <= end
    ensures forall x :: x in mid[|log|..] ==> x in end[|log|..]
  {
    assert end[|log|..] == mid[|log|..] + end[|mid|..];
  }

  lemma LaterSends(cfg: Config, s: State, b: State, t: State, files: BatchId -> FileEnv)
    requires StrictTotal(cfg.before) && s.book.log <= b.book.log <= t.book.log
    requires SendsSpooled(cfg, s, b, files)
    ensures SendsSpooled(cfg, s, t, files)
  {
    LaterLogHas(s.book.log, b.book.log, t.book.log);
  }

  lemma TickTurns(cfg: Config, s: State, files: BatchId -> FileEnv, flush: FlushEnv)
    requires cfg.Valid() && AtRest(cfg, s)
    ensures Legal(cfg, s, TurnSteps(cfg, s, Tick(files, flush)))
    ensures var t := Run(cfg, s, TurnSteps(cfg, s, Tick(files, flush)));
      |s.book.log| <= |t.book.log| && Turned(cfg, s, t, Tick(files, flush))
  {
    TickSends(cfg, s, files);
    TickRetryRun(cfg, s, files);
    var retry := TickRetry(cfg, s, files);
    var a := Run(cfg, s, retry);
    FlushCloses(cfg, a, flush);
    RunConcat(cfg, s, retry, FlushSteps(cfg, a, flush));
    var t := Run(cfg, a, FlushSteps(cfg, a, flush));
    LogGrows(cfg, a, FlushSteps(cfg, a, flush));
    LaterLogHas(s.book.log, a.book.log, t.book.log);
  }

  lemma PumpTurns(cfg: Config, s: State, flush: FlushEnv)
    requires cfg.Valid() && AtRest(cfg, s)
    ensures Legal(cfg, s, TurnSteps(cfg, s, Pump(flush)))
    ensures var t := Run(cfg, s, TurnSteps(cfg, s, Pump(flush)));
      |s.book.log| <= |t.book.log| && Turned(cfg, s, t, Pump(flush))
  {
    TurnRun(cfg, s, Pump(flush));
    LogGrows(cfg, s, TurnSteps(cfg, s, Pump(flush)));
    if s.queue != [] {
      var a := Next(cfg, s, Take);
      if |a.batch| >= cfg.batchSize {
        FlushCloses(cfg, a, flush);
        RunCons(cfg, s, Take, FlushSteps(cfg, a, flush));
      } else {
        RunOne(cfg, s, Take);
        ConcatNothing([Take]);
      }
    }
  }

  /** Every turn of the loop has these effects. */
  lemma TurnEffects(cfg: Config, s: State, turn: Turn)
    requires cfg.Valid() && AtRest(cfg, s)
    ensures Legal(cfg, s, TurnSteps(cfg, s, turn))
    ensures var t := Run(cfg, s, TurnSteps(cfg, s, turn));
      |s.book.log| <= |t.book.log| && Turned(cfg, s, t, turn)
  {
    match turn
    case Arrive(ev) =>
      RunOne(cfg, s, Step.Enqueue(ev));
      assert s.queue + [] == s.queue;
    case Pump(flush) => PumpTurns(cfg, s, flush);
    case Tick(files, flush) => TickTurns(cfg, s, files, flush);
  }

  // ----- the byte budget -----

  /** The bytes of the payloads in these files. */
  function DiskBytes(spool: Spool, files: seq<BatchId>): nat {
    if files == [] then 0
    else (if files[0] in spool && spool[files[0]].Whole? then spool[files[0]].payload.bytes else 0)
         + DiskBytes(spool, files[1..])
  }

  lemma {:induction false} MeasuredInBytes(spool: Spool, files: seq<BatchId>, blind: set<BatchId>)
    requires blind == {}
    ensures TotalSize(spool, files, blind) == DiskBytes(spool, files)
    decreases |files|
  {
    if files != [] {
      MeasuredInBytes(spool, files[1..], blind);
    }
  }

  /** The first `m` files go, the others are as many of the last as fit. */
  ghost predicate Fits(spool: Spool, files: seq<BatchId>, m: nat, budget: nat) {
    && m <= |files| && DiskBytes(spool, files[m..]) <= budget
    && forall k :: 0 <= k < m ==> DiskBytes(spool, files[k..]) > budget
  }

  lemma KeptFits(spool: Spool, files: seq<BatchId>, budget: nat, blind: set<BatchId>)
    requires blind == {}
    ensures Fits(spool, files, FirstKept(spool, files, 0, budget, blind), budget)
  {
    forall k | 0 <= k <= |files|
      ensures TotalSize(spool, files[k..], blind) == DiskBytes(spool, files[k..])
    {
      MeasuredInBytes(spool, files[k..], blind);
    }
  }

  /** The last files that fit, by name, and as many of them as fit. */
  ghost predicate WithinBudget(cfg: Config, full: Spool, left: Spool)
    requires StrictTotal(cfg.before)
  {
    var files := Listing(cfg.before, full.Keys);
    exists m: nat :: Fits(full, files, m, cfg.budget) && left == full - ToSet(files[..m])
  }

  lemma VictimsByBytes(cfg: Config, spool: Spool, e: SpoolEnv)
    requires StrictTotal(cfg.before) && e.stuck == {} && e.blind == {}
    ensures WithinBudget(cfg, spool, spool - ToSet(TrimVictims(cfg, spool, e)))
  {
    var files := Listing(cfg.before, spool.Keys);
    var m := FirstKept(spool, files, 0, cfg.budget, e.blind);
    WholeSlice(files);
    TrimKeepsLongestSuffix(spool, files, 0, cfg.budget, e);
    KeptFits(spool, files, cfg.budget, e.blind);
    assert files[0..m] == files[..m];
  }

  /**
   * When every file can be measured and removed, a trim leaves the most recent files, by name, whose
   * payloads fit the budget, and as many of them as fit.
   */
  lemma TrimByBytes(cfg: Config, s: State, e: SpoolEnv)
    requires StrictTotal(cfg.before) && s.book.flight.None? && e.stuck == {} && e.blind == {}
    ensures Legal(cfg, s, TrimSteps(cfg, s.spool, e))
    ensures WithinBudget(cfg, s.spool, Run(cfg, s, TrimSteps(cfg, s.spool, e)).spool)
  {
    TrimRun(cfg, s, e);
    VictimsByBytes(cfg, s.spool, e);
  }

  // ----- by status code -----

  /** The receiver took it: a status below 400. */
  predicate Taken(r: Reply) {
    r.Status? && r.code < 400
  }

  /** The receiver will never take it: a 4xx other than 408 and 429. */
  predicate Refused(r: Reply) {
    r.Status? && 400 <= r.code <= 499 && r.code != 408 && r.code != 429
  }

  lemma CodesDecide(r: Reply)
    ensures Failed(r) <==> !Taken(r)
    ensures IsPermanentFailure(r) <==> Refused(r)
  {
  }

  /** What counts towards the three failures that end a pass. */
  lemma TransientByCode(e: FileEnv)
    ensures Transient(e) <==> e.owned && e.readable && !Taken(e.reply) && !Refused(e.reply)
  {
    CodesDecide(e.reply);
  }

  ghost predicate DiskWorks(cfg: Config, e: SpoolEnv) {
    cfg.spoolDir != "" && e.mkdirOk && e.write == Written && e.renameOk
  }

  lemma {:induction false} EvictedAreNamed(dropped: map<BatchId, Cause>, ids: seq<BatchId>, id: BatchId)
    requires id in ids || (id in dropped && dropped[id] == Evicted)
    ensures id in DropAll(dropped, ids) && DropAll(dropped, ids)[id] == Evicted
    decreases ids
  {
    if ids != [] {
      EvictedAreNamed(dropped[ids[0] := Evicted], ids[1..], id);
    }
  }

  /** The batch is whole on disk, or evicted by name. */
  ghost predicate OnDiskOrEvicted(t: State, id: BatchId, payload: Payload) {
    || (id in t.spool && t.spool[id] == Whole(payload))
    || (id in t.book.dropped && t.book.dropped[id] == Evicted)
  }

  /** Nothing goes while everything fits. */
  ghost predicate StaysWhileRoom(cfg: Config, s: State, t: State, full: Spool, blind: set<BatchId>)
    requires StrictTotal(cfg.before)
  {
    TotalSize(full, Listing(cfg.before, full.Keys), blind) <= cfg.budget ==>
      t.spool == full && t.book.dropped == s.book.dropped
  }

  /** A spooled batch, and the directory after the trim that follows it. */
  ghost predicate Spooled(cfg: Config, s: State, t: State, id: BatchId, payload: Payload, e: SpoolEnv)
    requires StrictTotal(cfg.before)
  {
    var full := s.spool[id := Whole(payload)];
    && OnDiskOrEvicted(t, id, payload) && StaysWhileRoom(cfg, s, t, full, e.blind)
    && (e.stuck == {} && e.blind == {} ==> WithinBudget(cfg, full, t.spool))
  }

  lemma KeptOrEvicted(cfg: Config, s: State, t: State, id: BatchId, payload: Payload, e: SpoolEnv)
    requires StrictTotal(cfg.before) && Kept(cfg, s, t, id, payload, e)
    ensures OnDiskOrEvicted(t, id, payload)
  {
    var gone := TrimVictims(cfg, s.spool[id := Whole(payload)], e);
    if id in gone {
      EvictedAreNamed(s.book.dropped, gone, id);
    }
  }

  lemma KeptWhileRoom(cfg: Config, s: State, t: State, id: BatchId, payload: Payload, e: SpoolEnv)
    requires StrictTotal(cfg.before) && Kept(cfg, s, t, id, payload, e)
    ensures StaysWhileRoom(cfg, s, t, s.spool[id := Whole(payload)], e.blind)
  {
    var full := s.spool[id := Whole(payload)];
    if TrimVictims(cfg, full, e) == [] {
      assert full - ToSet([]) == full;
    }
  }

  lemma KeptIsSpooled(cfg: Config, s: State, t: State, id: BatchId, payload: Payload, e: SpoolEnv)
    requires StrictTotal(cfg.before) && Kept(cfg, s, t, id, payload, e)
    ensures Spooled(cfg, s, t, id, payload, e)
  {
    KeptOrEvicted(cfg, s, t, id, payload, e);
    KeptWhileRoom(cfg, s, t, id, payload, e);
    if e.stuck == {} && e.blind == {} {
      VictimsByBytes(cfg, s.spool[id := Whole(payload)], e);
    }
  }

  /** What becomes of a sealed batch after its last reply. */
  ghost predicate SettledByCode(cfg: Config, s: State, t: State, id: BatchId, payload: Payload, last: Reply,
                                e: SpoolEnv)
    requires StrictTotal(cfg.before)
  {
    if Taken(last) then t.spool == s.spool && t.book.dropped == s.book.dropped
    else if Refused(last) then t.spool == s.spool && t.book.dropped == s.book.dropped[id := Rejected]
    else if DiskWorks(cfg, e) then Spooled(cfg, s, t, id, payload, e)
    else t.spool == s.spool && t.book.dropped == s.book.dropped[id := NotSpooled]
  }

  lemma EndedByCode(cfg: Config, s: State, t: State, id: BatchId, payload: Payload, r: Reply, e: SpoolEnv)
    requires StrictTotal(cfg.before) && Ended(cfg, s, t, id, payload, r, e)
    ensures SettledByCode(cfg, s, t, id, payload, r, e)
  {
    CodesDecide(r);
    if !Taken(r) && !Refused(r) && DiskWorks(cfg, e) {
      KeptIsSpooled(cfg, s, t, id, payload, e);
    }
  }

  /**
   * A flush by status codes.  A batch is sent again, once, if the first reply was neither below 400
   * nor a 4xx other than 408 and 429 and the process is not stopping.  What comes back last decides: no
   * reply, 408, 429 and 5xx keep the batch, the other 4xx give it up.
   */
  lemma FlushByCode(cfg: Config, s: State, e: FlushEnv)
    requires StrictTotal(cfg.before) && s.book.flight.None? && s.batch != [] && e.encoded.Some?
    ensures Legal(cfg, s, FlushSteps(cfg, s, e))
    ensures var t := Run(cfg, s, FlushSteps(cfg, s, e));
      var id, payload := cfg.id(s.minted), Payload(s.batch, e.encoded.value);
      var once := Taken(e.first) || Refused(e.first) || e.cancelled;
      && t.book.log == s.book.log + (if once then [Transmission(id, Whole(payload), e.first)]
                                     else [Transmission(id, Whole(payload), e.first),
                                           Transmission(id, Whole(payload), e.second)])
      && SettledByCode(cfg, s, t, id, payload, if once then e.first else e.second, e.spool)
  {
    FlushRun(cfg, s, e);
    var id, payload := cfg.id(s.minted), Payload(s.batch, e.encoded.value);
    CodesDecide(e.first);
    TransmissionsAre(id, payload, e.first, e.second);
    var once := Taken(e.first) || Refused(e.first) || e.cancelled;
    EndedByCode(cfg, s, Run(cfg, s, FlushSteps(cfg, s, e)), id, payload, if once then e.first else e.second, e.spool);
  }

  /** The shutdown variant: one transmission, or none when the budget is used up, and then the disk. */
  lemma FinalByCode(cfg: Config, s: State, e: FinalEnv)
    requires StrictTotal(cfg.before) && s.book.flight.None? && s.batch != [] && e.encoded.Some?
    ensures Legal(cfg, s, FinalSteps(cfg, s, e))
    ensures var t := Run(cfg, s, FinalSteps(cfg, s, e));
      var id, payload := cfg.id(s.minted), Payload(s.batch, e.encoded.value);
      && t.book.log == s.book.log + (if e.expired then [] else [Transmission(id, Whole(payload), e.reply)])
      && SettledByCode(cfg, s, t, id, payload, if e.expired then NoReply else e.reply, e.spool)
  {
    FinalRun(cfg, s, e);
    var id, payload := cfg.id(s.minted), Payload(s.batch, e.encoded.value);
    TransmissionsAre(id, payload, e.reply, e.reply);
    var last := if e.expired then NoReply else e.reply;
    EndedByCode(cfg, s, Run(cfg, s, FinalSteps(cfg, s, e)), id, payload, last, e.spool);
  }

  /**
   * The replay of one file by status code: only an own, readable file is sent; no reply, 408, 429 and 5xx
   * keep it; every other outcome removes it if it can be removed.
   */
  lemma ReplayByCode(cfg: Config, s: State, id: BatchId, e: FileEnv)
    requires s.book.flight.None? && id in s.spool
    ensures Legal(cfg, s, ReplaySteps(id, e))
    ensures var t := Run(cfg, s, ReplaySteps(id, e));
      var sent := e.owned && e.readable;
      var kept := (sent && !Taken(e.reply) && !Refused(e.reply)) || !e.removable;
      && t.book.log == s.book.log + (if sent then [Transmission(id, s.spool[id], e.reply)] else [])
      && t.spool == (if kept then s.spool else s.spool - {id})
      && t.book.dropped ==
           (if kept || (sent && Taken(e.reply)) then s.book.dropped
            else s.book.dropped[id := if !e.owned then Foreign else if !e.readable then Unreadable else ReplayRejected])
  {
    ReplayRun(cfg, s, id, e);
    CodesDecide(e.reply);
  }

  // ----- many turns -----

  predicate Pumps(turns: seq<Turn>) {
    forall k :: 0 <= k < |turns| ==> turns[k].Pump?
  }

  lemma LastTurn(cfg: Config, s: State, turns: seq<Turn>) returns (a: State)
    requires cfg.Valid() && AtRest(cfg, s) && turns != []
    ensures var init, turn := turns[..|turns| - 1], turns[|turns| - 1];
      && Legal(cfg, s, LoopSteps(cfg, s, init)) && a == Run(cfg, s, LoopSteps(cfg, s, init)) && AtRest(cfg, a)
      && Legal(cfg, a, TurnSteps(cfg, a, turn)) && Legal(cfg, s, LoopSteps(cfg, s, turns))
      && Run(cfg, s, LoopSteps(cfg, s, turns)) == Run(cfg, a, TurnSteps(cfg, a, turn))
  {
    var init := turns[..|turns| - 1];
    LoopRun(cfg, s, init);
    a := Run(cfg, s, LoopSteps(cfg, s, init));
    LoopTurn(cfg, s, a, turns, |turns| - 1);
    assert turns[..|turns|] == turns;
  }

  lemma {:induction false} PumpsTake(cfg: Config, s: State, turns: seq<Turn>)
    requires cfg.Valid() && AtRest(cfg, s) && Pumps(turns)
    ensures Legal(cfg, s, LoopSteps(cfg, s, turns))
    ensures |Run(cfg, s, LoopSteps(cfg, s, turns)).queue|
            == if |turns| <= |s.queue| then |s.queue| - |turns| else 0
    decreases |turns|
  {
    if turns != [] {
      var init := turns[..|turns| - 1];
      PumpsTake(cfg, s, init);
      var a := LastTurn(cfg, s, turns);
      TurnEffects(cfg, a, turns[|turns| - 1]);
    } else {
      RunNothing(cfg, s);
    }
  }

  /** As many turns of the queue as events wait, and one tick: nothing waits in memory any longer. */
  lemma PumpsThenTickShipAll(cfg: Config, s: State, turns: seq<Turn>)
    requires cfg.Valid() && AtRest(cfg, s) && turns != []
    requires Pumps(turns[..|turns| - 1]) && turns[|turns| - 1].Tick? && |s.queue| < |turns|
    ensures Legal(cfg, s, LoopSteps(cfg, s, turns))
    ensures var t := Run(cfg, s, LoopSteps(cfg, s, turns));
      t.queue == [] && t.batch == []
  {
    var a := LastTurn(cfg, s, turns);
    PumpsTake(cfg, s, turns[..|turns| - 1]);
    TurnEffects(cfg, a, turns[|turns| - 1]);
  }

  // ----- a whole life -----

  /**
   * A life first sends what it finds on disk: every own, readable file before which fewer than three
   * fail transiently.  It ends with nothing waiting in memory.
   */
  lemma LifeEffects(cfg: Config, s: State, life: Life)
    requires cfg.Valid() && AtRest(cfg, s)
    ensures Legal(cfg, s, LifeSteps(cfg, s, life))
    ensures var t := Run(cfg, s, LifeSteps(cfg, s, life));
      t.queue == [] && t.batch == [] && s.book.log <= t.book.log && SendsSpooled(cfg, s, t, life.files)
  {
    var a, b, c, d := LifeStages(cfg, s, life);
    StagesSend(cfg, s, a, b, c, d, life);
  }

  lemma StagesSend(cfg: Config, s: State, a: State, b: State, c: State, d: State, life: Life)
    requires cfg.Valid() && AtRest(cfg, s) && Stages(cfg, s, life, a, b, c, d)
    ensures s.book.log <= d.book.log && SendsSpooled(cfg, s, d, life.files)
  {
    FirstReplaySends(cfg, s, a, life);
    LogGrows(cfg, b, LoopSteps(cfg, b, life.turns));
    LogGrows(cfg, c, DrainSteps(cfg, c, life.drain, 0));
    LaterSends(cfg, s, b, d, life.files);
  }

  lemma FirstReplaySends(cfg: Config, s: State, a: State, life: Life)
    requires cfg.Valid() && AtRest(cfg, s)
    requires Legal(cfg, s, CleanupSteps(cfg, s.tmp, life.stuck)) && a == Run(cfg, s, CleanupSteps(cfg, s.tmp, life.stuck))
    ensures Legal(cfg, a, TickRetry(cfg, a, life.files))
    ensures var b := Run(cfg, a, TickRetry(cfg, a, life.files));
      s.book.log <= b.book.log && SendsSpooled(cfg, s, b, life.files)
  {
    CleanupRun(cfg, s, life.stuck);
    TickSends(cfg, a, life.files);
  }

  /** A temporary file bears the name of a batch that was sealed. */
  lemma {:induction false} LeftoversAreSealed(cfg: Config, s: State, steps: seq<Step>)
    requires s.tmp.Keys <= s.book.sealed.Keys && Legal(cfg, s, steps)
    ensures Run(cfg, s, steps).tmp.Keys <= Run(cfg, s, steps).book.sealed.Keys
    decreases steps
  {
    if steps != [] {
      LeftoversAreSealed(cfg, Next(cfg, s, steps[0]), steps[1..]);
    }
  }

  lemma SealedOnce(cfg: Config, s: State, id: BatchId)
    requires cfg.Valid() && Minted(cfg, s) && id in s.book.sealed
    ensures cfg.id(s.minted) != id
  {
    var k: nat :| k < s.minted && cfg.id(k) == id;
  }

  /** The batch has an id, no temporary file, and is not in flight. */
  ghost predicate Departed(s: State, id: BatchId) {
    id in s.book.sealed && id !in s.tmp && s.book.flight != Some(id)
  }

  lemma GoneStep(cfg: Config, s: State, step: Step, id: BatchId)
    requires Enabled(cfg, s, step) && Departed(s, id) && cfg.id(s.minted) != id
    ensures Departed(Next(cfg, s, step), id)
  {
  }

  /** The temporary file of an earlier batch, once gone, does not come back. */
  lemma {:induction false} StaysDeparted(cfg: Config, s: State, steps: seq<Step>, id: BatchId)
    requires cfg.Valid() && Inv(cfg, s) && Legal(cfg, s, steps) && Departed(s, id)
    ensures Departed(Run(cfg, s, steps), id)
    decreases steps
  {
    if steps != [] {
      SealedOnce(cfg, s, id);
      InvStep(cfg, s, steps[0]);
      GoneStep(cfg, s, steps[0], id);
      StaysDeparted(cfg, Next(cfg, s, steps[0]), steps[1..], id);
    }
  }

  /** Once the clean-up of a life has removed it, nothing later in that life writes it again. */
  lemma DepartedForGood(cfg: Config, s: State, a: State, b: State, c: State, d: State, life: Life, id: BatchId)
    requires cfg.Valid() && AtRest(cfg, s) && Stages(cfg, s, life, a, b, c, d)
    requires Inv(cfg, a) && Departed(a, id)
    ensures id !in d.tmp
  {
    var retry, loop := TickRetry(cfg, a, life.files), LoopSteps(cfg, b, life.turns);
    InvRun(cfg, a, retry);
    InvRun(cfg, b, loop);
    StaysDeparted(cfg, a, retry, id);
    StaysDeparted(cfg, b, loop, id);
    StaysDeparted(cfg, c, DrainSteps(cfg, c, life.drain, 0), id);
  }

  /** However a host got here, a life leaves none of the temporary files it started with, if they can be removed. */
  lemma LifeCleansUp(cfg: Config, steps: seq<Step>, life: Life)
    requires cfg.Valid() && cfg.spoolDir != "" && Legal(cfg, INIT, steps) && AtRest(cfg, Run(cfg, INIT, steps))
    ensures var s := Run(cfg, INIT, steps);
      && Legal(cfg, s, LifeSteps(cfg, s, life))
      && forall id :: id in s.tmp && id !in life.stuck ==> id !in Run(cfg, s, LifeSteps(cfg, s, life)).tmp
  {
    var s := Run(cfg, INIT, steps);
    InitInv(cfg);
    InvRun(cfg, INIT, steps);
    LeftoversAreSealed(cfg, INIT, steps);
    var a, b, c, d := LifeStages(cfg, s, life);
    CleanupRun(cfg, s, life.stuck);
    InvRun(cfg, s, CleanupSteps(cfg, s.tmp, life.stuck));
    forall id | id in s.tmp && id !in life.stuck
      ensures id !in d.tmp
    {
      DepartedForGood(cfg, s, a, b, c, d, life, id);
    }
  }
}
