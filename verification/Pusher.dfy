/** The Pusher of internal/topsrv/shipper/pusher.go, proved to take exactly the protocol steps of its specification. */
module Shipper {
  import opened Arith
  import opened Listings
  import opened Protocol
  import opened SpoolNames
  import opened Passes
  import opened Lifetime
  import opened Shipping
  import opened Options

  class Pusher {
    const cfg: Config
    const mint: nat -> Stamp
    var queue: seq<Event>
    const batch: array<Event>
    var held: nat
    var minted: nat
    var spool: Spool
    var tmp: Spool
    ghost var book: Ledger

    /** The protocol state this object stands for. */
    ghost function Abs(): State
      requires held <= batch.Length
      reads this, batch
    {
      State(queue, batch[..held], minted, spool, tmp, book)
    }

    /** The shape of the object; the protocol invariant follows from the steps it takes. */
    ghost predicate Valid()
      reads this
    {
      && cfg.Valid() && batch.Length == cfg.batchSize && held <= batch.Length
      && |queue| <= 2 * cfg.batchSize
      && (forall i :: cfg.id(i) == NewBatchId(mint(i)))
    }

    constructor (batchSize: int, spoolDir: string, maxSpoolMB: int, mint: nat -> Stamp)
      requires forall i :: mint(i).Valid()
      requires forall i, j :: i != j ==> mint(i) != mint(j)
      ensures Valid() && Abs() == INIT
      ensures cfg == NewConfig(batchSize, spoolDir, maxSpoolMB, mint)
      ensures fresh(batch)
    {
      NewConfigValid(batchSize, spoolDir, maxSpoolMB, mint);
      cfg := NewConfig(batchSize, spoolDir, maxSpoolMB, mint);
      this.mint := mint;
      batch := new Event[NewConfig(batchSize, spoolDir, maxSpoolMB, mint).batchSize];
      queue, held, minted, spool, tmp := [], 0, 0, map[], map[];
      book := INIT.book;
      new;
      assert batch[..held] == [];
    }

    // ----- single effects -----

    method Enqueue(ev: Event) returns (ok: bool)
      requires Valid()
      modifies this`queue, this`book
      ensures Valid() && Abs() == Next(cfg, old(Abs()), Step.Enqueue(ev))
      ensures ok <==> |old(queue)| < 2 * cfg.batchSize
      ensures queue == old(queue) + if ok then [ev] else []
    {
      ok := |queue| < 2 * cfg.batchSize;
      book := Next(cfg, Abs(), Step.Enqueue(ev)).book;
      if ok {
        queue := queue + [ev];
      }
    }

    method TakeEvent()
      requires Valid() && Enabled(cfg, Abs(), Take)
      modifies this`queue, this`held, batch
      ensures Valid() && Abs() == Next(cfg, old(Abs()), Take)
    {
      ghost var before := Abs();
      batch[held] := queue[0];
      queue, held := queue[1..], held + 1;
      assert batch[..held] == before.batch + [before.queue[0]];
    }

    /** Encodes the batch under a new id and empties the builder. */
    method SealBatch(bytes: nat) returns (id: BatchId, payload: Payload)
      requires Valid() && Enabled(cfg, Abs(), Seal(bytes))
      modifies this`held, this`minted, this`book
      ensures Valid() && Abs() == Next(cfg, old(Abs()), Seal(bytes))
      ensures id == cfg.id(old(minted)) && payload == Payload(old(Abs()).batch, bytes)
    {
      id, payload := NewBatchId(mint(minted)), Payload(batch[..held], bytes);
      book := Next(cfg, Abs(), Seal(bytes)).book;
      held, minted := 0, minted + 1;
      assert batch[..held] == [];
    }

    /** encodeBatch failed: the events are logged and forgotten. */
    method DiscardUnencodable()
      requires Valid() && Enabled(cfg, Abs(), FailEncode)
      modifies this`held, this`book
      ensures Valid() && Abs() == Next(cfg, old(Abs()), FailEncode)
    {
      book := Next(cfg, Abs(), FailEncode).book;
      held := 0;
      assert batch[..held] == [];
    }

    ghost method Note(step: Step)
      requires Valid() && (step.Drop? || step.Resend?) && Enabled(cfg, Abs(), step)
      modifies this`book
      ensures Valid() && Abs() == Next(cfg, old(Abs()), step)
    {
      book := Next(cfg, Abs(), step).book;
    }

    /** One HTTP send of this payload under this id; `r` is what comes back. */
    method Send(payload: Payload, id: BatchId, r: Reply) returns (reply: Reply)
      requires Valid() && Enabled(cfg, Abs(), Transmit(id, payload, r))
      modifies this`book
      ensures Valid() && reply == r && Abs() == Next(cfg, old(Abs()), Transmit(id, payload, r))
    {
      book := Next(cfg, Abs(), Transmit(id, payload, r)).book;
      return r;
    }

    method WriteFile(id: BatchId, content: Content)
      requires Valid() && book.flight == Some(id) && Enabled(cfg, Abs(), WriteTmp(content))
      modifies this`tmp
      ensures Valid() && Abs() == Next(cfg, old(Abs()), WriteTmp(content))
    {
      tmp := tmp[id := content];
    }

    method Rename(id: BatchId)
      requires Valid() && book.flight == Some(id) && Enabled(cfg, Abs(), Publish)
      modifies this`spool, this`tmp, this`book
      ensures Valid() && Abs() == Next(cfg, old(Abs()), Publish)
    {
      book := Next(cfg, Abs(), Publish).book;
      spool, tmp := spool[id := tmp[id]], tmp - {id};
    }

    method RemoveTmpFile(id: BatchId)
      requires Valid() && Enabled(cfg, Abs(), RemoveTmp(id))
      modifies this`tmp
      ensures Valid() && Abs() == Next(cfg, old(Abs()), RemoveTmp(id))
    {
      tmp := tmp - {id};
    }

    method RemoveSpoolFile(id: BatchId, ghost reason: Option<Cause>)
      requires Valid() && Enabled(cfg, Abs(), Remove(id, reason))
      modifies this`spool, this`book
      ensures Valid() && Abs() == Next(cfg, old(Abs()), Remove(id, reason))
    {
      book := Next(cfg, Abs(), Remove(id, reason)).book;
      spool := spool - {id};
    }

    // ----- directory listings -----

    /** `filepath.Glob` and `sort.Strings`. */
    method SortedNames(names: set<BatchId>) returns (files: seq<BatchId>)
      requires StrictTotal(cfg.before)
      ensures files == Listing(cfg.before, names)
    {
      files := [];
      var rest := names;
      while rest != {}
        invariant Selecting(cfg.before, files, names, rest)
        decreases |rest|
      {
        LeastExists(cfg.before, rest);
        var x :| x in rest && forall y :: y in rest && y != x ==> cfg.before(x, y);
        SelectNext(cfg.before, files, names, rest, x);
        files, rest := files + [x], rest - {x};
      }
      SelectionDone(cfg.before, files, names);
    }

    /** Sizes are read once, before anything is removed; a failing `stat` counts as zero. */
    method ScanSpool(e: SpoolEnv) returns (files: seq<BatchId>, sizes: seq<nat>, total: nat)
      requires StrictTotal(cfg.before)
      ensures files == Listing(cfg.before, spool.Keys)
      ensures |sizes| == |files|
      ensures forall k :: 0 <= k < |files| ==> sizes[k] == Measured(spool, files[k], e.blind)
      ensures total == TotalSize(spool, files, e.blind)
    {
      files := SortedNames(spool.Keys);
      sizes, total := MeasureAll(spool, files, e.blind);
    }

    /** One turn of a trim begun in state `s`: evict the i-th file, or step over it. */
    method TrimTurn(ghost s: State, ghost all: seq<Step>, ghost done: seq<Step>, files: seq<BatchId>, i: nat,
                    size: nat, remaining: int, e: SpoolEnv)
      returns (left: int, ghost more: seq<Step>)
      requires Valid() && MidTrim(cfg, s, Abs(), all, done, files, i, remaining, e)
      requires i < |files| && remaining > cfg.budget && size == Measured(s.spool, files[i], e.blind)
      modifies this`spool, this`book
      ensures Valid() && MidTrim(cfg, s, Abs(), all, more, files, i + 1, left, e)
    {
      ghost var t := Abs();
      if files[i] in e.stuck {
        MidTrimSkip(cfg, s, t, all, done, files, i, remaining, e);
        left, more := remaining, done;
      } else {
        RemoveSpoolFile(files[i], Some(Evicted));
        left, more := remaining - size, done + [Remove(files[i], Some(Evicted))];
        MidTrimEvict(cfg, s, t, Abs(), all, done, files, i, remaining, left, e);
      }
    }

    /** The loop of a trim, whose steps are `all`. */
    method EvictOldest(ghost s: State, ghost all: seq<Step>, files: seq<BatchId>, sizes: seq<nat>, total: nat, e: SpoolEnv)
      requires Valid() && MidTrim(cfg, s, Abs(), all, [], files, 0, total, e)
      requires |sizes| == |files| && forall k :: 0 <= k < |files| ==> sizes[k] == Measured(s.spool, files[k], e.blind)
      modifies this`spool, this`book
      ensures Valid() && Legal(cfg, s, all) && Abs() == Run(cfg, s, all)
    {
      ghost var done: seq<Step> := [];
      var remaining: int := total;
      var i: nat := 0;
      while i < |files| && remaining > cfg.budget
        invariant Valid() && 0 <= i <= |files|
        invariant MidTrim(cfg, s, Abs(), all, done, files, i, remaining, e)
      {
        remaining, done := TrimTurn(s, all, done, files, i, sizes[i], remaining, e);
        i := i + 1;
      }
      MidTrimEnd(cfg, s, Abs(), all, done, files, i, remaining, e);
    }

    method TrimSpool(e: SpoolEnv)
      requires Valid() && book.flight.None?
      modifies this`spool, this`book
      ensures Valid()
      ensures Legal(cfg, old(Abs()), TrimSteps(cfg, old(spool), e))
      ensures Abs() == Run(cfg, old(Abs()), TrimSteps(cfg, old(spool), e))
    {
      ghost var s := Abs();
      var files, sizes, total := ScanSpool(e);
      MidTrimStart(cfg, s, e, files);
      EvictOldest(s, TrimSteps(cfg, spool, e), files, sizes, total, e);
    }

    // ----- spooling and sending -----

    method SpoolBatch(payload: Payload, id: BatchId, e: SpoolEnv)
      requires Valid() && book.flight == Some(id)
      requires id in book.sealed && book.sealed[id] == payload
      modifies this`spool, this`tmp, this`book
      ensures Valid()
      ensures Legal(cfg, old(Abs()), SpoolSteps(cfg, old(spool), id, payload, e))
      ensures Abs() == Run(cfg, old(Abs()), SpoolSteps(cfg, old(spool), id, payload, e))
    {
      ghost var s := Abs();
      if cfg.spoolDir == "" || !e.mkdirOk {
        RunOne(cfg, s, Drop(NotSpooled));
        Note(Drop(NotSpooled));
        return;
      }
      match e.write {
        case WriteFailed(left) =>
          if left {
            WriteFile(id, Torn);
            RunOne(cfg, Abs(), Drop(NotSpooled));
            RunCons(cfg, s, WriteTmp(Torn), [Drop(NotSpooled)]);
          } else {
            RunOne(cfg, s, Drop(NotSpooled));
          }
          Note(Drop(NotSpooled));
        case Written =>
          WriteFile(id, Torn);
          ghost var a := Abs();
          WriteFile(id, Whole(payload));
          ghost var b := Abs();
          FinishSpool(payload, id, e);
          WriteTwice(cfg, s, a, b, payload, RenameSteps(cfg, s.spool, id, payload, e));
      }
    }

    /** The rename, and what follows it. */
    method FinishSpool(ghost payload: Payload, id: BatchId, e: SpoolEnv)
      requires Valid() && book.flight == Some(id)
      requires id in book.sealed && book.sealed[id] == payload
      requires id in tmp && tmp[id] == Whole(payload)
      modifies this`spool, this`tmp, this`book
      ensures Valid()
      ensures Legal(cfg, old(Abs()), RenameSteps(cfg, old(spool), id, payload, e))
      ensures Abs() == Run(cfg, old(Abs()), RenameSteps(cfg, old(spool), id, payload, e))
    {
      ghost var s := Abs();
      if e.renameOk {
        Rename(id);
        ghost var c := Abs();
        TrimSpool(e);
        RunCons(cfg, s, Publish, TrimSteps(cfg, c.spool, e));
        return;
      }
      if e.tmpRemoved {
        RemoveTmpFile(id);
        RunOne(cfg, Abs(), Drop(NotSpooled));
        RunCons(cfg, s, RemoveTmp(id), [Drop(NotSpooled)]);
      } else {
        RunOne(cfg, s, Drop(NotSpooled));
      }
      Note(Drop(NotSpooled));
    }

    method SendWithRetry(payload: Payload, id: BatchId, e: FlushEnv) returns (r: Reply)
      requires Valid() && book.flight == Some(id)
      requires id in book.sealed && book.sealed[id] == payload
      modifies this`book
      ensures Valid() && r == FinalReply(e)
      ensures Legal(cfg, old(Abs()), SendSteps(id, payload, e))
      ensures Abs() == Run(cfg, old(Abs()), SendSteps(id, payload, e))
      ensures book.sealed == old(book.sealed)
      ensures book.flight == if Failed(r) then Some(id) else None
      ensures LastReply(Abs(), id, x => x == r)
    {
      ghost var s := Abs();
      RunOne(cfg, s, Transmit(id, payload, e.first));
      r := Send(payload, id, e.first);
      if !Failed(r) || IsPermanentFailure(r) || e.cancelled {
        return;
      }
      ghost var a := Abs();
      RunOne(cfg, a, Transmit(id, payload, e.second));
      RunCons(cfg, s, Transmit(id, payload, e.first), [Transmit(id, payload, e.second)]);
      r := Send(payload, id, e.second);
    }

    /** What flush and flushFinal do with the last reply. */
    method Settle(payload: Payload, id: BatchId, r: Reply, e: SpoolEnv)
      requires Valid() && book.flight == (if Failed(r) then Some(id) else None)
      requires id in book.sealed && book.sealed[id] == payload
      requires LastReply(Abs(), id, x => x == r)
      modifies this`spool, this`tmp, this`book
      ensures Valid()
      ensures Legal(cfg, old(Abs()), AfterSend(cfg, old(spool), id, payload, r, e))
      ensures Abs() == Run(cfg, old(Abs()), AfterSend(cfg, old(spool), id, payload, r, e))
    {
      if !Failed(r) {
        return;
      }
      if IsPermanentFailure(r) {
        RunOne(cfg, Abs(), Drop(Rejected));
        Note(Drop(Rejected));
        return;
      }
      SpoolBatch(payload, id, e);
    }

    method Flush(e: FlushEnv)
      requires Valid() && book.flight.None?
      modifies this`held, this`minted, this`spool, this`tmp, this`book
      ensures Valid()
      ensures Legal(cfg, old(Abs()), FlushSteps(cfg, old(Abs()), e))
      ensures Abs() == Run(cfg, old(Abs()), FlushSteps(cfg, old(Abs()), e))
    {
      ghost var s := Abs();
      if held == 0 {
        return;
      }
      match e.encoded {
        case None =>
          RunOne(cfg, s, FailEncode);
          DiscardUnencodable();
        case Some(bytes) =>
          var id, payload := SealBatch(bytes);
          ghost var a := Abs();
          var r := SendWithRetry(payload, id, e);
          ghost var b := Abs();
          SendRun(cfg, a, id, payload, e);
          Settle(payload, id, r, e.spool);
          ghost var after := AfterSend(cfg, s.spool, id, payload, r, e.spool);
          RunConcat(cfg, a, SendSteps(id, payload, e), after);
          RunCons(cfg, s, Seal(bytes), SendSteps(id, payload, e) + after);
      }
    }

    method FlushFinal(e: FinalEnv)
      requires Valid() && book.flight.None?
      modifies this`held, this`minted, this`spool, this`tmp, this`book
      ensures Valid()
      ensures Legal(cfg, old(Abs()), FinalSteps(cfg, old(Abs()), e))
      ensures Abs() == Run(cfg, old(Abs()), FinalSteps(cfg, old(Abs()), e))
    {
      ghost var s := Abs();
      if held == 0 {
        return;
      }
      match e.encoded {
        case None =>
          RunOne(cfg, s, FailEncode);
          DiscardUnencodable();
        case Some(bytes) =>
          var id, payload := SealBatch(bytes);
          ghost var a := Abs();
          if e.expired {
            SpoolBatch(payload, id, e.spool);
            RunCons(cfg, s, Seal(bytes), SpoolSteps(cfg, s.spool, id, payload, e.spool));
            return;
          }
          var r := Send(payload, id, e.reply);
          Settle(payload, id, r, e.spool);
          ghost var after := AfterSend(cfg, s.spool, id, payload, e.reply, e.spool);
          RunCons(cfg, a, Transmit(id, payload, e.reply), after);
          RunCons(cfg, s, Seal(bytes), [Transmit(id, payload, e.reply)] + after);
      }
    }

    // ----- replay -----

    /** The path is the file's, so the id sent along is read off its name. */
    method ReplayOne(id: BatchId, e: FileEnv) returns (transient: bool)
      requires Valid() && book.flight.None? && id in spool
      modifies this`spool, this`book
      ensures Valid() && transient == Transient(e)
      ensures Legal(cfg, old(Abs()), ReplaySteps(id, e))
      ensures Abs() == Run(cfg, old(Abs()), ReplaySteps(id, e))
    {
      ghost var s := Abs();
      ghost var reason := RemovalReason(e);
      if !e.owned || !e.readable {
        if e.removable {
          RunOne(cfg, s, Remove(id, reason));
          assert ReplaySteps(id, e) == [Remove(id, reason)];
          RemoveSpoolFile(id, reason);
        } else {
          assert ReplaySteps(id, e) == [];
        }
        return false;
      }
      var batchId := BatchIdFromPath(Join(cfg.spoolDir, SpoolName(id)));
      BatchIdRoundTrip(cfg.spoolDir, id);
      Note(Resend(batchId, e.reply));
      RunOne(cfg, s, Resend(id, e.reply));
      ghost var a := Abs();
      assert a.book.log[|a.book.log| - 1] == Transmission(id, s.spool[id], e.reply);
      transient := Failed(e.reply) && !IsPermanentFailure(e.reply);
      if !transient && e.removable {
        assert Enabled(cfg, a, Remove(id, reason));
        RemoveSpoolFile(id, reason);
        RunOne(cfg, a, Remove(id, reason));
        RunCons(cfg, s, Resend(id, e.reply), [Remove(id, reason)]);
      } else {
        assert ReplaySteps(id, e) == [Resend(id, e.reply)];
      }
    }

    /** One turn of a replay pass begun in state `s`; the next file is the `k`-th. */
    method RetryTurn(ghost s: State, ghost all: seq<Step>, ghost done: seq<Step>, files: seq<BatchId>, i: nat,
                     ghost k: nat, env: BatchId -> FileEnv, fails: nat)
      returns (after: nat, ghost more: seq<Step>)
      requires Valid() && MidPass(cfg, s, Abs(), all, done, files, i, env, fails)
      requires i < |files| && k == i + 1 && fails < MAX_TRANSIENT_PER_RUN
      modifies this`spool, this`book
      ensures Valid() && MidPass(cfg, s, Abs(), all, more, files, k, env, after)
    {
      after := if Transient(env(files[i])) then fails + 1 else fails;
      MidPassStep(cfg, s, Abs(), all, done, files, i, env, fails, after);
      var transient := ReplayOne(files[i], env(files[i]));
      after, more := if transient then fails + 1 else fails, done + ReplaySteps(files[i], env(files[i]));
    }

    /** The loop of a replay pass, whose steps are `all`. */
    method ReplayOldest(ghost s: State, ghost all: seq<Step>, files: seq<BatchId>, env: BatchId -> FileEnv)
      requires Valid() && MidPass(cfg, s, Abs(), all, [], files, 0, env, 0)
      modifies this`spool, this`book
      ensures Valid() && Legal(cfg, s, all) && Abs() == Run(cfg, s, all)
    {
      ghost var done: seq<Step> := [];
      var fails: nat, i: nat := 0, 0;
      while i < |files| && fails < MAX_TRANSIENT_PER_RUN
        invariant Valid() && 0 <= i <= |files|
        invariant MidPass(cfg, s, Abs(), all, done, files, i, env, fails)
      {
        var k := i + 1;
        fails, done := RetryTurn(s, all, done, files, i, k, env, fails);
        i := k;
      }
      MidPassEnd(cfg, s, Abs(), all, done, files, i, env, fails);
    }

    method RetrySpool(env: BatchId -> FileEnv)
      requires Valid() && book.flight.None?
      modifies this`spool, this`book
      ensures Valid()
      ensures Legal(cfg, old(Abs()), TickRetry(cfg, old(Abs()), env))
      ensures Abs() == Run(cfg, old(Abs()), TickRetry(cfg, old(Abs()), env))
    {
      ghost var s := Abs();
      if cfg.spoolDir == "" {
        RunNothing(cfg, s);
        return;
      }
      var files := SortedNames(spool.Keys);
      MidPassStart(cfg, s, files, env);
      ReplayOldest(s, RetrySteps(files, env, 0), files, env);
    }

    method CleanupSpoolTmp(stuck: set<BatchId>)
      requires Valid()
      modifies this`tmp
      ensures Valid()
      ensures Legal(cfg, old(Abs()), CleanupSteps(cfg, old(tmp), stuck))
      ensures Abs() == Run(cfg, old(Abs()), CleanupSteps(cfg, old(tmp), stuck))
    {
      ghost var s := Abs();
      if cfg.spoolDir == "" {
        RunNothing(cfg, s);
        return;
      }
      var ids := SortedNames(tmp.Keys - stuck);
      var i: nat := 0;
      MidCleanupStart(cfg, s, ids, stuck);
      while i < |ids|
        invariant Valid() && 0 <= i <= |ids|
        invariant MidCleanup(cfg, s, Abs(), ids, i)
      {
        MidCleanupStep(cfg, s, Abs(), ids, i);
        RemoveTmpFile(ids[i]);
        i := i + 1;
      }
      assert ids[..i] == ids;
    }

    // ----- shutdown and the loop -----

    method DrainQueue()
      requires Valid() && book.flight.None?
      modifies this`queue, this`held, batch
      ensures Valid() && Abs() == Filled(cfg, old(Abs()))
    {
      ghost var s := Abs();
      ghost var n := 0;
      assert s.batch + s.queue[..0] == s.batch;
      while held < cfg.batchSize && queue != []
        invariant Valid() && book == s.book && spool == s.spool && tmp == s.tmp && minted == s.minted
        invariant n <= DrainTakes(cfg, s)
        invariant queue == s.queue[n..] && batch[..held] == s.batch + s.queue[..n]
        decreases |queue|
      {
        TakeEvent();
        assert s.queue[..n] + [s.queue[n]] == s.queue[..n + 1];
        n := n + 1;
      }
    }

    /** One round of the drain; returns how many events it shipped. */
    method DrainRound(e: FinalEnv) returns (n: nat)
      requires Valid() && book.flight.None? && Backlog(Abs()) > 0
      modifies this, batch
      ensures Valid() && n == |Filled(cfg, old(Abs())).batch|
      ensures Legal(cfg, old(Abs()), RoundSteps(cfg, old(Abs()), e))
      ensures Abs() == Run(cfg, old(Abs()), RoundSteps(cfg, old(Abs()), e))
    {
      RoundRun(cfg, Abs(), e);
      DrainQueue();
      n := held;
      FlushFinal(e);
    }

    /** The rounds of a drain, whose steps are `all`. */
    method DrainRounds(ghost s: State, ghost all: seq<Step>, envs: nat -> FinalEnv)
      returns (total: nat, calls: nat, ghost done: seq<Step>)
      requires Valid() && MidDrain(cfg, s, Abs(), all, [], envs, 0, 0)
      modifies this, batch
      ensures Valid() && MidDrain(cfg, s, Abs(), all, done, envs, total, calls) && Backlog(Abs()) == 0
    {
      total, calls, done := 0, 0, [];
      while held + |queue| > 0
        invariant Valid() && MidDrain(cfg, s, Abs(), all, done, envs, total, calls)
        decreases Backlog(Abs())
      {
        ghost var t := Abs();
        var n := DrainRound(envs(calls));
        MidDrainStep(cfg, s, t, Abs(), all, done, envs, total, calls, n);
        done := done + RoundSteps(cfg, t, envs(calls));
        total, calls := total + n, calls + 1;
      }
    }

    /** Also returns how many times it called flushFinal. */
    method DrainAndFlushAll(envs: nat -> FinalEnv) returns (total: nat, calls: nat)
      requires Valid() && book.flight.None?
      modifies this, batch
      ensures Valid() && queue == [] && held == 0
      ensures Legal(cfg, old(Abs()), DrainSteps(cfg, old(Abs()), envs, 0))
      ensures Abs() == Run(cfg, old(Abs()), DrainSteps(cfg, old(Abs()), envs, 0))
      ensures total == Backlog(old(Abs()))
      ensures calls == CeilDiv(Backlog(old(Abs())), cfg.batchSize) <= 3
    {
      ghost var s := Abs();
      MidDrainStart(cfg, s, envs);
      ghost var all := DrainSteps(cfg, s, envs, 0);
      ghost var done;
      total, calls, done := DrainRounds(s, all, envs);
      MidDrainEnd(cfg, s, Abs(), all, done, envs, total, calls);
    }

    /** One pass through the select statement. */
    method TakeTurn(turn: Turn)
      requires Valid() && AtRest(cfg, Abs())
      modifies this, batch
      ensures Valid()
      ensures Legal(cfg, old(Abs()), TurnSteps(cfg, old(Abs()), turn))
      ensures Abs() == Run(cfg, old(Abs()), TurnSteps(cfg, old(Abs()), turn))
      ensures |old(book).log| <= |book.log| && Turned(cfg, old(Abs()), Abs(), turn)
      ensures turn.Tick? ==> held == 0
    {
      ghost var s := Abs();
      TurnRun(cfg, s, turn);
      TurnEffects(cfg, s, turn);
      match turn {
        case Arrive(ev) =>
          RunOne(cfg, s, Step.Enqueue(ev));
          var ok := Enqueue(ev);
        case Pump(flush) =>
          if queue != [] {
            TakeEvent();
            ghost var a := Abs();
            if held >= cfg.batchSize {
              FlushRun(cfg, a, flush);
              RunCons(cfg, s, Take, FlushSteps(cfg, a, flush));
              Flush(flush);
            } else {
              RunOne(cfg, s, Take);
              assert [Take] + [] == [Take];
            }
          }
        case Tick(files, flush) =>
          TickRetryRun(cfg, s, files);
          RetrySpool(files);
          ghost var a := Abs();
          Flush(flush);
          RunConcat(cfg, s, TickRetry(cfg, s, files), FlushSteps(cfg, a, flush));
      }
    }

    /** The select loop until the context is cancelled. */
    method TakeTurns(turns: seq<Turn>)
      requires Valid() && AtRest(cfg, Abs())
      modifies this, batch
      ensures Valid()
      ensures Legal(cfg, old(Abs()), LoopSteps(cfg, old(Abs()), turns))
      ensures Abs() == Run(cfg, old(Abs()), LoopSteps(cfg, old(Abs()), turns))
      ensures turns != [] && turns[|turns| - 1].Tick? ==> held == 0
    {
      ghost var b := Abs();
      var i := 0;
      MidLoopStart(cfg, b, turns);
      while i < |turns|
        invariant Valid() && 0 <= i <= |turns| && MidLoop(cfg, b, Abs(), turns, i)
        invariant i > 0 && turns[i - 1].Tick? ==> held == 0
      {
        var k := i + 1;
        MidLoopStep(cfg, b, Abs(), turns, i, k);
        TakeTurn(turns[i]);
        i := k;
      }
      assert turns[..i] == turns;
    }

    /** Start-up, the loop, and the drain once the context is cancelled. */
    method Live(life: Life) returns (drained: nat, calls: nat)
      requires Valid() && AtRest(cfg, Abs())
      modifies this, batch
      ensures Valid() && queue == [] && held == 0 && calls <= 3
      ensures Legal(cfg, old(Abs()), LifeSteps(cfg, old(Abs()), life))
      ensures Abs() == Run(cfg, old(Abs()), LifeSteps(cfg, old(Abs()), life))
      ensures old(book.log) <= book.log && SendsSpooled(cfg, old(Abs()), Abs(), life.files)
    {
      LifeEffects(cfg, Abs(), life);
      ghost var a, b, c, d := LifeStages(cfg, Abs(), life);
      CleanupSpoolTmp(life.stuck);
      RetrySpool(life.files);
      TakeTurns(life.turns);
      drained, calls := DrainAndFlushAll(life.drain);
    }
  }

  /** Every file's size, and their sum. */
  method MeasureAll(spool: Spool, files: seq<BatchId>, blind: set<BatchId>) returns (sizes: seq<nat>, total: nat)
    ensures |sizes| == |files|
    ensures forall k :: 0 <= k < |files| ==> sizes[k] == Measured(spool, files[k], blind)
    ensures total == TotalSize(spool, files, blind)
  {
    sizes, total := [], 0;
    var i := 0;
    while i < |files|
      invariant 0 <= i <= |files| && |sizes| == i
      invariant forall k :: 0 <= k < i ==> sizes[k] == Measured(spool, files[k], blind)
      invariant total + TotalSize(spool, files[i..], blind) == TotalSize(spool, files, blind)
    {
      var size := Measured(spool, files[i], blind);
      TotalSizeUnfold(spool, files, i, blind);
      sizes, total := sizes + [size], total + size;
      i := i + 1;
    }
  }
}
