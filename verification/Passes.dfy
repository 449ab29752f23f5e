/**
 * The shipper's activities as sequences of protocol steps, one function per method of the Pusher,
 * with the outcome of every send and every disk operation as an input.
 */
module Passes {
  import opened Listings
  import opened Protocol
  import opened Options

  const MAX_TRANSIENT_PER_RUN := 3

  datatype WriteResult = Written | WriteFailed(left: bool)

  /** Outcomes met by one call of spool; removing a `stuck` file fails, `stat` on a `blind` one fails. */
  datatype SpoolEnv = SpoolEnv(
    mkdirOk: bool, write: WriteResult, renameOk: bool, tmpRemoved: bool, stuck: set<BatchId>, blind: set<BatchId>)

  /** Outcomes met by one flush: `cancelled` says whether the backoff was cut short. */
  datatype FlushEnv = FlushEnv(
    encoded: Option<nat>, first: Reply, cancelled: bool, second: Reply, spool: SpoolEnv)

  /** Outcomes met by one flushFinal; `expired` says whether the drain budget is used up. */
  datatype FinalEnv = FinalEnv(encoded: Option<nat>, expired: bool, reply: Reply, spool: SpoolEnv)

  /** Outcomes met by the replay of one file. */
  datatype FileEnv = FileEnv(owned: bool, readable: bool, reply: Reply, removable: bool)

  // ----- single steps -----

  lemma RunOne(cfg: Config, s: State, a: Step)
    requires Enabled(cfg, s, a)
    ensures Legal(cfg, s, [a]) && Run(cfg, s, [a]) == Next(cfg, s, a)
  {
    assert [a][1..] == [];
    assert Legal(cfg, Next(cfg, s, a), []);
  }

  lemma RunCons(cfg: Config, s: State, a: Step, rest: seq<Step>)
    requires Enabled(cfg, s, a) && Legal(cfg, Next(cfg, s, a), rest)
    ensures Legal(cfg, s, [a] + rest) && Run(cfg, s, [a] + rest) == Run(cfg, Next(cfg, s, a), rest)
  {
    assert ([a] + rest)[1..] == rest;
  }

  lemma RunSnoc(cfg: Config, s: State, done: seq<Step>, a: Step)
    requires Legal(cfg, s, done) && Enabled(cfg, Run(cfg, s, done), a)
    ensures Legal(cfg, s, done + [a])
    ensures Run(cfg, s, done + [a]) == Next(cfg, Run(cfg, s, done), a)
  {
    RunOne(cfg, Run(cfg, s, done), a);
    RunConcat(cfg, s, done, [a]);
  }

  // ----- moving events from the queue into the batch -----

  function Takes(n: nat): seq<Step> {
    if n == 0 then [] else [Take] + Takes(n - 1)
  }

  lemma TakeSlices(s: State, t: State, n: nat)
    requires 0 < n <= |s.queue| && t == s.(queue := s.queue[1..], batch := s.batch + [s.queue[0]])
    ensures t.(queue := t.queue[n - 1..], batch := t.batch + t.queue[..n - 1])
            == s.(queue := s.queue[n..], batch := s.batch + s.queue[..n])
  {
    assert t.queue[n - 1..] == s.queue[n..];
    assert s.queue[..n] == [s.queue[0]] + t.queue[..n - 1];
    ConcatAssociative(s.batch, [s.queue[0]], t.queue[..n - 1]);
  }

  /** `n` takes move the first `n` queued events, in order, to the end of the batch. */
  lemma {:induction false} TakesRun(cfg: Config, s: State, n: nat)
    requires s.book.flight.None? && n <= |s.queue| && |s.batch| + n <= cfg.batchSize
    ensures Legal(cfg, s, Takes(n))
    ensures Run(cfg, s, Takes(n)) == s.(queue := s.queue[n..], batch := s.batch + s.queue[..n])
    decreases n
  {
    if n == 0 {
      assert s.batch + s.queue[..0] == s.batch;
    } else {
      var t := Next(cfg, s, Take);
      TakesRun(cfg, t, n - 1);
      RunCons(cfg, s, Take, Takes(n - 1));
      TakeSlices(s, t, n);
    }
  }

  // ----- trimming -----

  function Size(c: Content): nat {
    match c
    case Whole(p) => p.bytes
    case Torn => 0
  }

  function Measured(spool: Spool, id: BatchId, blind: set<BatchId>): nat {
    if id in spool && id !in blind then Size(spool[id]) else 0
  }

  function TotalSize(spool: Spool, files: seq<BatchId>, blind: set<BatchId>): nat {
    if files == [] then 0 else Measured(spool, files[0], blind) + TotalSize(spool, files[1..], blind)
  }

  lemma TotalSizeUnfold(spool: Spool, files: seq<BatchId>, i: nat, blind: set<BatchId>)
    requires i < |files|
    ensures TotalSize(spool, files[i..], blind) == Measured(spool, files[i], blind) + TotalSize(spool, files[i + 1..], blind)
  {
    SliceHead(files, i);
  }

  /** The files trimSpool removes, oldest first, while the remaining total exceeds the budget. */
  function Victims(spool: Spool, files: seq<BatchId>, total: int, budget: nat, e: SpoolEnv): seq<BatchId> {
    if files == [] || total <= budget then []
    else if files[0] in e.stuck then Victims(spool, files[1..], total, budget, e)
    else [files[0]] + Victims(spool, files[1..], total - Measured(spool, files[0], e.blind), budget, e)
  }

  function Evictions(ids: seq<BatchId>): seq<Step> {
    if ids == [] then [] else [Remove(ids[0], Some(Evicted))] + Evictions(ids[1..])
  }

  ghost function TrimVictims(cfg: Config, spool: Spool, e: SpoolEnv): seq<BatchId>
    requires StrictTotal(cfg.before)
  {
    var files := Listing(cfg.before, spool.Keys);
    Victims(spool, files, TotalSize(spool, files, e.blind), cfg.budget, e)
  }

  ghost function TrimSteps(cfg: Config, spool: Spool, e: SpoolEnv): seq<Step>
    requires StrictTotal(cfg.before)
  {
    Evictions(TrimVictims(cfg, spool, e))
  }

  /** The first file of the longest suffix, from `i` on, that fits the budget. */
  function FirstKept(spool: Spool, files: seq<BatchId>, i: nat, budget: nat, blind: set<BatchId>): (m: nat)
    requires i <= |files|
    ensures i <= m <= |files| && TotalSize(spool, files[m..], blind) <= budget
    ensures forall k :: i <= k < m ==> TotalSize(spool, files[k..], blind) > budget
    decreases |files| - i
  {
    if TotalSize(spool, files[i..], blind) <= budget then i
    else FirstKept(spool, files, i + 1, budget, blind)
  }

  /**
   * When every removal succeeds, trimming removes the files before the longest suffix of the
   * oldest-first listing that fits the budget, and no others.
   */
  lemma {:induction false} TrimKeepsLongestSuffix(spool: Spool, files: seq<BatchId>, i: nat, budget: nat, e: SpoolEnv)
    requires e.stuck == {} && i <= |files|
    ensures Victims(spool, files[i..], TotalSize(spool, files[i..], e.blind), budget, e)
            == files[i..FirstKept(spool, files, i, budget, e.blind)]
    decreases |files| - i
  {
    var total := TotalSize(spool, files[i..], e.blind);
    if total > budget {
      SliceHead(files, i);
      var left := TotalSize(spool, files[i + 1..], e.blind);
      TrimKeepsLongestSuffix(spool, files, i + 1, budget, e);
      VictimsUnfold(spool, files, i, total, left, budget, e);
      SliceCons(files, i, FirstKept(spool, files, i + 1, budget, e.blind));
    } else {
      assert files[i..i] == [];
    }
  }

  lemma SliceCons<T>(s: seq<T>, i: nat, j: nat)
    requires i < j <= |s|
    ensures s[i..j] == [s[i]] + s[i + 1..j]
  {
  }

  lemma VictimsUnfold(spool: Spool, files: seq<BatchId>, i: nat, total: int, left: int, budget: nat, e: SpoolEnv)
    requires i < |files| && total > budget && files[i] !in e.stuck
    requires left == total - Measured(spool, files[i], e.blind)
    ensures Victims(spool, files[i..], total, budget, e) == [files[i]] + Victims(spool, files[i + 1..], left, budget, e)
  {
    SliceHead(files, i);
  }

  lemma {:induction false} VictimsListed(
    cfg: Config, spool: Spool, files: seq<BatchId>, total: int, budget: nat, e: SpoolEnv)
    requires Ascending(cfg.before, files)
    ensures Ascending(cfg.before, Victims(spool, files, total, budget, e))
    ensures forall x :: x in Victims(spool, files, total, budget, e) ==> x in files && x !in e.stuck
    decreases files
  {
    if files != [] && total > budget {
      var rest := if files[0] in e.stuck then total else total - Measured(spool, files[0], e.blind);
      VictimsListed(cfg, spool, files[1..], rest, budget, e);
      var w := Victims(spool, files[1..], rest, budget, e);
      assert forall x :: x in files[1..] ==> x in files && cfg.before(files[0], x);
      assert forall k :: 0 <= k < |w| ==> w[k] in w;
    }
  }

  /** The ledger of given-up batches after evicting `ids`. */
  function DropAll(dropped: map<BatchId, Cause>, ids: seq<BatchId>): map<BatchId, Cause>
    decreases ids
  {
    if ids == [] then dropped else DropAll(dropped[ids[0] := Evicted], ids[1..])
  }

  function ToSet(ids: seq<BatchId>): set<BatchId> {
    set x | x in ids
  }

  lemma {:induction false} EvictionsRun(cfg: Config, s: State, ids: seq<BatchId>)
    requires StrictTotal(cfg.before) && s.book.flight.None? && Ascending(cfg.before, ids)
    requires forall x :: x in ids ==> x in s.spool
    ensures Legal(cfg, s, Evictions(ids))
    ensures Run(cfg, s, Evictions(ids))
            == s.(spool := s.spool - ToSet(ids), book := s.book.(dropped := DropAll(s.book.dropped, ids)))
    decreases ids
  {
    if ids == [] {
      assert s.spool - ToSet(ids) == s.spool;
    } else {
      var step := Remove(ids[0], Some(Evicted));
      assert ids[0] in ids;
      var t := Next(cfg, s, step);
      assert forall x :: x in ids[1..] ==> x in ids && cfg.before(ids[0], x);
      EvictionsRun(cfg, t, ids[1..]);
      RunCons(cfg, s, step, Evictions(ids[1..]));
      assert ToSet(ids) == {ids[0]} + ToSet(ids[1..]);
      assert t.spool - ToSet(ids[1..]) == s.spool - ToSet(ids);
    }
  }

  lemma TrimRun(cfg: Config, s: State, e: SpoolEnv)
    requires StrictTotal(cfg.before) && s.book.flight.None?
    ensures Legal(cfg, s, TrimSteps(cfg, s.spool, e))
    ensures var gone := TrimVictims(cfg, s.spool, e);
      Run(cfg, s, TrimSteps(cfg, s.spool, e))
      == s.(spool := s.spool - ToSet(gone), book := s.book.(dropped := DropAll(s.book.dropped, gone)))
  {
    var files := Listing(cfg.before, s.spool.Keys);
    VictimsListed(cfg, s.spool, files, TotalSize(s.spool, files, e.blind), cfg.budget, e);
    EvictionsRun(cfg, s, TrimVictims(cfg, s.spool, e));
  }

  // ----- spooling a failed batch -----

  predicate Spools(cfg: Config, e: SpoolEnv) {
    cfg.spoolDir != "" && e.mkdirOk && e.write.Written? && e.renameOk
  }

  /** WriteFile first truncates the `.tmp`, so a crash inside it leaves a torn file. */
  ghost function SpoolSteps(cfg: Config, spool: Spool, id: BatchId, payload: Payload, e: SpoolEnv): seq<Step>
    requires StrictTotal(cfg.before)
  {
    if cfg.spoolDir == "" || !e.mkdirOk then [Drop(NotSpooled)]
    else match e.write
      case WriteFailed(left) => if left then [WriteTmp(Torn), Drop(NotSpooled)] else [Drop(NotSpooled)]
      case Written => [WriteTmp(Torn), WriteTmp(Whole(payload))] + RenameSteps(cfg, spool, id, payload, e)
  }

  /** From the finished `.tmp` on. */
  ghost function RenameSteps(cfg: Config, spool: Spool, id: BatchId, payload: Payload, e: SpoolEnv): seq<Step>
    requires StrictTotal(cfg.before)
  {
    if e.renameOk then [Publish] + TrimSteps(cfg, spool[id := Whole(payload)], e)
    else if e.tmpRemoved then [RemoveTmp(id), Drop(NotSpooled)]
    else [Drop(NotSpooled)]
  }

  /** The batch went to disk, and a trim followed. */
  ghost predicate Kept(cfg: Config, s: State, t: State, id: BatchId, payload: Payload, e: SpoolEnv)
    requires StrictTotal(cfg.before)
  {
    var gone := TrimVictims(cfg, s.spool[id := Whole(payload)], e);
    && t.spool == s.spool[id := Whole(payload)] - ToSet(gone)
    && t.book.dropped == DropAll(s.book.dropped, gone)
  }

  /** Spooling touches the directory and settles the flight; everything else stands. */
  ghost predicate SpoolOutcome(cfg: Config, s: State, t: State, id: BatchId, payload: Payload, ok: bool, e: SpoolEnv)
    requires StrictTotal(cfg.before)
  {
    && t.queue == s.queue && t.batch == s.batch && t.minted == s.minted
    && t.book == s.book.(flight := None, dropped := t.book.dropped)
    && t.tmp - {id} == s.tmp - {id}
    && if ok
       then id !in t.tmp && Kept(cfg, s, t, id, payload, e)
       else t.spool == s.spool && t.book.dropped == s.book.dropped[id := NotSpooled]
  }

  lemma RenameRun(cfg: Config, s: State, id: BatchId, payload: Payload, e: SpoolEnv)
    requires StrictTotal(cfg.before)
    requires s.book.flight == Some(id) && id in s.book.sealed && payload == s.book.sealed[id]
    requires id in s.tmp && s.tmp[id] == Whole(payload)
    ensures Legal(cfg, s, RenameSteps(cfg, s.spool, id, payload, e))
    ensures SpoolOutcome(cfg, s, Run(cfg, s, RenameSteps(cfg, s.spool, id, payload, e)), id, payload, e.renameOk, e)
  {
    if e.renameOk {
      var c := Next(cfg, s, Publish);
      assert c.spool == s.spool[id := Whole(payload)] && c.tmp - {id} == s.tmp - {id};
      TrimRun(cfg, c, e);
      RunCons(cfg, s, Publish, TrimSteps(cfg, c.spool, e));
    } else if e.tmpRemoved {
      var c := Next(cfg, s, RemoveTmp(id));
      assert c.tmp - {id} == s.tmp - {id};
      RunOne(cfg, c, Drop(NotSpooled));
      RunCons(cfg, s, RemoveTmp(id), [Drop(NotSpooled)]);
    } else {
      RunOne(cfg, s, Drop(NotSpooled));
    }
  }

  /** Every path through spool ends the batch's flight: on disk, or given up as not spooled. */
  lemma SpoolRun(cfg: Config, s: State, id: BatchId, payload: Payload, e: SpoolEnv)
    requires StrictTotal(cfg.before)
    requires s.book.flight == Some(id) && id in s.book.sealed && payload == s.book.sealed[id]
    ensures Legal(cfg, s, SpoolSteps(cfg, s.spool, id, payload, e))
    ensures SpoolOutcome(cfg, s, Run(cfg, s, SpoolSteps(cfg, s.spool, id, payload, e)), id, payload, Spools(cfg, e), e)
  {
    if cfg.spoolDir == "" || !e.mkdirOk {
      RunOne(cfg, s, Drop(NotSpooled));
    } else if e.write.WriteFailed? {
      if e.write.left {
        RunOne(cfg, Next(cfg, s, WriteTmp(Torn)), Drop(NotSpooled));
        RunCons(cfg, s, WriteTmp(Torn), [Drop(NotSpooled)]);
      } else {
        RunOne(cfg, s, Drop(NotSpooled));
      }
    } else {
      var a := Next(cfg, s, WriteTmp(Torn));
      var b := Next(cfg, a, WriteTmp(Whole(payload)));
      var tail := RenameSteps(cfg, s.spool, id, payload, e);
      RenameRun(cfg, b, id, payload, e);
      WriteTwice(cfg, s, a, b, payload, tail);
      assert b.tmp - {id} == s.tmp - {id};
    }
  }

  lemma WriteTwice(cfg: Config, s: State, a: State, b: State, payload: Payload, tail: seq<Step>)
    requires Enabled(cfg, s, WriteTmp(Torn)) && a == Next(cfg, s, WriteTmp(Torn))
    requires Enabled(cfg, a, WriteTmp(Whole(payload))) && b == Next(cfg, a, WriteTmp(Whole(payload)))
    requires Legal(cfg, b, tail)
    ensures Legal(cfg, s, [WriteTmp(Torn), WriteTmp(Whole(payload))] + tail)
    ensures Run(cfg, s, [WriteTmp(Torn), WriteTmp(Whole(payload))] + tail) == Run(cfg, b, tail)
  {
    RunCons(cfg, a, WriteTmp(Whole(payload)), tail);
    RunCons(cfg, s, WriteTmp(Torn), [WriteTmp(Whole(payload))] + tail);
    assert [WriteTmp(Torn), WriteTmp(Whole(payload))] + tail == [WriteTmp(Torn)] + ([WriteTmp(Whole(payload))] + tail);
  }

  // ----- flushing -----

  predicate NoRetry(e: FlushEnv) {
    !Failed(e.first) || IsPermanentFailure(e.first) || e.cancelled
  }

  /** What sendWithRetry returns. */
  function FinalReply(e: FlushEnv): Reply {
    if NoRetry(e) then e.first else e.second
  }

  function Transmit(id: BatchId, payload: Payload, r: Reply): Step {
    Post(id, Whole(payload), r)
  }

  function SendSteps(id: BatchId, payload: Payload, e: FlushEnv): seq<Step> {
    if NoRetry(e) then [Transmit(id, payload, e.first)]
    else [Transmit(id, payload, e.first), Transmit(id, payload, e.second)]
  }

  ghost function AfterSend(cfg: Config, spool: Spool, id: BatchId, payload: Payload, r: Reply, e: SpoolEnv): seq<Step>
    requires StrictTotal(cfg.before)
  {
    if !Failed(r) then []
    else if IsPermanentFailure(r) then [Drop(Rejected)]
    else SpoolSteps(cfg, spool, id, payload, e)
  }

  ghost function FlushSteps(cfg: Config, s: State, e: FlushEnv): seq<Step>
    requires StrictTotal(cfg.before)
  {
    if s.batch == [] then []
    else match e.encoded
      case None => [FailEncode]
      case Some(bytes) =>
        var id, payload := cfg.id(s.minted), Payload(s.batch, bytes);
        [Seal(bytes)]
        + (SendSteps(id, payload, e) + AfterSend(cfg, s.spool, id, payload, FinalReply(e), e.spool))
  }

  ghost function FinalSteps(cfg: Config, s: State, e: FinalEnv): seq<Step>
    requires StrictTotal(cfg.before)
  {
    if s.batch == [] then []
    else match e.encoded
      case None => [FailEncode]
      case Some(bytes) =>
        var id, payload := cfg.id(s.minted), Payload(s.batch, bytes);
        [Seal(bytes)] +
        (if e.expired then SpoolSteps(cfg, s.spool, id, payload, e.spool)
         else [Transmit(id, payload, e.reply)] + AfterSend(cfg, s.spool, id, payload, e.reply, e.spool))
  }

  /** How a sealed batch can end: acknowledged, rejected, on disk, or given up unspooled. */
  ghost predicate Ended(cfg: Config, s: State, t: State, id: BatchId, payload: Payload, r: Reply, e: SpoolEnv)
    requires StrictTotal(cfg.before)
  {
    if !Failed(r) then t.spool == s.spool && t.tmp == s.tmp && t.book.dropped == s.book.dropped
    else if IsPermanentFailure(r)
    then t.spool == s.spool && t.tmp == s.tmp && t.book.dropped == s.book.dropped[id := Rejected]
    else if Spools(cfg, e) then id !in t.tmp && Kept(cfg, s, t, id, payload, e)
    else t.spool == s.spool && t.book.dropped == s.book.dropped[id := NotSpooled]
  }

  lemma AfterSendRun(cfg: Config, s: State, id: BatchId, payload: Payload, r: Reply, e: SpoolEnv)
    requires StrictTotal(cfg.before)
    requires id in s.book.sealed && s.book.sealed[id] == payload
    requires s.book.flight == (if Failed(r) then Some(id) else None)
    requires LastReply(s, id, x => x == r)
    ensures var steps := AfterSend(cfg, s.spool, id, payload, r, e);
      && Legal(cfg, s, steps)
      && var t := Run(cfg, s, steps);
         && t.queue == s.queue && t.batch == s.batch && t.minted == s.minted
         && t.book == s.book.(flight := None, dropped := t.book.dropped)
         && Ended(cfg, s, t, id, payload, r, e)
  {
    if Failed(r) {
      if IsPermanentFailure(r) {
        RunOne(cfg, s, Drop(Rejected));
      } else {
        SpoolRun(cfg, s, id, payload, e);
      }
    }
  }

  /** What a whole flush leaves alone; it empties the batch and settles the flight. */
  ghost predicate Settled(s: State, t: State) {
    && t.queue == s.queue && t.batch == [] && t.book.flight.None?
    && t.book.accepted == s.book.accepted && t.book.unsure == s.book.unsure
  }

  /** The closed record and the transmissions of a flush, and the end of its batch. */
  ghost predicate Flushed(cfg: Config, s: State, t: State, encoded: Option<nat>, replies: seq<Reply>, e: SpoolEnv)
    requires StrictTotal(cfg.before)
  {
    match encoded
    case None =>
      && t.book.records == s.book.records + [Unencodable(s.batch)]
      && t.book.log == s.book.log && t.spool == s.spool && t.tmp == s.tmp && t.book.dropped == s.book.dropped
    case Some(bytes) =>
      var id, payload := cfg.id(s.minted), Payload(s.batch, bytes);
      && t.book.records == s.book.records + [Sealed(id, payload)]
      && t.book.log == s.book.log + Transmissions(id, payload, replies)
      && Ended(cfg, s, t, id, payload, if replies == [] then NoReply else replies[|replies| - 1], e)
  }

  function Transmissions(id: BatchId, payload: Payload, replies: seq<Reply>): seq<Transmission> {
    if replies == [] then []
    else Transmissions(id, payload, replies[..|replies| - 1])
         + [Transmission(id, Whole(payload), replies[|replies| - 1])]
  }

  function Replies(e: FlushEnv): seq<Reply> {
    if NoRetry(e) then [e.first] else [e.first, e.second]
  }

  lemma TransmissionsAre(id: BatchId, payload: Payload, r: Reply, q: Reply)
    ensures Transmissions(id, payload, [r]) == [Transmission(id, Whole(payload), r)]
    ensures Transmissions(id, payload, [r, q])
            == [Transmission(id, Whole(payload), r), Transmission(id, Whole(payload), q)]
  {
    assert [r][..0] == [];
    assert [r, q][..1] == [r];
  }

  lemma SealedState(cfg: Config, s: State, bytes: nat) returns (t: State)
    requires s.book.flight.None? && s.batch != []
    ensures Enabled(cfg, s, Seal(bytes)) && t == Next(cfg, s, Seal(bytes))
    ensures var id, payload := cfg.id(s.minted), Payload(s.batch, bytes);
      && t.batch == [] && t.queue == s.queue && t.spool == s.spool && t.tmp == s.tmp
      && id in t.book.sealed && t.book.sealed[id] == payload
      && t.book == s.book.(records := s.book.records + [Sealed(id, payload)],
                           sealed := t.book.sealed, flight := Some(id))
  {
    t := Next(cfg, s, Seal(bytes));
  }

  lemma PostedState(cfg: Config, s: State, id: BatchId, payload: Payload, r: Reply) returns (t: State)
    requires s.book.flight == Some(id) && id in s.book.sealed && s.book.sealed[id] == payload
    ensures Enabled(cfg, s, Transmit(id, payload, r)) && t == Next(cfg, s, Transmit(id, payload, r))
    ensures t == s.(book := s.book.(log := s.book.log + [Transmission(id, Whole(payload), r)],
                                    flight := if Failed(r) then Some(id) else None))
    ensures LastReply(t, id, x => x == r)
  {
    t := Next(cfg, s, Transmit(id, payload, r));
  }

  lemma SendRun(cfg: Config, s: State, id: BatchId, payload: Payload, e: FlushEnv)
    requires s.book.flight == Some(id) && id in s.book.sealed && s.book.sealed[id] == payload
    ensures Legal(cfg, s, SendSteps(id, payload, e))
    ensures var t := Run(cfg, s, SendSteps(id, payload, e));
      && t == s.(book := s.book.(log := s.book.log + Transmissions(id, payload, Replies(e)),
                                 flight := if Failed(FinalReply(e)) then Some(id) else None))
      && LastReply(t, id, x => x == FinalReply(e))
  {
    TransmissionsAre(id, payload, e.first, e.second);
    var a := PostedState(cfg, s, id, payload, e.first);
    if NoRetry(e) {
      RunOne(cfg, s, Transmit(id, payload, e.first));
    } else {
      SendTwice(cfg, s, a, id, payload, e);
    }
  }

  lemma SendTwice(cfg: Config, s: State, a: State, id: BatchId, payload: Payload, e: FlushEnv)
    requires s.book.flight == Some(id) && id in s.book.sealed && s.book.sealed[id] == payload
    requires Failed(e.first) && a == Next(cfg, s, Transmit(id, payload, e.first))
    ensures Legal(cfg, s, [Transmit(id, payload, e.first), Transmit(id, payload, e.second)])
    ensures var t := Run(cfg, s, [Transmit(id, payload, e.first), Transmit(id, payload, e.second)]);
      && t == s.(book := s.book.(log := s.book.log + [Transmission(id, Whole(payload), e.first),
                                                      Transmission(id, Whole(payload), e.second)],
                                 flight := if Failed(e.second) then Some(id) else None))
      && LastReply(t, id, x => x == e.second)
  {
    var b := PostedState(cfg, a, id, payload, e.second);
    RunOne(cfg, a, Transmit(id, payload, e.second));
    RunCons(cfg, s, Transmit(id, payload, e.first), [Transmit(id, payload, e.second)]);
    assert [Transmit(id, payload, e.first), Transmit(id, payload, e.second)]
        == [Transmit(id, payload, e.first)] + [Transmit(id, payload, e.second)];
    ConcatAssociative(s.book.log, [Transmission(id, Whole(payload), e.first)],
                      [Transmission(id, Whole(payload), e.second)]);
  }

  /** A flush closes the batch as one record: acknowledged, rejected, spooled or named as lost. */
  lemma FlushRun(cfg: Config, s: State, e: FlushEnv)
    requires StrictTotal(cfg.before) && s.book.flight.None? && s.batch != []
    ensures Legal(cfg, s, FlushSteps(cfg, s, e))
    ensures Settled(s, Run(cfg, s, FlushSteps(cfg, s, e)))
    ensures Flushed(cfg, s, Run(cfg, s, FlushSteps(cfg, s, e)), e.encoded, Replies(e), e.spool)
  {
    if e.encoded.None? {
      RunOne(cfg, s, FailEncode);
    } else {
      var bytes := e.encoded.value;
      var id, payload := cfg.id(s.minted), Payload(s.batch, bytes);
      var a := SealedState(cfg, s, bytes);
      SendRun(cfg, a, id, payload, e);
      var b := Run(cfg, a, SendSteps(id, payload, e));
      AfterSendRun(cfg, b, id, payload, FinalReply(e), e.spool);
      var after := AfterSend(cfg, s.spool, id, payload, FinalReply(e), e.spool);
      RunConcat(cfg, a, SendSteps(id, payload, e), after);
      RunCons(cfg, s, Seal(bytes), SendSteps(id, payload, e) + after);
    }
  }

  /** The shutdown variant sends at most once, and not at all when the budget is used up. */
  lemma FinalRun(cfg: Config, s: State, e: FinalEnv)
    requires StrictTotal(cfg.before) && s.book.flight.None? && s.batch != []
    ensures Legal(cfg, s, FinalSteps(cfg, s, e))
    ensures Settled(s, Run(cfg, s, FinalSteps(cfg, s, e)))
    ensures Flushed(cfg, s, Run(cfg, s, FinalSteps(cfg, s, e)), e.encoded, if e.expired then [] else [e.reply], e.spool)
  {
    if e.encoded.None? {
      RunOne(cfg, s, FailEncode);
    } else {
      var bytes := e.encoded.value;
      var id, payload := cfg.id(s.minted), Payload(s.batch, bytes);
      var a := SealedState(cfg, s, bytes);
      if e.expired {
        SpoolRun(cfg, a, id, payload, e.spool);
        RunCons(cfg, s, Seal(bytes), SpoolSteps(cfg, s.spool, id, payload, e.spool));
      } else {
        TransmissionsAre(id, payload, e.reply, e.reply);
        var b := PostedState(cfg, a, id, payload, e.reply);
        var after := AfterSend(cfg, s.spool, id, payload, e.reply, e.spool);
        AfterSendRun(cfg, b, id, payload, e.reply, e.spool);
        RunCons(cfg, a, Transmit(id, payload, e.reply), after);
        RunCons(cfg, s, Seal(bytes), [Transmit(id, payload, e.reply)] + after);
      }
    }
  }

  // ----- replaying the spool -----

  predicate Transient(e: FileEnv) {
    e.owned && e.readable && Failed(e.reply) && !IsPermanentFailure(e.reply)
  }

  /** The file disappears: every outcome but a transient one removes it, if the removal succeeds. */
  predicate Gone(e: FileEnv) {
    !Transient(e) && e.removable
  }

  predicate Sends(e: FileEnv) {
    e.owned && e.readable
  }

  function RemovalReason(e: FileEnv): Option<Cause> {
    if !e.owned then Some(Foreign)
    else if !e.readable then Some(Unreadable)
    else if Failed(e.reply) then Some(ReplayRejected)
    else None
  }

  function ReplaySteps(id: BatchId, e: FileEnv): seq<Step> {
    (if Sends(e) then [Resend(id, e.reply)] else [])
    + (if Gone(e) then [Remove(id, RemovalReason(e))] else [])
  }

  /** The replays of one pass, oldest first, until three have failed transiently. */
  function RetrySteps(files: seq<BatchId>, env: BatchId -> FileEnv, fails: nat): seq<Step> {
    if files == [] || fails >= MAX_TRANSIENT_PER_RUN then []
    else ReplaySteps(files[0], env(files[0]))
         + RetrySteps(files[1..], env, if Transient(env(files[0])) then fails + 1 else fails)
  }

  /** How many files a pass visits. */
  function Visited(files: seq<BatchId>, env: BatchId -> FileEnv, fails: nat): nat {
    if files == [] || fails >= MAX_TRANSIENT_PER_RUN then 0
    else 1 + Visited(files[1..], env, if Transient(env(files[0])) then fails + 1 else fails)
  }

  function TransientCount(files: seq<BatchId>, env: BatchId -> FileEnv): nat {
    if files == [] then 0
    else (if Transient(env(files[0])) then 1 else 0) + TransientCount(files[1..], env)
  }

  /** A pass stops at the end of the listing or exactly at its third transient failure. */
  lemma {:induction false} PassStops(files: seq<BatchId>, env: BatchId -> FileEnv, fails: nat)
    requires fails <= MAX_TRANSIENT_PER_RUN
    ensures var v := Visited(files, env, fails);
      && v <= |files|
      && (v == |files| || fails + TransientCount(files[..v], env) == MAX_TRANSIENT_PER_RUN)
      && fails + TransientCount(files[..v], env) <= MAX_TRANSIENT_PER_RUN
      && forall k :: 0 <= k < v ==> fails + TransientCount(files[..k], env) < MAX_TRANSIENT_PER_RUN
  {
    if files != [] && fails < MAX_TRANSIENT_PER_RUN {
      var next := if Transient(env(files[0])) then fails + 1 else fails;
      PassStops(files[1..], env, next);
      var v := Visited(files, env, fails);
      assert files[..v][1..] == files[1..][..v - 1];
      forall k | 0 <= k < v
        ensures fails + TransientCount(files[..k], env) < MAX_TRANSIENT_PER_RUN
      {
        if k > 0 {
          assert files[..k][1..] == files[1..][..k - 1];
        }
      }
    }
  }

  lemma {:induction false} TransientGrows(files: seq<BatchId>, env: BatchId -> FileEnv, j: nat, k: nat)
    requires j <= k <= |files|
    ensures TransientCount(files[..j], env) <= TransientCount(files[..k], env)
    decreases |files|
  {
    if j > 0 {
      TransientGrows(files[1..], env, j - 1, k - 1);
      assert files[..j][1..] == files[1..][..j - 1] && files[..k][1..] == files[1..][..k - 1];
    }
  }

  /**
   * File by file: a listed file is visited if and only if fewer than three before it fail
   * transiently, so three files that keep failing hold back every newer one.
   */
  lemma VisitedIff(files: seq<BatchId>, env: BatchId -> FileEnv, k: nat)
    requires k < |files|
    ensures k < Visited(files, env, 0) <==> TransientCount(files[..k], env) < 3
  {
    PassStops(files, env, 0);
    var v := Visited(files, env, 0);
    if v <= k {
      TransientGrows(files, env, v, k);
    }
  }

  /** The files of a listing that a replay makes disappear. */
  function GoneIds(files: seq<BatchId>, env: BatchId -> FileEnv): set<BatchId> {
    set x | x in files && Gone(env(x))
  }

  /** The transmissions of the visited files, in the order of the listing. */
  function Sent(spool: Spool, files: seq<BatchId>, env: BatchId -> FileEnv): seq<Transmission>
    requires forall x :: x in files ==> x in spool
  {
    if files == [] then []
    else
      assert files[0] in files;
      (if Sends(env(files[0])) then [Transmission(files[0], spool[files[0]], env(files[0]).reply)] else [])
      + Sent(spool, files[1..], env)
  }

  lemma {:induction false} SentDependsOnListed(d: Spool, d': Spool, files: seq<BatchId>, env: BatchId -> FileEnv)
    requires forall x :: x in files ==> x in d && x in d' && d[x] == d'[x]
    ensures Sent(d, files, env) == Sent(d', files, env)
  {
    if files != [] {
      assert files[0] in files;
      SentDependsOnListed(d, d', files[1..], env);
    }
  }

  /** The state after the replay of one file. */
  function Replayed(s: State, id: BatchId, e: FileEnv): State
    requires id in s.spool
  {
    s.(spool := if Gone(e) then s.spool - {id} else s.spool,
       book := s.book.(
         log := s.book.log + (if Sends(e) then [Transmission(id, s.spool[id], e.reply)] else []),
         dropped := if Gone(e) && RemovalReason(e).Some?
                    then s.book.dropped[id := RemovalReason(e).value] else s.book.dropped,
         unsure := if Sends(e) && !Failed(e.reply)
                   then (if Gone(e) then s.book.unsure - {id} else s.book.unsure + {id})
                   else s.book.unsure))
  }

  lemma ReplayRun(cfg: Config, s: State, id: BatchId, e: FileEnv)
    requires s.book.flight.None? && id in s.spool
    ensures Legal(cfg, s, ReplaySteps(id, e)) && Run(cfg, s, ReplaySteps(id, e)) == Replayed(s, id, e)
  {
    var send, drop := Resend(id, e.reply), Remove(id, RemovalReason(e));
    if Sends(e) {
      var a := Next(cfg, s, send);
      assert a.book.log[|a.book.log| - 1] == Transmission(id, s.spool[id], e.reply);
      if Gone(e) {
        assert Enabled(cfg, a, drop);
        RunOne(cfg, a, drop);
        RunCons(cfg, s, send, [drop]);
      } else {
        RunOne(cfg, s, send);
        assert ReplaySteps(id, e) == [send];
      }
    } else if Gone(e) {
      RunOne(cfg, s, drop);
      assert ReplaySteps(id, e) == [drop];
    } else {
      assert ReplaySteps(id, e) == [];
      assert s.book.log + [] == s.book.log;
    }
  }

  /** The files from `i` on are still there. */
  ghost predicate Pending(cfg: Config, files: seq<BatchId>, i: nat, spool: Spool) {
    i <= |files| && Ascending(cfg.before, files) && forall k :: i <= k < |files| ==> files[k] in spool
  }

  lemma PendingStart(cfg: Config, files: seq<BatchId>, spool: Spool)
    requires IsListing(cfg.before, files, spool.Keys)
    ensures Pending(cfg, files, 0, spool)
  {
    assert forall k :: 0 <= k < |files| ==> files[k] in files;
  }

  lemma PendingStep(cfg: Config, files: seq<BatchId>, i: nat, d: Spool, d': Spool)
    requires StrictTotal(cfg.before)
    requires i < |files| && Pending(cfg, files, i, d) && (d' == d || d' == d - {files[i]})
    ensures Pending(cfg, files, i + 1, d')
  {
    assert forall k :: i < k < |files| ==> cfg.before(files[i], files[k]);
  }

  /** State `t` is `s` after the files i..j were sent in order and the vanishing ones removed. */
  ghost predicate AfterPass(s: State, t: State, files: seq<BatchId>, env: BatchId -> FileEnv, i: nat, j: nat) {
    && i <= j <= |files|
    && (forall x :: x in files[i..j] ==> x in s.spool)
    && t.spool == s.spool - GoneIds(files[i..j], env)
    && t == s.(spool := t.spool,
               book := s.book.(log := s.book.log + Sent(s.spool, files[i..j], env),
                               dropped := t.book.dropped, unsure := t.book.unsure))
  }

  lemma SentCons(cfg: Config, d: Spool, d': Spool, files: seq<BatchId>, env: BatchId -> FileEnv, i: nat, j: nat)
    requires i < j <= |files| && i < |files| && Pending(cfg, files, i, d)
    requires forall x :: x in files[i + 1..j] ==> x in d'
    requires forall x :: x in d' ==> x in d && d'[x] == d[x]
    ensures forall x :: x in files[i..j] ==> x in d
    ensures Sent(d, files[i..j], env)
            == (if Sends(env(files[i])) then [Transmission(files[i], d[files[i]], env(files[i]).reply)] else [])
               + Sent(d', files[i + 1..j], env)
  {
    var here, rest := files[i..j], files[i + 1..j];
    assert here[0] == files[i] && here[1..] == rest;
    forall x | x in here
      ensures x in d
    {
      var k :| i <= k < j && files[k] == x;
    }
    SentDependsOnListed(d', d, rest, env);
  }

  lemma GoneCons(d: Spool, files: seq<BatchId>, env: BatchId -> FileEnv, i: nat, j: nat)
    requires i < j <= |files|
    ensures (if Gone(env(files[i])) then d - {files[i]} else d) - GoneIds(files[i + 1..j], env)
            == d - GoneIds(files[i..j], env)
  {
    assert files[i..j] == [files[i]] + files[i + 1..j];
    assert GoneIds(files[i..j], env)
        == GoneIds(files[i + 1..j], env) + if Gone(env(files[i])) then {files[i]} else {};
  }

  lemma AfterPassCons(cfg: Config, s: State, a: State, t: State, files: seq<BatchId>, env: BatchId -> FileEnv,
                      i: nat, j: nat)
    requires i < |files| && Pending(cfg, files, i, s.spool)
    requires a == Replayed(s, files[i], env(files[i])) && AfterPass(a, t, files, env, i + 1, j)
    ensures AfterPass(s, t, files, env, i, j)
  {
    SentCons(cfg, s.spool, a.spool, files, env, i, j);
    GoneCons(s.spool, files, env, i, j);
    var first := if Sends(env(files[i])) then [Transmission(files[i], s.spool[files[i]], env(files[i]).reply)] else [];
    ConcatAssociative(s.book.log, first, Sent(a.spool, files[i + 1..j], env));
  }

  lemma AfterPassNext(cfg: Config, s: State, a: State, t: State, files: seq<BatchId>, env: BatchId -> FileEnv,
                      i: nat, k: nat, visited: nat)
    requires i < |files| && k == i + 1 && Pending(cfg, files, i, s.spool)
    requires a == Replayed(s, files[i], env(files[i])) && AfterPass(a, t, files, env, k, k + visited)
    ensures AfterPass(s, t, files, env, i, i + (1 + visited))
  {
    var j := k + visited;
    AfterPassCons(cfg, s, a, t, files, env, i, j);
    assert i + (1 + visited) == j;
  }

  lemma AfterNothing(s: State, files: seq<BatchId>, env: BatchId -> FileEnv, i: nat)
    requires i <= |files|
    ensures AfterPass(s, s, files, env, i, i)
  {
    assert files[i..i] == [] && GoneIds([], env) == {};
    assert s.spool - {} == s.spool && s.book.log + [] == s.book.log;
  }

  lemma RetryUnfold(files: seq<BatchId>, i: nat, k: nat, env: BatchId -> FileEnv, fails: nat, next: nat)
    requires i < |files| && k == i + 1 && fails < MAX_TRANSIENT_PER_RUN
    requires next == if Transient(env(files[i])) then fails + 1 else fails
    ensures RetrySteps(files[i..], env, fails) == ReplaySteps(files[i], env(files[i])) + RetrySteps(files[k..], env, next)
    ensures Visited(files[i..], env, fails) == 1 + Visited(files[k..], env, next)
  {
    SliceHead(files, i);
  }

  /** Everything a pass from the i-th file on promises. */
  ghost predicate PassKeeps(cfg: Config, s: State, files: seq<BatchId>, env: BatchId -> FileEnv, i: nat,
                            steps: seq<Step>, visited: nat) {
    Legal(cfg, s, steps) && AfterPass(s, Run(cfg, s, steps), files, env, i, i + visited)
  }

  lemma PassNothing(cfg: Config, s: State, files: seq<BatchId>, env: BatchId -> FileEnv, i: nat)
    requires i <= |files|
    ensures PassKeeps(cfg, s, files, env, i, [], 0)
  {
    RunNothing(cfg, s);
    AfterNothing(s, files, env, i);
  }

  lemma ReplayTurn(cfg: Config, s: State, files: seq<BatchId>, env: BatchId -> FileEnv, i: nat, k: nat)
    returns (a: State)
    requires StrictTotal(cfg.before) && s.book.flight.None? && Pending(cfg, files, i, s.spool)
    requires i < |files| && k == i + 1
    ensures files[i] in s.spool && a == Replayed(s, files[i], env(files[i])) && a.book.flight.None?
    ensures Legal(cfg, s, ReplaySteps(files[i], env(files[i]))) && Run(cfg, s, ReplaySteps(files[i], env(files[i]))) == a
    ensures Pending(cfg, files, k, a.spool)
  {
    ReplayRun(cfg, s, files[i], env(files[i]));
    a := Run(cfg, s, ReplaySteps(files[i], env(files[i])));
    PendingStep(cfg, files, i, s.spool, a.spool);
  }

  lemma PassStep(cfg: Config, s: State, a: State, files: seq<BatchId>, env: BatchId -> FileEnv, i: nat, k: nat,
                 one: seq<Step>, rest: seq<Step>, visited: nat)
    requires i < |files| && k == i + 1 && Pending(cfg, files, i, s.spool)
    requires Legal(cfg, s, one) && a == Run(cfg, s, one) == Replayed(s, files[i], env(files[i]))
    requires PassKeeps(cfg, a, files, env, k, rest, visited)
    ensures PassKeeps(cfg, s, files, env, i, one + rest, 1 + visited)
  {
    RunConcat(cfg, s, one, rest);
    AfterPassNext(cfg, s, a, Run(cfg, a, rest), files, env, i, k, visited);
  }

  lemma PassTurn(cfg: Config, s: State, a: State, files: seq<BatchId>, env: BatchId -> FileEnv, i: nat, k: nat,
                 fails: nat, next: nat, steps: seq<Step>, visited: nat)
    requires i < |files| && k == i + 1 && Pending(cfg, files, i, s.spool) && fails < MAX_TRANSIENT_PER_RUN
    requires next == if Transient(env(files[i])) then fails + 1 else fails
    requires Legal(cfg, s, ReplaySteps(files[i], env(files[i])))
    requires a == Run(cfg, s, ReplaySteps(files[i], env(files[i]))) == Replayed(s, files[i], env(files[i]))
    requires PassKeeps(cfg, a, files, env, k, RetrySteps(files[k..], env, next), Visited(files[k..], env, next))
    requires steps == RetrySteps(files[i..], env, fails) && visited == Visited(files[i..], env, fails)
    ensures PassKeeps(cfg, s, files, env, i, steps, visited)
  {
    var one, rest := ReplaySteps(files[i], env(files[i])), RetrySteps(files[k..], env, next);
    var more := Visited(files[k..], env, next);
    RetryUnfold(files, i, k, env, fails, next);
    assert steps == one + rest && visited == 1 + more;
    PassStep(cfg, s, a, files, env, i, k, one, rest, more);
  }

  /**
   * One pass over the spool: it visits a prefix of the oldest-first listing, sends exactly the
   * visited files in that order, removes exactly those of them that did not fail transiently (and
   * whose removal succeeded), and leaves every other file alone.
   */
  lemma {:induction false} RetryPass(
    cfg: Config, s: State, files: seq<BatchId>, env: BatchId -> FileEnv, i: nat, fails: nat)
    requires StrictTotal(cfg.before) && s.book.flight.None? && Pending(cfg, files, i, s.spool)
    ensures PassKeeps(cfg, s, files, env, i, RetrySteps(files[i..], env, fails), Visited(files[i..], env, fails))
    decreases |files| - i
  {
    if i == |files| || fails >= MAX_TRANSIENT_PER_RUN {
      PassNothing(cfg, s, files, env, i);
    } else {
      var next := if Transient(env(files[i])) then fails + 1 else fails;
      var k := i + 1;
      var a := ReplayTurn(cfg, s, files, env, i, k);
      RetryPass(cfg, a, files, env, k, next);
      PassTurn(cfg, s, a, files, env, i, k, fails, next,
               RetrySteps(files[i..], env, fails), Visited(files[i..], env, fails));
    }
  }

  predicate Accepted(e: FileEnv) {
    Sends(e) && !Failed(e.reply)
  }

  /** The files of a listing whose replay the receiver accepts. */
  function AcceptedIds(files: seq<BatchId>, env: BatchId -> FileEnv): set<BatchId> {
    set x | x in files && Accepted(env(x))
  }

  lemma AcceptedCons(unsure: set<BatchId>, files: seq<BatchId>, env: BatchId -> FileEnv, i: nat, j: nat)
    requires i < j <= |files|
    ensures (if Accepted(env(files[i])) then unsure - {files[i]} else unsure) - AcceptedIds(files[i + 1..j], env)
            == unsure - AcceptedIds(files[i..j], env)
  {
    SliceCons(files, i, j);
    assert AcceptedIds(files[i..j], env)
        == AcceptedIds(files[i + 1..j], env) + if Accepted(env(files[i])) then {files[i]} else {};
  }

  lemma AcceptedNext(unsure: set<BatchId>, files: seq<BatchId>, env: BatchId -> FileEnv, i: nat, k: nat, visited: nat)
    requires k == i + 1 && k + visited <= |files|
    ensures (if Accepted(env(files[i])) then unsure - {files[i]} else unsure) - AcceptedIds(files[k..k + visited], env)
            == unsure - AcceptedIds(files[i..i + (1 + visited)], env)
  {
    var j := k + visited;
    AcceptedCons(unsure, files, env, i, j);
    assert i + (1 + visited) == j;
  }

  lemma ReplayConfirms(s: State, id: BatchId, e: FileEnv)
    requires id in s.spool && e.removable
    ensures Replayed(s, id, e).book.unsure == if Accepted(e) then s.book.unsure - {id} else s.book.unsure
  {
  }

  ghost predicate PassConfirms(cfg: Config, s: State, files: seq<BatchId>, env: BatchId -> FileEnv, i: nat,
                               steps: seq<Step>, visited: nat) {
    && Legal(cfg, s, steps) && i + visited <= |files|
    && Run(cfg, s, steps).book.unsure == s.book.unsure - AcceptedIds(files[i..i + visited], env)
  }

  lemma ConfirmStep(cfg: Config, s: State, a: State, files: seq<BatchId>, env: BatchId -> FileEnv, i: nat, k: nat,
                    one: seq<Step>, rest: seq<Step>, visited: nat)
    requires i < |files| && k == i + 1 && files[i] in s.spool && env(files[i]).removable
    requires Legal(cfg, s, one) && a == Run(cfg, s, one) == Replayed(s, files[i], env(files[i]))
    requires PassConfirms(cfg, a, files, env, k, rest, visited)
    ensures PassConfirms(cfg, s, files, env, i, one + rest, 1 + visited)
  {
    RunConcat(cfg, s, one, rest);
    ReplayConfirms(s, files[i], env(files[i]));
    AcceptedNext(s.book.unsure, files, env, i, k, visited);
  }

  lemma ConfirmTurn(cfg: Config, s: State, a: State, files: seq<BatchId>, env: BatchId -> FileEnv, i: nat, k: nat,
                    fails: nat, next: nat)
    requires i < |files| && k == i + 1 && fails < MAX_TRANSIENT_PER_RUN
    requires files[i] in s.spool && env(files[i]).removable
    requires next == if Transient(env(files[i])) then fails + 1 else fails
    requires Legal(cfg, s, ReplaySteps(files[i], env(files[i])))
    requires a == Run(cfg, s, ReplaySteps(files[i], env(files[i]))) == Replayed(s, files[i], env(files[i]))
    requires PassConfirms(cfg, a, files, env, k, RetrySteps(files[k..], env, next), Visited(files[k..], env, next))
    ensures PassConfirms(cfg, s, files, env, i, RetrySteps(files[i..], env, fails), Visited(files[i..], env, fails))
  {
    var one, rest := ReplaySteps(files[i], env(files[i])), RetrySteps(files[k..], env, next);
    ConfirmStep(cfg, s, a, files, env, i, k, one, rest, Visited(files[k..], env, next));
    RetryUnfold(files, i, k, env, fails, next);
  }

  lemma ConfirmNothing(cfg: Config, s: State, files: seq<BatchId>, env: BatchId -> FileEnv, i: nat)
    requires i <= |files|
    ensures PassConfirms(cfg, s, files, env, i, [], 0)
  {
    RunNothing(cfg, s);
    assert files[i..i] == [] && AcceptedIds([], env) == {};
  }

  /**
   * If every removal succeeds, a pass leaves none of the batches it got accepted unsure, those of
   * earlier passes included, and adds none.
   */
  lemma {:induction false} RetryConfirms(
    cfg: Config, s: State, files: seq<BatchId>, env: BatchId -> FileEnv, i: nat, fails: nat)
    requires StrictTotal(cfg.before) && s.book.flight.None? && Pending(cfg, files, i, s.spool)
    requires forall x :: env(x).removable
    ensures PassConfirms(cfg, s, files, env, i, RetrySteps(files[i..], env, fails), Visited(files[i..], env, fails))
    decreases |files| - i
  {
    if i == |files| || fails >= MAX_TRANSIENT_PER_RUN {
      ConfirmNothing(cfg, s, files, env, i);
    } else {
      var next := if Transient(env(files[i])) then fails + 1 else fails;
      var k := i + 1;
      var a := ReplayTurn(cfg, s, files, env, i, k);
      RetryConfirms(cfg, a, files, env, k, next);
      ConfirmTurn(cfg, s, a, files, env, i, k, fails, next);
    }
  }

  // ----- the loops half way -----

  /** A trim begun in `s` has reached `t` by the steps `done`; `all` are the steps of the whole trim. */
  ghost predicate MidTrim(cfg: Config, s: State, t: State, all: seq<Step>, done: seq<Step>,
                          files: seq<BatchId>, i: nat, remaining: int, e: SpoolEnv) {
    && Pending(cfg, files, i, t.spool) && t.book.flight.None?
    && Legal(cfg, s, done) && t == Run(cfg, s, done)
    && all == done + Evictions(Victims(s.spool, files[i..], remaining, cfg.budget, e))
  }

  lemma MidTrimStart(cfg: Config, s: State, e: SpoolEnv, files: seq<BatchId>)
    requires StrictTotal(cfg.before) && s.book.flight.None? && files == Listing(cfg.before, s.spool.Keys)
    ensures MidTrim(cfg, s, s, TrimSteps(cfg, s.spool, e), [], files, 0, TotalSize(s.spool, files, e.blind), e)
  {
    RunNothing(cfg, s);
    ConcatNothing(TrimSteps(cfg, s.spool, e));
    PendingStart(cfg, files, s.spool);
    WholeSlice(files);
  }

  lemma VictimsTurn(spool: Spool, done: seq<Step>, files: seq<BatchId>, i: nat, remaining: int, left: int,
                    budget: nat, e: SpoolEnv)
    requires i < |files| && remaining > budget && files[i] !in e.stuck
    requires left == remaining - Measured(spool, files[i], e.blind)
    ensures done + Evictions(Victims(spool, files[i..], remaining, budget, e))
            == (done + [Remove(files[i], Some(Evicted))]) + Evictions(Victims(spool, files[i + 1..], left, budget, e))
  {
    VictimsUnfold(spool, files, i, remaining, left, budget, e);
    var rest := Victims(spool, files[i + 1..], left, budget, e);
    assert ([files[i]] + rest)[1..] == rest;
    ConcatAssociative(done, [Remove(files[i], Some(Evicted))], Evictions(rest));
  }

  lemma MidTrimEvict(cfg: Config, s: State, t: State, u: State, all: seq<Step>, done: seq<Step>,
                     files: seq<BatchId>, i: nat, remaining: int, left: int, e: SpoolEnv)
    requires StrictTotal(cfg.before) && MidTrim(cfg, s, t, all, done, files, i, remaining, e)
    requires i < |files| && remaining > cfg.budget && files[i] !in e.stuck
    requires left == remaining - Measured(s.spool, files[i], e.blind)
    requires Enabled(cfg, t, Remove(files[i], Some(Evicted))) && u == Next(cfg, t, Remove(files[i], Some(Evicted)))
    ensures MidTrim(cfg, s, u, all, done + [Remove(files[i], Some(Evicted))], files, i + 1, left, e)
  {
    VictimsTurn(s.spool, done, files, i, remaining, left, cfg.budget, e);
    PendingStep(cfg, files, i, t.spool, u.spool);
    RunSnoc(cfg, s, done, Remove(files[i], Some(Evicted)));
  }

  lemma MidTrimSkip(cfg: Config, s: State, t: State, all: seq<Step>, done: seq<Step>,
                    files: seq<BatchId>, i: nat, remaining: int, e: SpoolEnv)
    requires StrictTotal(cfg.before) && MidTrim(cfg, s, t, all, done, files, i, remaining, e)
    requires i < |files| && remaining > cfg.budget && files[i] in e.stuck
    ensures MidTrim(cfg, s, t, all, done, files, i + 1, remaining, e)
  {
    SliceHead(files, i);
    PendingStep(cfg, files, i, t.spool, t.spool);
  }

  lemma MidTrimEnd(cfg: Config, s: State, t: State, all: seq<Step>, done: seq<Step>,
                   files: seq<BatchId>, i: nat, remaining: int, e: SpoolEnv)
    requires MidTrim(cfg, s, t, all, done, files, i, remaining, e)
    requires i == |files| || remaining <= cfg.budget
    ensures Legal(cfg, s, all) && t == Run(cfg, s, all)
  {
    assert done + [] == done;
  }

  /** A replay pass begun in `s` has reached `t` by the steps `done`. */
  ghost predicate MidPass(cfg: Config, s: State, t: State, all: seq<Step>, done: seq<Step>,
                          files: seq<BatchId>, i: nat, env: BatchId -> FileEnv, fails: nat) {
    && Pending(cfg, files, i, t.spool) && t.book.flight.None?
    && Legal(cfg, s, done) && t == Run(cfg, s, done)
    && all == done + RetrySteps(files[i..], env, fails)
  }

  lemma MidPassStart(cfg: Config, s: State, files: seq<BatchId>, env: BatchId -> FileEnv)
    requires StrictTotal(cfg.before) && s.book.flight.None? && files == Listing(cfg.before, s.spool.Keys)
    ensures MidPass(cfg, s, s, RetrySteps(files, env, 0), [], files, 0, env, 0)
  {
    RunNothing(cfg, s);
    PendingStart(cfg, files, s.spool);
    assert files[0..] == files;
  }

  lemma MidPassStep(cfg: Config, s: State, t: State, all: seq<Step>, done: seq<Step>,
                    files: seq<BatchId>, i: nat, env: BatchId -> FileEnv, fails: nat, next: nat)
    requires StrictTotal(cfg.before) && MidPass(cfg, s, t, all, done, files, i, env, fails)
    requires i < |files| && fails < MAX_TRANSIENT_PER_RUN
    requires next == if Transient(env(files[i])) then fails + 1 else fails
    ensures var one := ReplaySteps(files[i], env(files[i]));
      && Legal(cfg, t, one)
      && MidPass(cfg, s, Run(cfg, t, one), all, done + one, files, i + 1, env, next)
  {
    var one := ReplaySteps(files[i], env(files[i]));
    ReplayRun(cfg, t, files[i], env(files[i]));
    var u := Run(cfg, t, one);
    RetryUnfold(files, i, i + 1, env, fails, next);
    PendingStep(cfg, files, i, t.spool, u.spool);
    RunConcat(cfg, s, done, one);
    ConcatAssociative(done, one, RetrySteps(files[i + 1..], env, next));
  }

  lemma MidPassEnd(cfg: Config, s: State, t: State, all: seq<Step>, done: seq<Step>,
                   files: seq<BatchId>, i: nat, env: BatchId -> FileEnv, fails: nat)
    requires MidPass(cfg, s, t, all, done, files, i, env, fails)
    requires i == |files| || fails >= MAX_TRANSIENT_PER_RUN
    ensures Legal(cfg, s, all) && t == Run(cfg, s, all)
  {
    assert done + [] == done;
  }
}
