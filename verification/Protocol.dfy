/**
 * The spooling shipper of internal/topsrv/shipper/pusher.go as a state machine of atomic effects.
 * Every effect the code has on its queue, its batch, the receiver or the spool directory is one
 * step, so a crash between any two of them is an ordinary point of a run.
 */
module Protocol {
  import opened Listings
  import opened Options

  /** A batch id names a file, so it holds no path separator. */
  type BatchId = s: string | '/' !in s witness ""

  /** One event; `line` is its serialised form. */
  datatype Event = Event(line: string)

  /** A gzipped batch: what it decodes to, and its compressed size. */
  datatype Payload = Payload(events: seq<Event>, bytes: nat)

  /** A file holds a complete payload or the torn prefix of one. */
  datatype Content = Whole(payload: Payload) | Torn

  type Spool = map<BatchId, Content>

  /** What one HTTP send reports: a status, or a transport error (connect, timeout, cancelled). */
  datatype Reply = Status(code: nat) | NoReply

  predicate Failed(r: Reply) {
    r.NoReply? || r.code >= 400
  }

  predicate IsPermanentFailure(r: Reply) {
    r.Status? && 400 <= r.code < 500 && r.code != 408 && r.code != 429
  }

  datatype Transmission = Transmission(id: BatchId, content: Content, reply: Reply)

  /** Why a sealed batch was given up. */
  datatype Cause = Rejected | NotSpooled | ReplayRejected | Foreign | Unreadable | Evicted | ProcessDeath

  /** A batch that left the builder: encoded under an id, lost to the encoder, or lost in memory. */
  datatype Record =
    | Sealed(id: BatchId, payload: Payload)
    | Unencodable(events: seq<Event>)
    | Abandoned(events: seq<Event>)

  /**
   * `id(i)` is the i-th id that newBatchID returns, and `before` the order in which file names sort;
   * SpoolNames shows that the real ids and the real order meet `Valid`.
   */
  datatype Config = Config(
    batchSize: nat, spoolDir: string, budget: nat, id: nat -> BatchId, before: (BatchId, BatchId) -> bool)
  {
    ghost predicate Valid() {
      batchSize > 0 && FreshIds() && StrictTotal(before)
    }

    ghost predicate FreshIds() {
      forall i, j :: i != j ==> id(i) != id(j)
    }
  }

  /**
   * The bookkeeping no code reads.  `flight` is the batch being sent or spooled; `unsure` holds
   * the batches whose accepted replay was not followed by the removal of their file.
   */
  datatype Ledger = Ledger(
    accepted: seq<Event>,
    records: seq<Record>,
    sealed: map<BatchId, Payload>,
    flight: Option<BatchId>,
    log: seq<Transmission>,
    dropped: map<BatchId, Cause>,
    unsure: set<BatchId>)

  /** The spool directory is split by the two globs: `spool` holds the final files, `tmp` the others. */
  datatype State = State(
    queue: seq<Event>, batch: seq<Event>, minted: nat,
    spool: Spool, tmp: Spool, book: Ledger)

  const INIT := State([], [], 0, map[], map[], Ledger([], [], map[], None, [], map[], {}))

  datatype Step =
    | Enqueue(ev: Event)
    | Take
    | Seal(bytes: nat)
    | FailEncode
    | Post(id: BatchId, content: Content, reply: Reply)
    | Drop(cause: Cause)
    | WriteTmp(content: Content)
    | Publish
    | RemoveTmp(id: BatchId)
    | Resend(id: BatchId, reply: Reply)
    | Remove(id: BatchId, reason: Option<Cause>)
    | Die

  ghost predicate LastReply(s: State, id: BatchId, ok: Reply -> bool) {
    s.book.log != [] && var t := s.book.log[|s.book.log| - 1]; t.id == id && ok(t.reply)
  }

  ghost predicate Enabled(cfg: Config, s: State, step: Step) {
    var b := s.book;
    match step
    case Enqueue(_) => true
    case Take => b.flight.None? && s.queue != [] && |s.batch| < cfg.batchSize
    case Seal(_) => b.flight.None? && s.batch != []
    case FailEncode => b.flight.None? && s.batch != []
    case Post(id, content, _) => b.flight == Some(id) && id in b.sealed && content == Whole(b.sealed[id])
    case Drop(cause) =>
      && b.flight.Some?
      && (cause == NotSpooled || (cause == Rejected && LastReply(s, b.flight.value, IsPermanentFailure)))
    case WriteTmp(content) =>
      && b.flight.Some? && b.flight.value in b.sealed
      && (content == Torn || content == Whole(b.sealed[b.flight.value]))
    case Publish =>
      && b.flight.Some? && b.flight.value in b.sealed
      && b.flight.value in s.tmp && s.tmp[b.flight.value] == Whole(b.sealed[b.flight.value])
    case RemoveTmp(id) => id in s.tmp
    case Resend(id, _) => b.flight.None? && id in s.spool
    case Remove(id, reason) =>
      && b.flight.None? && id in s.spool
      && (match reason
          case None => LastReply(s, id, r => !Failed(r))
          case Some(c) =>
            || c in {Foreign, Unreadable, Evicted}
            || (c == ReplayRejected && LastReply(s, id, IsPermanentFailure)))
    case Die => true
  }

  ghost function Next(cfg: Config, s: State, step: Step): State
    requires Enabled(cfg, s, step)
  {
    var b := s.book;
    match step
    case Enqueue(ev) =>
      if |s.queue| < 2 * cfg.batchSize
      then s.(queue := s.queue + [ev], book := b.(accepted := b.accepted + [ev]))
      else s
    case Take => s.(queue := s.queue[1..], batch := s.batch + [s.queue[0]])
    case Seal(bytes) =>
      var id, payload := cfg.id(s.minted), Payload(s.batch, bytes);
      s.(batch := [], minted := s.minted + 1,
         book := b.(records := b.records + [Sealed(id, payload)], sealed := b.sealed[id := payload],
                    flight := Some(id)))
    case FailEncode =>
      s.(batch := [], book := b.(records := b.records + [Unencodable(s.batch)]))
    case Post(id, content, reply) =>
      s.(book := b.(log := b.log + [Transmission(id, content, reply)],
                    flight := if Failed(reply) then b.flight else None))
    case Drop(cause) =>
      s.(book := b.(flight := None, dropped := b.dropped[b.flight.value := cause]))
    case WriteTmp(content) => s.(tmp := s.tmp[b.flight.value := content])
    case Publish =>
      var id := b.flight.value;
      s.(tmp := s.tmp - {id}, spool := s.spool[id := s.tmp[id]], book := b.(flight := None))
    case RemoveTmp(id) => s.(tmp := s.tmp - {id})
    case Resend(id, reply) =>
      s.(book := b.(log := b.log + [Transmission(id, s.spool[id], reply)],
                    unsure := if Failed(reply) then b.unsure else b.unsure + {id}))
    case Remove(id, reason) =>
      s.(spool := s.spool - {id},
         book := b.(unsure := if reason.None? then b.unsure - {id} else b.unsure,
                    dropped := if reason.Some? then b.dropped[id := reason.value] else b.dropped))
    case Die =>
      s.(queue := [], batch := [],
         book := b.(records := b.records + [Abandoned(s.batch + s.queue)], flight := None,
                    dropped := if b.flight.Some? then b.dropped[b.flight.value := ProcessDeath] else b.dropped))
  }

  ghost predicate Legal(cfg: Config, s: State, steps: seq<Step>)
    decreases steps
  {
    steps == [] || (Enabled(cfg, s, steps[0]) && Legal(cfg, Next(cfg, s, steps[0]), steps[1..]))
  }

  /** The state a run of steps leads to. */
  ghost function Run(cfg: Config, s: State, steps: seq<Step>): State
    requires Legal(cfg, s, steps)
    decreases steps
  {
    if steps == [] then s else Run(cfg, Next(cfg, s, steps[0]), steps[1..])
  }

  lemma RunNothing(cfg: Config, s: State)
    ensures Legal(cfg, s, []) && Run(cfg, s, []) == s
  {
  }

  lemma {:induction false} RunConcat(cfg: Config, s: State, a: seq<Step>, b: seq<Step>)
    requires Legal(cfg, s, a) && Legal(cfg, Run(cfg, s, a), b)
    ensures Legal(cfg, s, a + b) && Run(cfg, s, a + b) == Run(cfg, Run(cfg, s, a), b)
    decreases a
  {
    if a == [] {
      assert a + b == b;
    } else {
      assert (a + b)[1..] == a[1..] + b;
      RunConcat(cfg, Next(cfg, s, a[0]), a[1..], b);
    }
  }

  lemma {:induction false} RunPrefix(cfg: Config, s: State, steps: seq<Step>, k: nat)
    requires Legal(cfg, s, steps) && k <= |steps|
    ensures Legal(cfg, s, steps[..k])
    ensures Legal(cfg, Run(cfg, s, steps[..k]), steps[k..])
    decreases steps
  {
    if k > 0 {
      assert steps[..k][1..] == steps[1..][..k - 1];
      assert steps[k..] == steps[1..][k - 1..];
      RunPrefix(cfg, Next(cfg, s, steps[0]), steps[1..], k - 1);
    }
  }

  // ----- derived facts about a ledger -----

  function EventsOf(r: Record): seq<Event> {
    match r
    case Sealed(_, payload) => payload.events
    case Unencodable(events) => events
    case Abandoned(events) => events
  }

  /** The records' events in the order the batches were closed. */
  function Flatten(records: seq<Record>): seq<Event> {
    if records == [] then [] else Flatten(records[..|records| - 1]) + EventsOf(records[|records| - 1])
  }

  lemma FlattenAppend(records: seq<Record>, r: Record)
    ensures Flatten(records + [r]) == Flatten(records) + EventsOf(r)
  {
    assert (records + [r])[..|records|] == records;
  }

  ghost function DeliveredIds(log: seq<Transmission>): set<BatchId> {
    set t | t in log && !Failed(t.reply) :: t.id
  }

  lemma DeliveredAppend(log: seq<Transmission>, t: Transmission)
    ensures DeliveredIds(log + [t]) == DeliveredIds(log) + (if Failed(t.reply) then {} else {t.id})
  {
    forall id
      ensures id in DeliveredIds(log + [t]) <==>
              id in DeliveredIds(log) || (!Failed(t.reply) && id == t.id)
    {
      if id in DeliveredIds(log) {
        var u :| u in log && !Failed(u.reply) && u.id == id;
        assert u in log + [t];
      }
      if id == t.id && !Failed(t.reply) {
        assert (log + [t])[|log|] == t;
        assert t in log + [t];
      }
    }
  }

  // ----- the invariant, part by part -----

  /** First in, first out: nothing is reordered, duplicated or lost between builder and records. */
  ghost predicate Fifo(s: State) {
    Flatten(s.book.records) + s.batch + s.queue == s.book.accepted
  }

  ghost predicate Capped(cfg: Config, s: State) {
    && |s.queue| <= 2 * cfg.batchSize
    && |s.batch| <= cfg.batchSize
    && forall i :: 0 <= i < |s.book.records| && !s.book.records[i].Abandoned? ==>
         1 <= |EventsOf(s.book.records[i])| <= cfg.batchSize
  }

  ghost predicate RecordsDistinct(records: seq<Record>) {
    forall i, j :: 0 <= i < j < |records| && records[i].Sealed? && records[j].Sealed? ==>
      records[i].id != records[j].id
  }

  /** Ids come from the mint in order, and the records agree with the map of sealed batches. */
  ghost predicate Minted(cfg: Config, s: State) {
    && RecordsDistinct(s.book.records)
    && (forall i :: 0 <= i < |s.book.records| && s.book.records[i].Sealed? ==>
          s.book.records[i].id in s.book.sealed
          && s.book.sealed[s.book.records[i].id] == s.book.records[i].payload)
    && (forall id :: id in s.book.sealed ==> exists i ::
          0 <= i < |s.book.records| && s.book.records[i].Sealed? && s.book.records[i].id == id)
    && (forall id :: id in s.book.sealed ==> exists k: nat :: k < s.minted && cfg.id(k) == id)
  }

  /** Every file the replay sees is the complete payload of the batch it is named after. */
  ghost predicate SpoolSound(s: State) {
    forall id :: id in s.spool ==> id in s.book.sealed && s.spool[id] == Whole(s.book.sealed[id])
  }

  /** Whatever was transmitted under an id is the payload sealed under it. */
  ghost predicate LogSound(s: State) {
    forall t :: t in s.book.log ==> t.id in s.book.sealed && t.content == Whole(s.book.sealed[t.id])
  }

  ghost predicate InFlight(s: State, id: BatchId) { s.book.flight == Some(id) }

  ghost predicate OnDisk(s: State, id: BatchId) { id in s.spool }

  ghost predicate Delivered(s: State, id: BatchId) { id in DeliveredIds(s.book.log) }

  ghost predicate Dropped(s: State, id: BatchId) { id in s.book.dropped }

  /** The whereabouts of one sealed batch: in one place, or in two, which is being `unsure`. */
  ghost predicate Placed(s: State, id: BatchId) {
    && (InFlight(s, id) || OnDisk(s, id) || Delivered(s, id) || Dropped(s, id))
    && (InFlight(s, id) ==> !OnDisk(s, id) && !Delivered(s, id) && !Dropped(s, id))
    && !(OnDisk(s, id) && Dropped(s, id))
    && (id in s.book.unsure <==> Delivered(s, id) && (OnDisk(s, id) || Dropped(s, id)))
  }

  ghost predicate AllPlaced(s: State) {
    && (s.book.flight.Some? ==> s.book.flight.value in s.book.sealed)
    && s.book.dropped.Keys <= s.book.sealed.Keys
    && s.book.unsure <= DeliveredIds(s.book.log)
    && (forall id :: id in s.book.sealed ==> Placed(s, id))
  }

  ghost predicate WasRejected(log: seq<Transmission>, id: BatchId) {
    exists t :: t in log && t.id == id && IsPermanentFailure(t.reply)
  }

  /** A batch recorded as rejected was rejected by the receiver, under its own id. */
  ghost predicate CausesTrue(s: State) {
    forall id :: id in s.book.dropped && s.book.dropped[id] in {Rejected, ReplayRejected} ==>
      WasRejected(s.book.log, id)
  }

  ghost predicate Inv(cfg: Config, s: State) {
    && Fifo(s) && Capped(cfg, s) && Minted(cfg, s) && SpoolSound(s) && LogSound(s)
    && AllPlaced(s) && CausesTrue(s)
  }

  // ----- every step keeps every part -----

  lemma InitInv(cfg: Config)
    ensures Inv(cfg, INIT)
  {
  }

  lemma FifoTake(s: State, t: State)
    requires Fifo(s) && s.queue != []
    requires t == s.(queue := s.queue[1..], batch := s.batch + [s.queue[0]])
    ensures Fifo(t)
  {
    var done := Flatten(s.book.records);
    assert done + t.batch + t.queue == done + s.batch + s.queue;
  }

  lemma FifoClose(s: State, t: State, r: Record)
    requires Fifo(s) && EventsOf(r) + t.batch + t.queue == s.batch + s.queue
    requires t.book.records == s.book.records + [r] && t.book.accepted == s.book.accepted
    ensures Fifo(t)
  {
    FlattenAppend(s.book.records, r);
    var done := Flatten(s.book.records);
    assert done + EventsOf(r) + t.batch + t.queue == done + (EventsOf(r) + t.batch + t.queue);
    assert done + s.batch + s.queue == done + (s.batch + s.queue);
  }

  lemma FifoEnqueue(s: State, t: State, ev: Event)
    requires Fifo(s) && t.book.records == s.book.records && t.batch == s.batch
    requires t.queue == s.queue + [ev] && t.book.accepted == s.book.accepted + [ev]
    ensures Fifo(t)
  {
    var done := Flatten(s.book.records);
    assert done + t.batch + t.queue == (done + s.batch + s.queue) + [ev];
  }

  lemma FifoStep(cfg: Config, s: State, step: Step)
    requires Fifo(s) && Enabled(cfg, s, step)
    ensures Fifo(Next(cfg, s, step))
  {
    var t := Next(cfg, s, step);
    match step
    case Enqueue(ev) => if t != s { FifoEnqueue(s, t, ev); }
    case Take => FifoTake(s, t);
    case Seal(_) => FifoClose(s, t, t.book.records[|s.book.records|]);
    case FailEncode => FifoClose(s, t, t.book.records[|s.book.records|]);
    case Die => FifoClose(s, t, t.book.records[|s.book.records|]);
    case _ =>
      assert t.book.records == s.book.records && t.book.accepted == s.book.accepted;
      assert t.batch == s.batch && t.queue == s.queue;
  }

  lemma CappedStep(cfg: Config, s: State, step: Step)
    requires Capped(cfg, s) && Enabled(cfg, s, step)
    ensures Capped(cfg, Next(cfg, s, step))
  {
  }

  lemma FreshId(cfg: Config, s: State)
    requires cfg.Valid() && Minted(cfg, s)
    ensures cfg.id(s.minted) !in s.book.sealed
  {
  }

  lemma MintedClose(cfg: Config, s: State, t: State, r: Record)
    requires Minted(cfg, s) && !r.Sealed?
    requires t.minted == s.minted && t.book.sealed == s.book.sealed && t.book.records == s.book.records + [r]
    ensures Minted(cfg, t)
  {
    forall x | x in t.book.sealed
      ensures exists i :: 0 <= i < |t.book.records| && t.book.records[i].Sealed? && t.book.records[i].id == x
    {
      var i :| 0 <= i < |s.book.records| && s.book.records[i].Sealed? && s.book.records[i].id == x;
      assert t.book.records[i].id == x;
    }
  }

  lemma MintedSeal(cfg: Config, s: State, t: State, payload: Payload)
    requires cfg.Valid() && Minted(cfg, s) && t.minted == s.minted + 1
    requires t.book.sealed == s.book.sealed[cfg.id(s.minted) := payload]
    requires t.book.records == s.book.records + [Sealed(cfg.id(s.minted), payload)]
    ensures Minted(cfg, t)
  {
    FreshId(cfg, s);
    forall x | x in t.book.sealed
      ensures exists i :: 0 <= i < |t.book.records| && t.book.records[i].Sealed? && t.book.records[i].id == x
      ensures exists k: nat :: k < t.minted && cfg.id(k) == x
    {
      if x == cfg.id(s.minted) {
        assert t.book.records[|s.book.records|].id == x;
      } else {
        var i :| 0 <= i < |s.book.records| && s.book.records[i].Sealed? && s.book.records[i].id == x;
        assert t.book.records[i].id == x;
        var k: nat :| k < s.minted && cfg.id(k) == x;
        assert k < t.minted;
      }
    }
  }

  lemma MintedStep(cfg: Config, s: State, step: Step)
    requires cfg.Valid() && Minted(cfg, s) && Enabled(cfg, s, step)
    ensures Minted(cfg, Next(cfg, s, step))
  {
    var t := Next(cfg, s, step);
    match step
    case Seal(bytes) => MintedSeal(cfg, s, t, Payload(s.batch, bytes));
    case FailEncode => MintedClose(cfg, s, t, Unencodable(s.batch));
    case Die => MintedClose(cfg, s, t, Abandoned(s.batch + s.queue));
    case _ =>
      assert t.minted == s.minted && t.book.sealed == s.book.sealed && t.book.records == s.book.records;
  }

  lemma SpoolSoundStep(cfg: Config, s: State, step: Step)
    requires cfg.Valid() && Minted(cfg, s) && SpoolSound(s) && Enabled(cfg, s, step)
    ensures SpoolSound(Next(cfg, s, step))
  {
    if step.Seal? {
      FreshId(cfg, s);
    }
  }

  lemma LogSoundStep(cfg: Config, s: State, step: Step)
    requires cfg.Valid() && Minted(cfg, s) && SpoolSound(s) && LogSound(s) && AllPlaced(s)
    requires Enabled(cfg, s, step)
    ensures LogSound(Next(cfg, s, step))
  {
    var t := Next(cfg, s, step);
    match step
    case Seal(_) => FreshId(cfg, s);
    case Post(_, _, _) => LogSoundAppend(s, t, t.book.log[|s.book.log|]);
    case Resend(_, _) => LogSoundAppend(s, t, t.book.log[|s.book.log|]);
    case _ => LogKept(cfg, s, step);
  }

  lemma LogKept(cfg: Config, s: State, step: Step)
    requires Enabled(cfg, s, step) && !step.Seal? && !step.Post? && !step.Resend?
    ensures Next(cfg, s, step).book.log == s.book.log && Next(cfg, s, step).book.sealed == s.book.sealed
  {
  }

  lemma LogSoundAppend(s: State, t: State, sent: Transmission)
    requires LogSound(s) && t.book.sealed == s.book.sealed && t.book.log == s.book.log + [sent]
    requires sent.id in s.book.sealed && sent.content == Whole(s.book.sealed[sent.id])
    ensures LogSound(t)
  {
  }

  lemma LastReplyLogged(s: State, id: BatchId, ok: Reply -> bool)
    requires LastReply(s, id, ok)
    ensures exists t :: t in s.book.log && t.id == id && ok(t.reply)
  {
    assert s.book.log[|s.book.log| - 1] in s.book.log;
  }

  lemma CausesStep(cfg: Config, s: State, step: Step)
    requires CausesTrue(s) && Enabled(cfg, s, step)
    ensures CausesTrue(Next(cfg, s, step))
  {
    var t := Next(cfg, s, step);
    forall id | id in t.book.dropped && t.book.dropped[id] in {Rejected, ReplayRejected}
      ensures WasRejected(t.book.log, id)
    {
      if id in s.book.dropped && s.book.dropped[id] == t.book.dropped[id] {
        var u :| u in s.book.log && u.id == id && IsPermanentFailure(u.reply);
        assert u in t.book.log;
      } else {
        LastReplyLogged(s, id, IsPermanentFailure);
      }
    }
  }

  /** Steps that touch neither the spool nor the ledger's ids. */
  lemma QuietPlaces(cfg: Config, s: State, step: Step)
    requires AllPlaced(s) && Enabled(cfg, s, step)
    requires step.Enqueue? || step.Take? || step.FailEncode? || step.WriteTmp? || step.RemoveTmp?
    ensures AllPlaced(Next(cfg, s, step))
  {
    var t := Next(cfg, s, step);
    forall id | id in t.book.sealed
      ensures Placed(t, id)
    {
      assert Placed(s, id);
    }
  }

  lemma PublishPlaces(cfg: Config, s: State, step: Step)
    requires AllPlaced(s) && step.Publish? && Enabled(cfg, s, step)
    ensures AllPlaced(Next(cfg, s, step))
  {
    var t := Next(cfg, s, step);
    forall id | id in s.book.sealed
      ensures Placed(t, id)
    {
      assert Placed(s, id);
    }
  }

  lemma SealPlaces(cfg: Config, s: State, step: Step)
    requires cfg.Valid() && Minted(cfg, s) && SpoolSound(s) && LogSound(s) && AllPlaced(s)
    requires step.Seal? && Enabled(cfg, s, step)
    ensures AllPlaced(Next(cfg, s, step))
  {
    var t := Next(cfg, s, step);
    var id := cfg.id(s.minted);
    FreshId(cfg, s);
    assert !OnDisk(s, id);
    forall x | x in t.book.sealed
      ensures Placed(t, x)
    {
      if x != id {
        assert Placed(s, x);
      }
    }
  }

  lemma PostPlaces(cfg: Config, s: State, step: Step)
    requires AllPlaced(s) && step.Post? && Enabled(cfg, s, step)
    ensures AllPlaced(Next(cfg, s, step))
  {
    var t := Next(cfg, s, step);
    DeliveredAppend(s.book.log, t.book.log[|s.book.log|]);
    forall id | id in s.book.sealed
      ensures Placed(t, id)
    {
      assert Placed(s, id);
    }
  }

  lemma ResendPlaces(cfg: Config, s: State, step: Step)
    requires SpoolSound(s) && AllPlaced(s) && step.Resend? && Enabled(cfg, s, step)
    ensures AllPlaced(Next(cfg, s, step))
  {
    var t := Next(cfg, s, step);
    DeliveredAppend(s.book.log, t.book.log[|s.book.log|]);
    forall id | id in s.book.sealed
      ensures Placed(t, id)
    {
      assert Placed(s, id);
    }
  }

  lemma RemovePlaces(cfg: Config, s: State, step: Step)
    requires Minted(cfg, s) && SpoolSound(s) && AllPlaced(s)
    requires step.Remove? && Enabled(cfg, s, step)
    ensures AllPlaced(Next(cfg, s, step))
  {
    var t := Next(cfg, s, step);
    var id := step.id;
    if step.reason.None? {
      LastReplyLogged(s, id, r => !Failed(r));
      assert id in DeliveredIds(s.book.log);
    }
    forall x | x in t.book.sealed
      ensures Placed(t, x)
    {
      assert Placed(s, x);
      match step.reason
      case None => RemovedDelivered(s, t, id, x);
      case Some(c) => RemovedDropped(s, t, id, c, x);
    }
  }

  lemma RemovedDelivered(s: State, t: State, id: BatchId, x: BatchId)
    requires Placed(s, x) && Delivered(s, id)
    requires t == s.(spool := s.spool - {id}, book := s.book.(unsure := s.book.unsure - {id}))
    requires OnDisk(s, id) && (x == id ==> !InFlight(s, x) && !Dropped(s, x))
    ensures Placed(t, x)
  {
  }

  lemma RemovedDropped(s: State, t: State, id: BatchId, c: Cause, x: BatchId)
    requires Placed(s, x)
    requires t == s.(spool := s.spool - {id}, book := s.book.(dropped := s.book.dropped[id := c]))
    requires OnDisk(s, id) && (x == id ==> !InFlight(s, x))
    ensures Placed(t, x)
  {
  }

  lemma AllPlacedStep(cfg: Config, s: State, step: Step)
    requires cfg.Valid() && Minted(cfg, s) && SpoolSound(s) && LogSound(s) && AllPlaced(s)
    requires Enabled(cfg, s, step)
    ensures AllPlaced(Next(cfg, s, step))
  {
    match step
    case Seal(_) => SealPlaces(cfg, s, step);
    case Post(_, _, _) => PostPlaces(cfg, s, step);
    case WriteTmp(_) => QuietPlaces(cfg, s, step);
    case RemoveTmp(_) => QuietPlaces(cfg, s, step);
    case Publish => PublishPlaces(cfg, s, step);
    case Resend(_, _) => ResendPlaces(cfg, s, step);
    case Remove(_, _) => RemovePlaces(cfg, s, step);
    case Enqueue(_) => QuietPlaces(cfg, s, step);
    case Take => QuietPlaces(cfg, s, step);
    case FailEncode => QuietPlaces(cfg, s, step);
    case Drop(_) => LosePlaces(cfg, s, step);
    case Die => LosePlaces(cfg, s, step);
  }

  lemma LosePlaces(cfg: Config, s: State, step: Step)
    requires AllPlaced(s) && (step.Drop? || step.Die?) && Enabled(cfg, s, step)
    ensures AllPlaced(Next(cfg, s, step))
  {
    var t := Next(cfg, s, step);
    forall id | id in s.book.sealed
      ensures Placed(t, id)
    {
      assert Placed(s, id);
    }
  }

  lemma InvStep(cfg: Config, s: State, step: Step)
    requires cfg.Valid() && Inv(cfg, s) && Enabled(cfg, s, step)
    ensures Inv(cfg, Next(cfg, s, step))
  {
    FifoStep(cfg, s, step);
    CappedStep(cfg, s, step);
    MintedStep(cfg, s, step);
    SpoolSoundStep(cfg, s, step);
    LogSoundStep(cfg, s, step);
    AllPlacedStep(cfg, s, step);
    CausesStep(cfg, s, step);
  }

  lemma {:induction false} InvRun(cfg: Config, s: State, steps: seq<Step>)
    requires cfg.Valid() && Inv(cfg, s) && Legal(cfg, s, steps)
    ensures Inv(cfg, Run(cfg, s, steps))
    decreases steps
  {
    if steps != [] {
      InvStep(cfg, s, steps[0]);
      InvRun(cfg, Next(cfg, s, steps[0]), steps[1..]);
    }
  }
}
