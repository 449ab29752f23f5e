/** What the shipper's protocol promises over every run: conservation, order, identity, crash atomicity. */
module Delivery {
  import opened Listings
  import opened Numbers
  import opened Protocol
  import opened SpoolNames
  import opened Passes
  import opened Lifetime
  import opened Interruptions
  import opened Activities
  import opened Options

  /** The events of the sealed batches with these ids. */
  ghost function EventsIn(records: seq<Record>, ids: set<BatchId>): multiset<Event> {
    if records == [] then multiset{}
    else
      var r := records[|records| - 1];
      EventsIn(records[..|records| - 1], ids)
      + (if r.Sealed? && r.id in ids then multiset(r.payload.events) else multiset{})
  }

  /** The events that never got an id: lost to the encoder or to the death of the process. */
  ghost function EventsUnsealed(records: seq<Record>): multiset<Event> {
    if records == [] then multiset{}
    else
      var r := records[|records| - 1];
      EventsUnsealed(records[..|records| - 1]) + (if r.Sealed? then multiset{} else multiset(EventsOf(r)))
  }

  ghost function SealedIds(records: seq<Record>): set<BatchId> {
    set r | r in records && r.Sealed? :: r.id
  }

  ghost function FlightIds(s: State): set<BatchId> {
    if s.book.flight.Some? then {s.book.flight.value} else {}
  }

  ghost function DiskIds(s: State): set<BatchId> {
    set id | id in s.book.sealed && OnDisk(s, id)
  }

  lemma {:induction false} EventsInUnion(records: seq<Record>, a: set<BatchId>, b: set<BatchId>)
    requires a !! b
    ensures EventsIn(records, a + b) == EventsIn(records, a) + EventsIn(records, b)
  {
    if records != [] {
      EventsInUnion(records[..|records| - 1], a, b);
    }
  }

  lemma {:induction false} EventsInEmpty(records: seq<Record>)
    ensures EventsIn(records, {}) == multiset{}
  {
    if records != [] {
      EventsInEmpty(records[..|records| - 1]);
    }
  }

  lemma {:induction false} EventsSplit(records: seq<Record>, ids: set<BatchId>)
    requires SealedIds(records) <= ids
    ensures multiset(Flatten(records)) == EventsIn(records, ids) + EventsUnsealed(records)
  {
    if records != [] {
      var init, r := records[..|records| - 1], records[|records| - 1];
      assert r in records;
      assert SealedIds(init) <= SealedIds(records);
      EventsSplit(init, ids);
    }
  }

  lemma SealedIdsAreKeys(cfg: Config, s: State)
    requires Minted(cfg, s)
    ensures SealedIds(s.book.records) == s.book.sealed.Keys
  {
  }

  /**
   * Conservation.  In every reachable state the accepted events are exactly those in the queue, in
   * the batch, in flight, spooled (and not also acknowledged), acknowledged, given up for a named
   * cause, or lost before they got an id; no event is counted twice and none is missing.
   */
  lemma Conservation(cfg: Config, steps: seq<Step>)
    requires cfg.Valid() && Legal(cfg, INIT, steps)
    ensures var s := Run(cfg, INIT, steps);
      var rs, delivered := s.book.records, DeliveredIds(s.book.log);
      multiset(s.book.accepted) ==
        multiset(s.queue) + multiset(s.batch) + EventsIn(rs, FlightIds(s))
        + EventsIn(rs, DiskIds(s) - delivered) + EventsIn(rs, delivered)
        + EventsIn(rs, s.book.dropped.Keys - delivered) + EventsUnsealed(rs)
  {
    InitInv(cfg);
    InvRun(cfg, INIT, steps);
    ConservedIn(cfg, Run(cfg, INIT, steps));
  }

  lemma ConservedIn(cfg: Config, s: State)
    requires Inv(cfg, s)
    ensures var rs, delivered := s.book.records, DeliveredIds(s.book.log);
      multiset(s.book.accepted) ==
        multiset(s.queue) + multiset(s.batch) + EventsIn(rs, FlightIds(s))
        + EventsIn(rs, DiskIds(s) - delivered) + EventsIn(rs, delivered)
        + EventsIn(rs, s.book.dropped.Keys - delivered) + EventsUnsealed(rs)
  {
    var rs, delivered := s.book.records, DeliveredIds(s.book.log);
    var flight, disk, dropped := FlightIds(s), DiskIds(s) - delivered, s.book.dropped.Keys - delivered;
    forall id | id in s.book.sealed
      ensures Placed(s, id)
      ensures id in flight + disk + delivered + dropped
      ensures id in flight ==> id !in disk && id !in delivered && id !in dropped
      ensures id in disk ==> id !in dropped
    {
      assert Placed(s, id);
    }
    assert delivered <= s.book.sealed.Keys;
    SealedIdsAreKeys(cfg, s);
    EventsSplit(rs, flight + disk + delivered + dropped);
    EventsInUnion(rs, flight + disk + delivered, dropped);
    EventsInUnion(rs, flight + disk, delivered);
    EventsInUnion(rs, flight, disk);
    assert s.book.accepted == Flatten(rs) + s.batch + s.queue;
  }

  /** In how many places a batch is: in flight, on disk, acknowledged, given up. */
  ghost function PlaceCount(s: State, id: BatchId): nat {
    (if InFlight(s, id) then 1 else 0) + (if OnDisk(s, id) then 1 else 0)
    + (if Delivered(s, id) then 1 else 0) + (if Dropped(s, id) then 1 else 0)
  }

  /**
   * A sealed batch is in exactly two places if after some accepted replay of it no replay removed its
   * file, and in exactly one otherwise.  A removal for another reason moves it from the disk to the
   * batches given up and leaves it in two places.
   */
  lemma OnePlaceEach(cfg: Config, steps: seq<Step>, id: BatchId)
    requires cfg.Valid() && Legal(cfg, INIT, steps)
    requires id in Run(cfg, INIT, steps).book.sealed
    ensures PlaceCount(Run(cfg, INIT, steps), id) == if ReplayStands(steps, id, ByReplay) then 2 else 1
  {
    InitInv(cfg);
    InvRun(cfg, INIT, steps);
    UnsureIff(cfg, INIT, steps, |steps|, id);
    assert steps[..|steps|] == steps;
    assert Placed(Run(cfg, INIT, steps), id);
  }

  /** Receiver and disk both hold it if and only if after some accepted replay of it nothing removed the file. */
  lemma AcceptedAndOnDiskIff(cfg: Config, steps: seq<Step>, id: BatchId)
    requires cfg.Valid() && Legal(cfg, INIT, steps)
    ensures var s := Run(cfg, INIT, steps);
      Delivered(s, id) && OnDisk(s, id) <==> ReplayStands(steps, id, ForAnyReason)
  {
    KeptIff(cfg, steps, |steps|, id);
    assert steps[..|steps|] == steps;
  }

  lemma ThenStep(cfg: Config, steps: seq<Step>, s: State, step: Step) returns (more: seq<Step>, t: State)
    requires Legal(cfg, INIT, steps) && s == Run(cfg, INIT, steps) && Enabled(cfg, s, step)
    ensures more == steps + [step] && Legal(cfg, INIT, more) && t == Run(cfg, INIT, more) == Next(cfg, s, step)
  {
    RunSnoc(cfg, INIT, steps, step);
    more, t := steps + [step], Next(cfg, s, step);
  }

  /** A batch that could not be sent is spooled. */
  lemma SpooledExample(cfg: Config, ev: Event, bytes: nat) returns (steps: seq<Step>, s: State)
    requires cfg.Valid()
    ensures Legal(cfg, INIT, steps) && s == Run(cfg, INIT, steps) && s.book.flight.None?
    ensures s.spool == map[cfg.id(0) := Whole(Payload([ev], bytes))] && cfg.id(0) in s.book.sealed
  {
    var id, payload := cfg.id(0), Payload([ev], bytes);
    RunNothing(cfg, INIT);
    steps, s := ThenStep(cfg, [], INIT, Step.Enqueue(ev));
    steps, s := ThenStep(cfg, steps, s, Take);
    steps, s := ThenStep(cfg, steps, s, Seal(bytes));
    steps, s := ThenStep(cfg, steps, s, Post(id, Whole(payload), NoReply));
    steps, s := ThenStep(cfg, steps, s, WriteTmp(Torn));
    steps, s := ThenStep(cfg, steps, s, WriteTmp(Whole(payload)));
    steps, s := ThenStep(cfg, steps, s, Publish);
  }

  /** Its replay is accepted and its file stays: a run that leaves a batch in two places. */
  lemma TwoPlacesExample(cfg: Config, ev: Event, bytes: nat) returns (steps: seq<Step>, id: BatchId)
    requires cfg.Valid()
    ensures Legal(cfg, INIT, steps) && id in Run(cfg, INIT, steps).book.sealed
    ensures PlaceCount(Run(cfg, INIT, steps), id) == 2
    ensures Delivered(Run(cfg, INIT, steps), id) && OnDisk(Run(cfg, INIT, steps), id)
  {
    id := cfg.id(0);
    var before, s := SpooledExample(cfg, ev, bytes);
    var t;
    steps, t := ThenStep(cfg, before, s, Resend(id, Status(200)));
    DeliveredAppend(s.book.log, Transmission(id, s.spool[id], Status(200)));
    assert AcceptedReplay(steps[|before|], id) && NoRemovalAfter(steps, id, ByReplay, |before|);
    OnePlaceEach(cfg, steps, id);
  }

  /** Evicting that file then leaves the batch in two places, neither of them the disk. */
  lemma EvictedThoughAcceptedExample(cfg: Config, ev: Event, bytes: nat) returns (steps: seq<Step>, id: BatchId)
    requires cfg.Valid()
    ensures Legal(cfg, INIT, steps) && id in Run(cfg, INIT, steps).book.sealed
    ensures ReplayStands(steps, id, ByReplay) && !ReplayStands(steps, id, ForAnyReason)
    ensures PlaceCount(Run(cfg, INIT, steps), id) == 2 && !OnDisk(Run(cfg, INIT, steps), id)
  {
    id := cfg.id(0);
    var before, s := SpooledExample(cfg, ev, bytes);
    var t;
    steps, t := ThenStep(cfg, before, s, Resend(id, Status(200)));
    steps, t := ThenStep(cfg, steps, t, Remove(id, Some(Evicted)));
    assert AcceptedReplay(steps[|before|], id) && NoRemovalAfter(steps, id, ByReplay, |before|);
    OnePlaceEach(cfg, steps, id);
    AcceptedAndOnDiskIff(cfg, steps, id);
  }

  /** Batches leave in the order events came in, hold 1..BatchSize events, and the queue is bounded. */
  lemma FifoAndCaps(cfg: Config, steps: seq<Step>, i: nat)
    requires cfg.Valid() && Legal(cfg, INIT, steps)
    requires i < |Run(cfg, INIT, steps).book.records|
    ensures var s := Run(cfg, INIT, steps);
      && Flatten(s.book.records) + s.batch + s.queue == s.book.accepted
      && |s.queue| <= 2 * cfg.batchSize && |s.batch| <= cfg.batchSize
      && (s.book.records[i].Abandoned? || 1 <= |EventsOf(s.book.records[i])| <= cfg.batchSize)
  {
    InitInv(cfg);
    InvRun(cfg, INIT, steps);
  }

  /**
   * Stable identity: first send, retry, replay and replay after a restart of one batch carry one id
   * and one payload, and two different batches never share an id.
   */
  lemma StableIdentity(cfg: Config, steps: seq<Step>)
    requires cfg.Valid() && Legal(cfg, INIT, steps)
    ensures var s := Run(cfg, INIT, steps);
      && (forall t, u :: t in s.book.log && u in s.book.log && t.id == u.id ==> t.content == u.content)
      && (forall t :: t in s.book.log ==> SentFromRecord(s.book.records, t))
      && RecordsDistinct(s.book.records)
  {
    InitInv(cfg);
    InvRun(cfg, INIT, steps);
    var s := Run(cfg, INIT, steps);
    forall t | t in s.book.log
      ensures SentFromRecord(s.book.records, t)
    {
      LoggedFromRecord(cfg, s, t);
    }
  }

  lemma LoggedFromRecord(cfg: Config, s: State, t: Transmission)
    requires Minted(cfg, s) && LogSound(s) && t in s.book.log
    ensures SentFromRecord(s.book.records, t)
  {
    var i :| 0 <= i < |s.book.records| && s.book.records[i].Sealed? && s.book.records[i].id == t.id;
    assert s.book.records[i].payload == s.book.sealed[t.id];
  }

  /** The transmission carries the id and the payload of one closed batch. */
  ghost predicate SentFromRecord(records: seq<Record>, t: Transmission) {
    exists i :: 0 <= i < |records| && records[i].Sealed? && records[i].id == t.id
                && t.content == Whole(records[i].payload)
  }

  // ----- the order of a replay pass in time -----

  ghost predicate SentInOrder(lt: (BatchId, BatchId) -> bool, sent: seq<Transmission>) {
    forall p, q :: 0 <= p < q < |sent| ==> lt(sent[p].id, sent[q].id)
  }

  lemma {:induction false} SentAscends(lt: (BatchId, BatchId) -> bool, spool: Spool, files: seq<BatchId>,
                                       env: BatchId -> FileEnv)
    requires Ascending(lt, files) && forall x :: x in files ==> x in spool
    ensures SentInOrder(lt, Sent(spool, files, env))
    ensures forall t :: t in Sent(spool, files, env) ==> t.id in files
    decreases |files|
  {
    if files != [] {
      var rest := files[1..];
      assert forall x :: x in rest ==> x in files && lt(files[0], x);
      SentAscends(lt, spool, rest, env);
      var later := Sent(spool, rest, env);
      assert forall p :: 0 <= p < |later| ==> later[p] in later;
    }
  }

  lemma PrefixSendsByName(cfg: Config, s: State, t: State, files: seq<BatchId>, env: BatchId -> FileEnv, n: nat)
    returns (sent: seq<Transmission>)
    requires AfterPass(s, t, files, env, 0, n) && Ascending(cfg.before, files)
    ensures t.book.log == s.book.log + sent
    ensures SentInOrder(cfg.before, sent) && forall t :: t in sent ==> t.id in s.spool
  {
    SentAscends(cfg.before, s.spool, files[0..n], env);
    sent := Sent(s.spool, files[0..n], env);
  }

  /** A pass appends to the log what it sends, by name. */
  lemma PassSendsByName(cfg: Config, s: State, env: BatchId -> FileEnv) returns (sent: seq<Transmission>)
    requires StrictTotal(cfg.before) && s.book.flight.None?
    ensures Legal(cfg, s, TickRetry(cfg, s, env))
    ensures Run(cfg, s, TickRetry(cfg, s, env)).book.log == s.book.log + sent
    ensures SentInOrder(cfg.before, sent) && forall t :: t in sent ==> t.id in s.spool
  {
    if cfg.spoolDir == "" {
      RunNothing(cfg, s);
      sent := [];
      assert s.book.log + [] == s.book.log;
    } else {
      var files := Listing(cfg.before, s.spool.Keys);
      assert files[0..] == files;
      PendingStart(cfg, files, s.spool);
      RetryPass(cfg, s, files, env, 0, 0);
      var t, n := Run(cfg, s, TickRetry(cfg, s, env)), Visited(files, env, 0);
      assert 0 + n == n;
      sent := PrefixSendsByName(cfg, s, t, files, env, n);
    }
  }

  /** All counts of milliseconds met so far have equally many digits, thirteen until the year 2286. */
  ghost predicate SameWidth(mint: nat -> Stamp, n: nat) {
    forall k, l :: 0 <= k < n && 0 <= l < n ==> |Decimal(mint(k).ms)| == |Decimal(mint(l).ms)|
  }

  /** The ids were minted at these times, the first not after the second. */
  ghost predicate MintedInOrder(mint: nat -> Stamp, a: BatchId, b: BatchId) {
    exists k: nat, l: nat :: NewBatchId(mint(k)) == a && NewBatchId(mint(l)) == b && mint(k).ms <= mint(l).ms
  }

  lemma MintedByName(cfg: Config, mint: nat -> Stamp, s: State, a: BatchId, b: BatchId)
    requires cfg.before == BY_NAME && forall k: nat :: cfg.id(k) == NewBatchId(mint(k))
    requires Minted(cfg, s) && SameWidth(mint, s.minted)
    requires a in s.book.sealed && b in s.book.sealed && cfg.before(a, b)
    ensures MintedInOrder(mint, a, b)
  {
    var k: nat :| k < s.minted && cfg.id(k) == a;
    var l: nat :| l < s.minted && cfg.id(l) == b;
    NamesSortByTime(mint(k), mint(l));
  }

  /** Hence one pass transmits oldest first, in time and not only by name, while the counts are equally long. */
  lemma PassInTimeOrder(cfg: Config, mint: nat -> Stamp, steps: seq<Step>, env: BatchId -> FileEnv)
    returns (sent: seq<Transmission>)
    requires cfg.Valid() && cfg.before == BY_NAME && forall k: nat :: cfg.id(k) == NewBatchId(mint(k))
    requires Legal(cfg, INIT, steps) && Run(cfg, INIT, steps).book.flight.None?
    requires SameWidth(mint, Run(cfg, INIT, steps).minted)
    ensures var s := Run(cfg, INIT, steps);
      && Legal(cfg, s, TickRetry(cfg, s, env))
      && Run(cfg, s, TickRetry(cfg, s, env)).book.log == s.book.log + sent
    ensures forall p, q :: 0 <= p < q < |sent| ==> MintedInOrder(mint, sent[p].id, sent[q].id)
  {
    var s := Run(cfg, INIT, steps);
    InitInv(cfg);
    InvRun(cfg, INIT, steps);
    sent := PassSendsByName(cfg, s, env);
    forall p, q | 0 <= p < q < |sent|
      ensures MintedInOrder(mint, sent[p].id, sent[q].id)
    {
      assert sent[p] in sent && sent[q] in sent;
      MintedByName(cfg, mint, s, sent[p].id, sent[q].id);
    }
  }

  // ----- a receiver that deduplicates on X-Batch-Id -----

  ghost function IdsOf(received: seq<Transmission>): set<BatchId> {
    set t | t in received :: t.id
  }

  /** What such a receiver stores: a transmission counts unless its id was seen before. */
  ghost function Stored(received: seq<Transmission>): multiset<Event> {
    if received == [] then multiset{}
    else
      var seen, t := received[..|received| - 1], received[|received| - 1];
      Stored(seen) + (if t.id in IdsOf(seen) || t.content.Torn? then multiset{}
                      else multiset(t.content.payload.events))
  }

  lemma IdsOfAppend(seen: seq<Transmission>, t: Transmission)
    ensures IdsOf(seen + [t]) == IdsOf(seen) + {t.id}
  {
    assert (seen + [t])[|seen|] == t;
    forall u | u in seen
      ensures u in seen + [t]
    {
    }
  }

  lemma {:induction false} EventsInOne(records: seq<Record>, i: nat)
    requires RecordsDistinct(records) && i < |records| && records[i].Sealed?
    ensures EventsIn(records, {records[i].id}) == multiset(records[i].payload.events)
  {
    var init := records[..|records| - 1];
    if i < |init| {
      EventsInOne(init, i);
      assert init[i] == records[i];
    } else {
      EventsInAbsent(init, {records[i].id});
    }
  }

  lemma {:induction false} EventsInAbsent(records: seq<Record>, ids: set<BatchId>)
    requires forall i :: 0 <= i < |records| && records[i].Sealed? ==> records[i].id !in ids
    ensures EventsIn(records, ids) == multiset{}
  {
    if records != [] {
      EventsInAbsent(records[..|records| - 1], ids);
    }
  }

  lemma {:induction false} StoredIsEventsIn(records: seq<Record>, received: seq<Transmission>)
    requires RecordsDistinct(records)
    requires forall k :: 0 <= k < |received| ==> SentFromRecord(records, received[k])
    ensures Stored(received) == EventsIn(records, IdsOf(received))
  {
    if received == [] {
      assert IdsOf(received) == {};
      EventsInEmpty(records);
    } else {
      var seen, t := received[..|received| - 1], received[|received| - 1];
      StoredIsEventsIn(records, seen);
      assert received == seen + [t];
      IdsOfAppend(seen, t);
      var i :| 0 <= i < |records| && records[i].Sealed? && records[i].id == t.id
               && t.content == Whole(records[i].payload);
      if t.id in IdsOf(seen) {
        assert IdsOf(received) == IdsOf(seen);
      } else {
        EventsInUnion(records, IdsOf(seen), {t.id});
        EventsInOne(records, i);
      }
    }
  }

  lemma {:induction false} EventsInWithinFlatten(records: seq<Record>, ids: set<BatchId>)
    ensures EventsIn(records, ids) <= multiset(Flatten(records))
  {
    if records != [] {
      EventsInWithinFlatten(records[..|records| - 1], ids);
    }
  }

  /**
   * Whatever part of the transmissions arrives, in whatever order and multiplicity (an error reply
   * may hide an arrival), a deduplicating receiver stores each batch once and no event more often
   * than it was accepted.
   */
  lemma DeduplicationCountsOnce(cfg: Config, steps: seq<Step>, received: seq<Transmission>)
    requires cfg.Valid() && Legal(cfg, INIT, steps)
    requires forall t :: t in received ==> t in Run(cfg, INIT, steps).book.log
    ensures var s := Run(cfg, INIT, steps);
      Stored(received) == EventsIn(s.book.records, IdsOf(received))
      && Stored(received) <= multiset(s.book.accepted)
  {
    InitInv(cfg);
    InvRun(cfg, INIT, steps);
    StoredOnce(cfg, Run(cfg, INIT, steps), received);
  }

  lemma StoredOnce(cfg: Config, s: State, received: seq<Transmission>)
    requires Inv(cfg, s) && forall t :: t in received ==> t in s.book.log
    ensures Stored(received) == EventsIn(s.book.records, IdsOf(received))
    ensures Stored(received) <= multiset(s.book.accepted)
  {
    forall k | 0 <= k < |received|
      ensures SentFromRecord(s.book.records, received[k])
    {
      assert received[k] in received;
      LoggedFromRecord(cfg, s, received[k]);
    }
    StoredIsEventsIn(s.book.records, received);
    EventsInWithinFlatten(s.book.records, IdsOf(received));
    assert s.book.accepted == Flatten(s.book.records) + s.batch + s.queue;
  }

  // ----- crashes -----

  /**
   * What a replay can pick up from the directory: every name that the replay glob matches belongs
   * to a complete payload, and is transmitted under the id its batch was sealed with.
   */
  ghost predicate ReplaySafe(cfg: Config, s: State) {
    forall name :: name in Directory(s.spool.Keys, s.tmp.Keys) && MatchesSpoolGlob(name) ==>
      var id := BatchIdFromPath(Join(cfg.spoolDir, name));
      id in s.spool && name == SpoolName(id) && id in s.book.sealed && s.spool[id] == Whole(s.book.sealed[id])
  }

  /** Anything torn is a `.tmp`: the clean-up glob matches it and the replay glob does not. */
  ghost predicate TornAside(s: State) {
    && (forall id :: id in s.spool ==> !s.spool[id].Torn?)
    && (forall id :: id in s.tmp ==> MatchesTmpGlob(TmpName(id)) && !MatchesSpoolGlob(TmpName(id)))
  }

  lemma InvReplaySafe(cfg: Config, s: State)
    requires SpoolSound(s)
    ensures ReplaySafe(cfg, s) && TornAside(s)
  {
    GlobsSplitDirectory(s.spool.Keys, s.tmp.Keys, cfg.spoolDir);
    forall id | id in s.tmp
      ensures MatchesTmpGlob(TmpName(id)) && !MatchesSpoolGlob(TmpName(id))
    {
      NamesSeparate(id, id);
    }
  }

  lemma DieAfter(cfg: Config, s: State, steps: seq<Step>, k: nat)
    requires Legal(cfg, s, steps) && k <= |steps|
    ensures Legal(cfg, s, steps[..k]) && Legal(cfg, s, steps[..k] + [Die])
    ensures Run(cfg, s, steps[..k] + [Die]) == Next(cfg, Run(cfg, s, steps[..k]), Die)
  {
    RunPrefix(cfg, s, steps, k);
    var mid := Run(cfg, s, steps[..k]);
    assert [Die][1..] == [];
    assert Legal(cfg, Next(cfg, mid, Die), []);
    assert Legal(cfg, mid, [Die]);
    RunConcat(cfg, s, steps[..k], [Die]);
  }

  /**
   * A crash after any number of the effects of any legal activity, the spooling of a batch
   * included, leaves every file the replay glob sees complete and named after its batch; anything
   * torn is a `.tmp`.  The crash itself does not touch the directory.
   */
  lemma {:induction false} CrashAtomicity(cfg: Config, before: seq<Step>, activity: seq<Step>, k: nat)
    requires cfg.Valid() && Legal(cfg, INIT, before)
    requires Legal(cfg, Run(cfg, INIT, before), activity) && k <= |activity|
    ensures var s := Run(cfg, INIT, before);
      && Legal(cfg, s, activity[..k]) && Legal(cfg, s, activity[..k] + [Die])
      && var t := Run(cfg, s, activity[..k] + [Die]);
         && ReplaySafe(cfg, t) && TornAside(t)
         && t.spool == Run(cfg, s, activity[..k]).spool && t.tmp == Run(cfg, s, activity[..k]).tmp
  {
    InitInv(cfg);
    InvRun(cfg, INIT, before);
    CrashIn(cfg, Run(cfg, INIT, before), activity, k);
  }

  lemma CrashIn(cfg: Config, s: State, activity: seq<Step>, k: nat)
    requires cfg.Valid() && Inv(cfg, s) && Legal(cfg, s, activity) && k <= |activity|
    ensures Legal(cfg, s, activity[..k]) && Legal(cfg, s, activity[..k] + [Die])
    ensures var t := Run(cfg, s, activity[..k] + [Die]);
      && ReplaySafe(cfg, t) && TornAside(t)
      && t.spool == Run(cfg, s, activity[..k]).spool && t.tmp == Run(cfg, s, activity[..k]).tmp
  {
    DieAfter(cfg, s, activity, k);
    var mid, t := Run(cfg, s, activity[..k]), Run(cfg, s, activity[..k] + [Die]);
    DeathKeepsDisk(cfg, mid, t);
    InvRun(cfg, s, activity[..k] + [Die]);
    assert SpoolSound(t);
    InvReplaySafe(cfg, t);
  }

  lemma DeathKeepsDisk(cfg: Config, s: State, t: State)
    requires t == Next(cfg, s, Die)
    ensures t.spool == s.spool && t.tmp == s.tmp
  {
  }

  /** The next start removes every leftover it can and keeps every file to be replayed. */
  lemma RestartCleansUp(cfg: Config, s: State)
    requires cfg.Valid() && cfg.spoolDir != ""
    ensures Legal(cfg, s, CleanupSteps(cfg, s.tmp, {}))
    ensures Run(cfg, s, CleanupSteps(cfg, s.tmp, {})).tmp == map[]
    ensures Run(cfg, s, CleanupSteps(cfg, s.tmp, {})).spool == s.spool
  {
    CleanupRun(cfg, s, {});
  }

  // ----- a whole life -----

  /**
   * A life of the process: activities with the events that arrive among their effects, ended after
   * `at` effects and arrivals, or when there are none left.
   */
  datatype Cut = Cut(pieces: seq<Piece>, at: nat)

  /** What happened before the process died. */
  function Effects(c: Cut): seq<Step> {
    var whole := Joined(c.pieces);
    if c.at <= |whole| then whole[..c.at] else whole
  }

  /** A death after these effects leaves nothing in memory and at most one batch newly unsure. */
  ghost predicate LeavesAtRest(cfg: Config, s: State, effects: seq<Step>, removes: bool) {
    && Legal(cfg, s, effects + [Die])
    && var t := Run(cfg, s, effects + [Die]);
       && Quiet(cfg, t) && t.queue == [] && t.batch == []
       && (removes ==> t.book.unsure <= s.book.unsure + BrokenOff(Consumed(effects)))
  }

  lemma DeathEmpties(cfg: Config, s: State)
    ensures Quiet(cfg, Next(cfg, s, Die)) && Next(cfg, s, Die).queue == [] && Next(cfg, s, Die).batch == []
    ensures Next(cfg, s, Die).book.unsure == s.book.unsure
  {
  }

  lemma CutAt(cfg: Config, s: State, whole: seq<Step>, k: nat, removes: bool)
    requires Legal(cfg, s, whole) && k <= |whole| && (removes ==> Prompt(Consumed(whole)))
    ensures LeavesAtRest(cfg, s, whole[..k], removes)
  {
    DieAfter(cfg, s, whole, k);
    DeathEmpties(cfg, Run(cfg, s, whole[..k]));
    if removes {
      UnsureWithin(cfg, s, whole, k);
    }
  }

  /** Whatever a process leaves, the next one starts at rest; with removals at most one batch is newly unsure. */
  lemma CutRun(cfg: Config, s: State, c: Cut)
    requires cfg.Valid() && Quiet(cfg, s) && Woven(cfg, s, c.pieces)
    ensures LeavesAtRest(cfg, s, Effects(c), PiecesRemove(c.pieces))
  {
    var whole := Joined(c.pieces);
    JoinedRun(cfg, s, c.pieces);
    if PiecesRemove(c.pieces) {
      JoinedIsPrompt(cfg, s, c.pieces);
    }
    CutAt(cfg, s, whole, if c.at <= |whole| then c.at else |whole|, PiecesRemove(c.pieces));
    assert whole[..|whole|] == whole;
  }

  /** Any number of lives, one after the other on the same directory, each cut anywhere. */
  function LivesSteps(lives: seq<Cut>): seq<Step> {
    if lives == [] then [] else LivesSteps(lives[..|lives| - 1]) + (Effects(lives[|lives| - 1]) + [Die])
  }

  /** Each life starts from what the earlier ones left. */
  ghost predicate Lives(cfg: Config, lives: seq<Cut>)
    requires cfg.Valid()
    decreases lives, 0
  {
    lives == [] ||
    var before := lives[..|lives| - 1];
    Lives(cfg, before) &&
    (LivesRun(cfg, before);
     Woven(cfg, Run(cfg, INIT, LivesSteps(before)), lives[|lives| - 1].pieces))
  }

  lemma {:induction false} LivesRun(cfg: Config, lives: seq<Cut>)
    requires cfg.Valid() && Lives(cfg, lives)
    ensures Legal(cfg, INIT, LivesSteps(lives))
    ensures var s := Run(cfg, INIT, LivesSteps(lives));
      Quiet(cfg, s) && s.queue == [] && s.batch == []
    decreases lives, 1
  {
    if lives == [] {
      RunNothing(cfg, INIT);
    } else {
      var before, last := lives[..|lives| - 1], lives[|lives| - 1];
      LivesRun(cfg, before);
      CutRun(cfg, Run(cfg, INIT, LivesSteps(before)), last);
      RunConcat(cfg, INIT, LivesSteps(before), Effects(last) + [Die]);
    }
  }

  /** The batches at which a life broke off between the accepted replay and the removal; one a life at most. */
  function Interrupted(lives: seq<Cut>): (ids: set<BatchId>)
    ensures |ids| <= |lives|
  {
    if lives == [] then {}
    else Interrupted(lives[..|lives| - 1]) + BrokenOff(Consumed(Effects(lives[|lives| - 1])))
  }

  ghost predicate AllRemove(lives: seq<Cut>) {
    forall k :: 0 <= k < |lives| ==> PiecesRemove(lives[k].pieces)
  }

  lemma {:induction false} UnsureInterrupted(cfg: Config, lives: seq<Cut>)
    requires cfg.Valid() && Lives(cfg, lives) && AllRemove(lives)
    ensures Legal(cfg, INIT, LivesSteps(lives))
    ensures Run(cfg, INIT, LivesSteps(lives)).book.unsure <= Interrupted(lives)
  {
    LivesRun(cfg, lives);
    if lives == [] {
      RunNothing(cfg, INIT);
    } else {
      var before, last := lives[..|lives| - 1], lives[|lives| - 1];
      UnsureInterrupted(cfg, before);
      LivesRun(cfg, before);
      CutRun(cfg, Run(cfg, INIT, LivesSteps(before)), last);
      RunConcat(cfg, INIT, LivesSteps(before), Effects(last) + [Die]);
    }
  }

  // ----- conservation with the overlap -----

  /** The batches that are acknowledged and also on disk or given up. */
  ghost function TwicePlaced(s: State): set<BatchId> {
    DeliveredIds(s.book.log) * (DiskIds(s) + s.book.dropped.Keys)
  }

  lemma {:induction false} EventsInParts(records: seq<Record>, ids: set<BatchId>, other: set<BatchId>)
    ensures EventsIn(records, ids) == EventsIn(records, ids - other) + EventsIn(records, ids * other)
  {
    EventsInUnion(records, ids - other, ids * other);
    assert (ids - other) + ids * other == ids;
  }

  /** The overlap is what the ledger calls unsure, and no batch of it is both on disk and given up. */
  lemma TwicePlacedIsUnsure(cfg: Config, s: State)
    requires Inv(cfg, s)
    ensures TwicePlaced(s) == s.book.unsure && DiskIds(s) !! s.book.dropped.Keys
  {
    assert DeliveredIds(s.book.log) <= s.book.sealed.Keys;
    forall id | id in s.book.sealed
      ensures Placed(s, id)
    {
    }
  }

  lemma OverlapEvents(rs: seq<Record>, disk: set<BatchId>, delivered: set<BatchId>, dropped: set<BatchId>)
    requires disk !! dropped
    ensures EventsIn(rs, disk) == EventsIn(rs, disk - delivered) + EventsIn(rs, disk * delivered)
    ensures EventsIn(rs, dropped) == EventsIn(rs, dropped - delivered) + EventsIn(rs, dropped * delivered)
    ensures EventsIn(rs, delivered * (disk + dropped))
            == EventsIn(rs, disk * delivered) + EventsIn(rs, dropped * delivered)
  {
    EventsInParts(rs, disk, delivered);
    EventsInParts(rs, dropped, delivered);
    EventsInUnion(rs, disk * delivered, dropped * delivered);
    assert disk * delivered + dropped * delivered == delivered * (disk + dropped);
  }

  lemma AddOverlap<T>(all: multiset<T>, rest: multiset<T>, disk: multiset<T>, disk2: multiset<T>,
                      dropped: multiset<T>, dropped2: multiset<T>)
    requires all == rest + disk + dropped
    ensures all + (disk2 + dropped2) == rest + (disk + disk2) + (dropped + dropped2)
  {
  }

  /** Every place counted in full: the accepted events, and those of the overlap once more. */
  lemma OverlapIn(cfg: Config, s: State)
    requires Inv(cfg, s)
    ensures var rs := s.book.records;
      multiset(s.book.accepted) + EventsIn(rs, TwicePlaced(s)) ==
        multiset(s.queue) + multiset(s.batch) + EventsIn(rs, FlightIds(s)) + EventsIn(rs, DeliveredIds(s.book.log))
        + EventsUnsealed(rs) + EventsIn(rs, DiskIds(s)) + EventsIn(rs, s.book.dropped.Keys)
  {
    var rs, disk, delivered, dropped := s.book.records, DiskIds(s), DeliveredIds(s.book.log), s.book.dropped.Keys;
    ConservedIn(cfg, s);
    TwicePlacedIsUnsure(cfg, s);
    OverlapEvents(rs, disk, delivered, dropped);
    var rest := multiset(s.queue) + multiset(s.batch) + EventsIn(rs, FlightIds(s)) + EventsIn(rs, delivered)
                + EventsUnsealed(rs);
    AddOverlap(multiset(s.book.accepted), rest, EventsIn(rs, disk - delivered), EventsIn(rs, disk * delivered),
               EventsIn(rs, dropped - delivered), EventsIn(rs, dropped * delivered));
  }

  /**
   * Conservation over any number of lives in which removals succeed, whatever arrives among their
   * effects and wherever each is cut: the accepted events are those on disk, acknowledged, given up or
   * lost before they got an id, but for the batches in two places; and each life adds at most one such
   * batch, the one it broke off at between the accepted replay and the removal.
   */
  lemma ConservationOverLives(cfg: Config, lives: seq<Cut>)
    requires cfg.Valid() && Lives(cfg, lives) && AllRemove(lives)
    ensures Legal(cfg, INIT, LivesSteps(lives))
    ensures var s := Run(cfg, INIT, LivesSteps(lives));
      && multiset(s.book.accepted) + EventsIn(s.book.records, TwicePlaced(s)) ==
           EventsIn(s.book.records, DiskIds(s)) + EventsIn(s.book.records, DeliveredIds(s.book.log))
           + EventsIn(s.book.records, s.book.dropped.Keys) + EventsUnsealed(s.book.records)
      && TwicePlaced(s) <= Interrupted(lives)
  {
    LivesRun(cfg, lives);
    UnsureInterrupted(cfg, lives);
    InitInv(cfg);
    InvRun(cfg, INIT, LivesSteps(lives));
    var s := Run(cfg, INIT, LivesSteps(lives));
    OverlapIn(cfg, s);
    TwicePlacedIsUnsure(cfg, s);
    assert FlightIds(s) == {};
    EventsInEmpty(s.book.records);
  }
}
