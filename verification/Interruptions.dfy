/** Crashes between any two effects, and producers that enqueue between any two. */
module Interruptions {
  import opened Listings
  import opened Options
  import opened Protocol
  import opened Passes
  import opened Lifetime

  // ----- the batch that can be in two places, read off the steps -----

  predicate AcceptedReplay(step: Step, id: BatchId) {
    step.Resend? && step.id == id && !Failed(step.reply)
  }

  /** Which removals of a file count: the one a replay makes of the file it sent, or any. */
  datatype Removals = ByReplay | ForAnyReason

  predicate Removal(step: Step, id: BatchId, which: Removals) {
    step.Remove? && step.id == id && (which.ByReplay? ==> step.reason.None?)
  }

  /** After some accepted replay of the batch its file was not removed, by a replay or for any reason. */
  ghost predicate ReplayStands(steps: seq<Step>, id: BatchId, which: Removals) {
    exists k :: 0 <= k < |steps| && AcceptedReplay(steps[k], id) && NoRemovalAfter(steps, id, which, k)
  }

  ghost predicate NoRemovalAfter(steps: seq<Step>, id: BatchId, which: Removals, k: int) {
    forall j :: k < j < |steps| && 0 <= j ==> !Removal(steps[j], id, which)
  }

  lemma StandsSnoc(steps: seq<Step>, last: Step, id: BatchId, which: Removals)
    ensures ReplayStands(steps + [last], id, which)
            <==> AcceptedReplay(last, id) || (ReplayStands(steps, id, which) && !Removal(last, id, which))
  {
    var all := steps + [last];
    if AcceptedReplay(last, id) {
      assert AcceptedReplay(all[|steps|], id) && NoRemovalAfter(all, id, which, |steps|);
    } else if ReplayStands(all, id, which) {
      var k :| 0 <= k < |all| && AcceptedReplay(all[k], id) && NoRemovalAfter(all, id, which, k);
      assert k < |steps| && all[|steps|] == last;
      assert NoRemovalAfter(steps, id, which, k) by {
        assert forall j :: 0 <= j < |steps| ==> steps[j] == all[j];
      }
    } else if ReplayStands(steps, id, which) && !Removal(last, id, which) {
      var k :| 0 <= k < |steps| && AcceptedReplay(steps[k], id) && NoRemovalAfter(steps, id, which, k);
      assert all[k] == steps[k] && NoRemovalAfter(all, id, which, k);
    }
  }

  lemma UnsureStep(cfg: Config, s: State, step: Step, id: BatchId)
    requires Enabled(cfg, s, step)
    ensures id in Next(cfg, s, step).book.unsure
            <==> AcceptedReplay(step, id) || (id in s.book.unsure && !Removal(step, id, ByReplay))
  {
  }

  /** The last step of a legal run is taken from where the others lead. */
  lemma LastStep(cfg: Config, s: State, steps: seq<Step>, k: nat)
    requires Legal(cfg, s, steps) && k < |steps|
    ensures Legal(cfg, s, steps[..k]) && Legal(cfg, s, steps[..k + 1])
    ensures Enabled(cfg, Run(cfg, s, steps[..k]), steps[k])
    ensures Run(cfg, s, steps[..k + 1]) == Next(cfg, Run(cfg, s, steps[..k]), steps[k])
  {
    RunPrefix(cfg, s, steps, k);
    assert steps[k..][0] == steps[k];
    RunSnoc(cfg, s, steps[..k], steps[k]);
    assert steps[..k + 1] == steps[..k] + [steps[k]];
  }

  /** A batch is unsure if and only if after some accepted replay of it no replay removed its file. */
  lemma {:induction false} UnsureIff(cfg: Config, s: State, steps: seq<Step>, k: nat, id: BatchId)
    requires Legal(cfg, s, steps) && k <= |steps| && s.book.unsure == {}
    ensures Legal(cfg, s, steps[..k])
    ensures id in Run(cfg, s, steps[..k]).book.unsure <==> ReplayStands(steps[..k], id, ByReplay)
  {
    RunPrefix(cfg, s, steps, k);
    if k > 0 {
      UnsureIff(cfg, s, steps, k - 1, id);
      LastStep(cfg, s, steps, k - 1);
      UnsureStep(cfg, Run(cfg, s, steps[..k - 1]), steps[k - 1], id);
      assert steps[..k] == steps[..k - 1] + [steps[k - 1]];
      StandsSnoc(steps[..k - 1], steps[k - 1], id, ByReplay);
    }
  }

  ghost predicate KeptThoughAccepted(s: State, id: BatchId) {
    OnDisk(s, id) && Delivered(s, id)
  }

  lemma KeptStep(cfg: Config, s: State, step: Step, id: BatchId)
    requires AllPlaced(s) && SpoolSound(s) && Enabled(cfg, s, step)
    ensures KeptThoughAccepted(Next(cfg, s, step), id)
            <==> AcceptedReplay(step, id) || (KeptThoughAccepted(s, id) && !Removal(step, id, ForAnyReason))
  {
    var t := Next(cfg, s, step);
    if step.Post? || step.Resend? {
      DeliveredAppend(s.book.log, t.book.log[|s.book.log|]);
    }
    if s.book.flight.Some? {
      assert Placed(s, s.book.flight.value);
    }
  }

  lemma KeptSnoc(cfg: Config, done: seq<Step>, last: Step, id: BatchId)
    requires cfg.Valid() && Legal(cfg, INIT, done) && Enabled(cfg, Run(cfg, INIT, done), last)
    requires KeptThoughAccepted(Run(cfg, INIT, done), id) <==> ReplayStands(done, id, ForAnyReason)
    ensures KeptThoughAccepted(Next(cfg, Run(cfg, INIT, done), last), id)
            <==> ReplayStands(done + [last], id, ForAnyReason)
  {
    InitInv(cfg);
    InvRun(cfg, INIT, done);
    KeptStep(cfg, Run(cfg, INIT, done), last, id);
    StandsSnoc(done, last, id, ForAnyReason);
  }

  /** An acknowledged batch is on disk if and only if after some accepted replay its file was not removed at all. */
  lemma {:induction false} KeptIff(cfg: Config, steps: seq<Step>, k: nat, id: BatchId)
    requires cfg.Valid() && Legal(cfg, INIT, steps) && k <= |steps|
    ensures Legal(cfg, INIT, steps[..k])
    ensures KeptThoughAccepted(Run(cfg, INIT, steps[..k]), id) <==> ReplayStands(steps[..k], id, ForAnyReason)
  {
    RunPrefix(cfg, INIT, steps, k);
    if k > 0 {
      KeptIff(cfg, steps, k - 1, id);
      LastStep(cfg, INIT, steps, k - 1);
      KeptSnoc(cfg, steps[..k - 1], steps[k - 1], id);
      assert steps[..k] == steps[..k - 1] + [steps[k - 1]];
    }
  }

  // ----- with removals that succeed, a replay and its removal follow each other -----

  ghost predicate Prompt(steps: seq<Step>) {
    forall k :: 0 <= k < |steps| && steps[k].Resend? && !Failed(steps[k].reply)
      ==> k + 1 < |steps| && steps[k + 1] == Remove(steps[k].id, None)
  }

  /** Effects of the consumer alone. */
  ghost predicate Own(steps: seq<Step>) {
    forall k :: 0 <= k < |steps| ==> !steps[k].Enqueue? && !steps[k].Die?
  }

  ghost predicate NoReplay(steps: seq<Step>) {
    Own(steps) && forall k :: 0 <= k < |steps| ==> !steps[k].Resend?
  }

  lemma PromptConcat(a: seq<Step>, b: seq<Step>)
    requires Prompt(a) && Prompt(b)
    ensures Prompt(a + b)
  {
    var s := a + b;
    forall k | 0 <= k < |s| && s[k].Resend? && !Failed(s[k].reply)
      ensures k + 1 < |s| && s[k + 1] == Remove(s[k].id, None)
    {
      if k < |a| {
        assert s[k] == a[k] && s[k + 1] == a[k + 1];
      } else {
        assert s[k] == b[k - |a|] && s[k + 1] == b[k - |a| + 1];
      }
    }
  }

  lemma {:induction false} TmpRemovalsReplayNothing(ids: seq<BatchId>)
    ensures NoReplay(TmpRemovals(ids))
  {
    if ids != [] {
      TmpRemovalsReplayNothing(ids[1..]);
    }
  }

  lemma {:induction false} EvictionsReplayNothing(ids: seq<BatchId>)
    ensures NoReplay(Evictions(ids))
  {
    if ids != [] {
      EvictionsReplayNothing(ids[1..]);
    }
  }

  lemma SpoolReplaysNothing(cfg: Config, spool: Spool, id: BatchId, payload: Payload, e: SpoolEnv)
    requires StrictTotal(cfg.before)
    ensures NoReplay(SpoolSteps(cfg, spool, id, payload, e))
  {
    EvictionsReplayNothing(TrimVictims(cfg, spool[id := Whole(payload)], e));
    assert NoReplay(RenameSteps(cfg, spool, id, payload, e));
  }

  lemma FlushReplaysNothing(cfg: Config, s: State, e: FlushEnv)
    requires StrictTotal(cfg.before)
    ensures NoReplay(FlushSteps(cfg, s, e))
  {
    if s.batch != [] && e.encoded.Some? {
      var id, payload := cfg.id(s.minted), Payload(s.batch, e.encoded.value);
      SpoolReplaysNothing(cfg, s.spool, id, payload, e.spool);
    }
  }

  lemma FinalReplaysNothing(cfg: Config, s: State, e: FinalEnv)
    requires StrictTotal(cfg.before)
    ensures NoReplay(FinalSteps(cfg, s, e))
  {
    if s.batch != [] && e.encoded.Some? {
      var id, payload := cfg.id(s.minted), Payload(s.batch, e.encoded.value);
      SpoolReplaysNothing(cfg, s.spool, id, payload, e.spool);
    }
  }

  lemma ReplayIsPrompt(id: BatchId, e: FileEnv)
    ensures Own(ReplaySteps(id, e)) && (e.removable ==> Prompt(ReplaySteps(id, e)))
  {
  }

  ghost predicate AllRemovable(env: BatchId -> FileEnv) {
    forall x :: env(x).removable
  }

  lemma {:induction false} RetryIsPrompt(files: seq<BatchId>, env: BatchId -> FileEnv, fails: nat)
    ensures Own(RetrySteps(files, env, fails)) && (AllRemovable(env) ==> Prompt(RetrySteps(files, env, fails)))
    decreases |files|
  {
    if files != [] && fails < MAX_TRANSIENT_PER_RUN {
      var next := if Transient(env(files[0])) then fails + 1 else fails;
      var one, rest := ReplaySteps(files[0], env(files[0])), RetrySteps(files[1..], env, next);
      ReplayIsPrompt(files[0], env(files[0]));
      RetryIsPrompt(files[1..], env, next);
      if AllRemovable(env) {
        PromptConcat(one, rest);
      }
      assert Own(one + rest);
    }
  }

  lemma TickRetryIsPrompt(cfg: Config, s: State, files: BatchId -> FileEnv)
    requires StrictTotal(cfg.before)
    ensures Own(TickRetry(cfg, s, files)) && (AllRemovable(files) ==> Prompt(TickRetry(cfg, s, files)))
  {
    if cfg.spoolDir != "" {
      RetryIsPrompt(Listing(cfg.before, s.spool.Keys), files, 0);
    }
  }

  /** The batch a run broke off at, right after its replay was accepted. */
  function BrokenOff(steps: seq<Step>): set<BatchId> {
    if steps == [] then {}
    else
      var last := steps[|steps| - 1];
      if last.Resend? && !Failed(last.reply) then {last.id} else {}
  }

  /** The consumer's own steps. */
  function Consumed(steps: seq<Step>): seq<Step> {
    if steps == [] then []
    else
      var init, last := steps[..|steps| - 1], steps[|steps| - 1];
      if last.Enqueue? then Consumed(init) else Consumed(init) + [last]
  }

  lemma ConsumedSnoc(steps: seq<Step>, last: Step)
    ensures Consumed(steps + [last]) == if last.Enqueue? then Consumed(steps) else Consumed(steps) + [last]
  {
    assert (steps + [last])[..|steps|] == steps;
  }

  lemma {:induction false} ConsumedPrefix(steps: seq<Step>, k: nat)
    requires k <= |steps|
    ensures Consumed(steps[..k]) <= Consumed(steps)
    decreases |steps|
  {
    if k < |steps| {
      ConsumedPrefix(steps[..|steps| - 1], k);
      assert steps[..|steps| - 1][..k] == steps[..k];
    } else {
      assert steps[..k] == steps;
    }
  }

  /** In a prompt sequence the removal follows wherever the sequence goes on after an accepted replay. */
  lemma PromptNext(own: seq<Step>, done: seq<Step>, last: Step)
    requires Prompt(own) && done + [last] <= own
    ensures forall id :: id in BrokenOff(done) ==> last == Remove(id, None)
  {
    if done != [] {
      assert own[|done| - 1] == done[|done| - 1] && own[|done|] == last;
    }
  }

  lemma UnsureTurn(cfg: Config, s: State, own: seq<Step>, done: seq<Step>, last: Step, unsure: set<BatchId>)
    requires Enabled(cfg, s, last) && s.book.unsure <= unsure + BrokenOff(done)
    requires !last.Enqueue? ==> Prompt(own) && done + [last] <= own
    ensures Next(cfg, s, last).book.unsure <= unsure + BrokenOff(if last.Enqueue? then done else done + [last])
  {
    var t := Next(cfg, s, last);
    if !last.Enqueue? {
      PromptNext(own, done, last);
      forall id | id in t.book.unsure
        ensures id in unsure + BrokenOff(done + [last])
      {
        UnsureStep(cfg, s, last, id);
      }
    }
  }

  /**
   * Wherever a run is cut whose own effects are prompt, only the batch it broke off at is newly unsure,
   * however many events arrive in between, between a replay and its removal included.
   */
  lemma {:induction false} UnsureWithin(cfg: Config, s: State, steps: seq<Step>, k: nat)
    requires Legal(cfg, s, steps) && Prompt(Consumed(steps)) && k <= |steps|
    ensures Legal(cfg, s, steps[..k])
    ensures Run(cfg, s, steps[..k]).book.unsure <= s.book.unsure + BrokenOff(Consumed(steps[..k]))
  {
    RunPrefix(cfg, s, steps, k);
    if k > 0 {
      UnsureWithin(cfg, s, steps, k - 1);
      LastStep(cfg, s, steps, k - 1);
      var done, last := Consumed(steps[..k - 1]), steps[k - 1];
      assert steps[..k] == steps[..k - 1] + [last];
      ConsumedPrefix(steps, k);
      ConsumedSnoc(steps[..k - 1], last);
      UnsureTurn(cfg, Run(cfg, s, steps[..k - 1]), Consumed(steps), done, last, s.book.unsure);
    }
  }

  // ----- producers between any two effects -----

  function Enqueues(events: seq<Event>): seq<Step> {
    if events == [] then [] else Enqueues(events[..|events| - 1]) + [Step.Enqueue(events[|events| - 1])]
  }

  /** The state after further events were accepted. */
  ghost function Extended(s: State, more: seq<Event>): State {
    s.(queue := s.queue + more, book := s.book.(accepted := s.book.accepted + more))
  }

  lemma {:induction false} EnqueuesRun(cfg: Config, s: State, events: seq<Event>)
    requires |s.queue| + |events| <= 2 * cfg.batchSize
    ensures Legal(cfg, s, Enqueues(events)) && Run(cfg, s, Enqueues(events)) == Extended(s, events)
  {
    if events == [] {
      RunNothing(cfg, s);
      assert s.queue + [] == s.queue && s.book.accepted + [] == s.book.accepted;
    } else {
      var init, last := events[..|events| - 1], events[|events| - 1];
      EnqueuesRun(cfg, s, init);
      RunSnoc(cfg, s, Enqueues(init), Step.Enqueue(last));
      assert events == init + [last];
      ConcatAssociative(s.queue, init, [last]);
      ConcatAssociative(s.book.accepted, init, [last]);
    }
  }

  /**
   * Two calls of flushFinal do not always drain: one event taken into the batch, then the queue
   * filled to the brim, is a run after which the drain closes three batches.
   */
  lemma DrainCanTakeThree(cfg: Config, ev: Event, envs: nat -> FinalEnv) returns (steps: seq<Step>)
    requires cfg.Valid() && cfg.batchSize > 1
    ensures Legal(cfg, INIT, steps) && AtRest(cfg, Run(cfg, INIT, steps))
    ensures var s := Run(cfg, INIT, steps);
      && Legal(cfg, s, DrainSteps(cfg, s, envs, 0))
      && |Run(cfg, s, DrainSteps(cfg, s, envs, 0)).book.records| == |s.book.records| + 3
  {
    var a := Next(cfg, INIT, Step.Enqueue(ev));
    var b := Next(cfg, a, Take);
    var many := seq(2 * cfg.batchSize, i => ev);
    EnqueuesRun(cfg, b, many);
    RunCons(cfg, a, Take, Enqueues(many));
    RunCons(cfg, INIT, Step.Enqueue(ev), [Take] + Enqueues(many));
    steps := [Step.Enqueue(ev)] + ([Take] + Enqueues(many));
    var s := Run(cfg, INIT, steps);
    assert s == Extended(b, many);
    DrainRun(cfg, s, envs, 0);
    DrainAtMostThree(cfg, s);
  }

  /** What an effect of the consumer does is the same with more events waiting. */
  lemma StepExtends(cfg: Config, s: State, step: Step, more: seq<Event>)
    requires Enabled(cfg, s, step) && !step.Enqueue? && !step.Die?
    ensures Enabled(cfg, Extended(s, more), step)
    ensures Next(cfg, Extended(s, more), step) == Extended(Next(cfg, s, step), more)
  {
    if step.Take? {
      assert (s.queue + more)[1..] == s.queue[1..] + more;
    }
  }

  /**
   * Events that arrive between the effects of a flush, a replay pass or a drain disturb none of them:
   * the run stays legal and ends as if those accepted had arrived after it.
   */
  lemma {:induction false} ArrivalsCommute(cfg: Config, s: State, woven: seq<Step>) returns (more: seq<Event>)
    requires Legal(cfg, s, Consumed(woven)) && (forall k :: 0 <= k < |woven| ==> !woven[k].Die?)
    requires |s.queue| <= 2 * cfg.batchSize
    ensures Legal(cfg, s, woven)
    ensures var t := Run(cfg, s, Consumed(woven));
      && Run(cfg, s, woven) == Extended(t, more) && |t.queue| + |more| <= 2 * cfg.batchSize
      && Legal(cfg, t, Enqueues(more)) && Run(cfg, s, woven) == Run(cfg, t, Enqueues(more))
  {
    if woven == [] {
      more := [];
      RunNothing(cfg, s);
      EnqueuesRun(cfg, s, []);
    } else {
      var init, last := woven[..|woven| - 1], woven[|woven| - 1];
      assert woven == init + [last];
      if last.Enqueue? {
        more := ArrivalsCommute(cfg, s, init);
        RunSnoc(cfg, s, init, last);
        var t := Run(cfg, s, Consumed(init));
        if |t.queue + more| < 2 * cfg.batchSize {
          ConcatAssociative(t.queue, more, [last.ev]);
          ConcatAssociative(t.book.accepted, more, [last.ev]);
          more := more + [last.ev];
        }
        EnqueuesRun(cfg, t, more);
      } else {
        var own := Consumed(woven);
        assert own[..|own| - 1] == Consumed(init) && own[|own| - 1] == last;
        LastStep(cfg, s, own, |own| - 1);
        assert own[..|own|] == own;
        more := ArrivalsCommute(cfg, s, init);
        var t := Run(cfg, s, Consumed(init));
        StepExtends(cfg, t, last, more);
        RunSnoc(cfg, s, init, last);
        QueueShrinks(cfg, t, last);
        EnqueuesRun(cfg, Next(cfg, t, last), more);
      }
    }
  }

  lemma QueueShrinks(cfg: Config, s: State, step: Step)
    requires Enabled(cfg, s, step) && !step.Enqueue?
    ensures |Next(cfg, s, step).queue| <= |s.queue|
  {
  }
}
