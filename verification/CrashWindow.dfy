/** The crash window by the clock: starts and updates in seconds, and what the starts within five minutes do. */
module CrashWindow {
  import opened Rollback
  import opened Options

  /** Outside the five minutes a start forgets the crashes; inside it counts, and the third one returns. */
  ghost predicate StartedByTheClock(h: Host, t: Host, now: int, ok: bool)
    requires h.bin.Image?
  {
    match h.saved
    case None => t.saved == None && t.bin == h.bin && t.running == Some(h.bin.version)
    case Some(u) =>
      if u.lastUpdate == None || now - u.lastUpdate.value >= 300
      then t.saved == Some(u.(restartCount := 0, graceful := false)) && t.bin == h.bin
           && t.running == Some(h.bin.version)
      else if u.graceful
      then t.saved == Some(u.(graceful := false)) && t.bin == h.bin && t.running == Some(h.bin.version)
      else
        var backup := BackupName(u.previousVersion);
        if u.restartCount >= 2 && ok && backup in h.backups && h.backups[backup].File?
        then t.saved == Some(u.(lastUpdate := None, restartCount := 0, graceful := false))
             && t.bin == h.backups[backup].image && t.running == None
        else t.saved == Some(u.(restartCount := u.restartCount + 1)) && t.bin == h.bin
             && t.running == Some(h.bin.version)
  }

  lemma StartByTheClock(h: Host, now: int, ok: bool)
    requires h.running.None? && h.bin.Image?
    ensures StartedByTheClock(h, Next(h, Start(now, ok)), now, ok)
  {
  }

  /**
   * An update that could not write the backup leaves everything but the directory as it was; so does one
   * that dies because folders crowd out the files, except that it dies.  Any other one notes the time
   * and both versions, forgets the crashes, and either installs and exits or keeps the binary and goes on.
   */
  ghost predicate UpdatedByOutcome(h: Host, t: Host, now: int, env: UpdateEnv)
    requires h.running.Some?
  {
    var dir := h.backups[BackupName(h.running.value) := File(h.bin)];
    if !env.copied || (|dir| > 2 && |Files(dir)| < 2)
    then t.saved == h.saved && t.bin == h.bin && t.running == if env.copied then None else h.running
    else
      && t.saved.Some?
      && t.saved.value.lastUpdate == Some(now)
      && t.saved.value.previousVersion == h.running.value && t.saved.value.currentVersion == env.version
      && t.saved.value.restartCount == 0 && !t.saved.value.graceful
      && if env.replaceOk then t.bin == env.next && t.running == None else t.bin == h.bin && t.running == h.running
  }

  lemma UpdateByOutcome(h: Host, now: int, env: UpdateEnv)
    requires Enabled(h, Update(now, env))
    ensures UpdatedByOutcome(h, Next(h, Update(now, env)), now, env)
  {
  }

  /**
   * The update at position `i`, at time `t`, is the latest; since then the new version was neither
   * found stable nor rolled back, and every start came within five minutes of the update.
   */
  ghost predicate Watched(history: seq<Happening>, i: nat, t: int) {
    && i < |history| && history[i] == Updated(t)
    && (forall j :: i < j < |history| ==> history[j].Started? || history[j].Exited?)
    && (forall j :: i < j < |history| && history[j].Started? ==> history[j].now - t < 300)
  }

  /** The starts since then that did not follow a graceful exit. */
  ghost function CrashStarts(history: seq<Happening>, i: nat): set<int> {
    set j | i < j < |history| && history[j].Started? && history[j - 1] != Exited(true)
  }

  lemma {:induction false} WindowOpens(history: seq<Happening>, i: nat, t: int)
    requires Watched(history, i, t)
    ensures WindowStart(history) == Some(t)
    decreases |history|
  {
    var init := history[..|history| - 1];
    if i < |init| {
      WindowOpens(init, i, t);
    }
  }

  lemma WatchedPrefix(history: seq<Happening>, i: nat, t: int, j: nat)
    requires Watched(history, i, t) && i < j <= |history|
    ensures Watched(history[..j], i, t) && WindowStart(history[..j]) == Some(t)
  {
    WindowOpens(history[..j], i, t);
  }

  lemma CountingBegins(history: seq<Happening>, i: nat, t: int)
    requires Watched(history, i, t)
    ensures SinceReset(history) == i + 1
  {
    forall j | i < j < |history|
      ensures !Resets(history, j)
    {
      WatchedPrefix(history, i, t, j);
    }
    assert Resets(history, i);
  }

  lemma CrashesCounted(history: seq<Happening>, i: nat, t: int)
    requires Watched(history, i, t)
    ensures CrashCount(history) == |CrashStarts(history, i)|
  {
    CountingBegins(history, i, t);
    forall j | i < j < |history|
      ensures CountedAt(history, j) <==> history[j].Started? && history[j - 1] != Exited(true)
    {
      WatchedPrefix(history, i, t, j);
    }
    assert CountedStarts(history, i + 1) == CrashStarts(history, i);
  }

  /** A start at `now`, `t` being the time of the update and `crashes` the number of crashed starts since. */
  ghost predicate Decides(h: Host, u: Host, t: int, crashes: nat, now: int, ok: bool) {
    && h.saved.Some? && u.saved.Some? && h.history != []
    && (now - t >= 300 ==> u.bin == h.bin && u.running.Some? && u.saved.value.restartCount == 0)
    && (now - t < 300 && h.history[|h.history| - 1] != Exited(true) ==>
          var backup := BackupName(h.saved.value.previousVersion);
          if crashes >= 2 && ok && backup in h.backups && h.backups[backup].File?
          then u.bin == h.backups[backup].image && u.running.None?
          else u.bin == h.bin && u.running.Some? && u.saved.value.restartCount == crashes + 1)
  }

  lemma SavedDecides(h: Host, t: int, now: int, ok: bool)
    requires Faithful(h) && h.running.None? && h.bin.Image? && h.history != []
    requires h.saved.Some? && WindowStart(h.history) == Some(t)
    ensures Decides(h, Next(h, Start(now, ok)), t, CrashCount(h.history), now, ok)
  {
    StartByTheClock(h, now, ok);
  }

  /**
   * From the history alone.  Five minutes or more after the latest update a start neither rolls back
   * nor keeps a count.  Earlier, and not after a graceful exit, it rolls back if and only if at least two
   * starts have crashed before it since the update, the backup is there and the replacement succeeds.
   */
  lemma ThirdCrashRollsBack(origin: Host, steps: seq<Step>, i: nat, t: int, now: int, ok: bool)
    requires Fresh(origin) && Legal(origin, steps)
    requires var h := Run(origin, steps);
      h.running.None? && h.bin.Image? && Watched(h.history, i, t)
    ensures var h := Run(origin, steps);
      Decides(h, Next(h, Start(now, ok)), t, |CrashStarts(h.history, i)|, now, ok)
  {
    FaithfulRun(origin, steps);
    var h := Run(origin, steps);
    WindowOpens(h.history, i, t);
    CrashesCounted(h.history, i, t);
    SavedDecides(h, t, now, ok);
  }
}
