/** The Updater of internal/topsrv/updater.go, proved against the rollback machine. */
module SelfUpdate {
  import opened CrashWindow
  import opened Rollback
  import opened Options

  class Updater {
    var saved: Option<Saved>
    var bin: Image
    var backups: Directory
    var running: Option<string>
    ghost var history: seq<Happening>

    ghost function Abs(): Host
      reads this
    {
      Host(saved, bin, backups, running, history)
    }

    constructor (bin: Image, backups: Directory)
      ensures Fresh(Abs()) && this.bin == bin && this.backups == backups
    {
      saved, this.bin, this.backups, running, history := None, bin, backups, None, [];
    }

    /** Copies `source` beside the binary and renames it over; a failure leaves the binary alone. */
    method Replace(source: Option<Image>, ok: bool) returns (done: bool)
      modifies this`bin
      ensures done == (source.Some? && ok)
      ensures bin == if done then source.value else old(bin)
    {
      if source.None? || !ok {
        return false;
      }
      bin := source.value;
      return true;
    }

    /** The rollback proper, without the exit. */
    method AttemptRollback(version: string, ok: bool) returns (done: bool)
      requires saved.Some?
      modifies this`bin, this`saved
      ensures done == (Source(backups, version).Some? && ok)
      ensures done ==> bin == Source(backups, version).value && saved == Some(Closed(old(saved).value))
      ensures !done ==> bin == old(bin) && saved == old(saved)
    {
      done := Replace(Source(backups, version), ok);
      if !done {
        return;
      }
      saved := Some(saved.value.(lastUpdate := None, restartCount := 0, graceful := false));
    }

    /** Returns whether a rollback succeeded, after which the process exits. */
    method CheckRollback(now: int, ok: bool) returns (exit: bool)
      modifies this`bin, this`saved
      ensures exit == (Attempts(old(saved), now) && ok && Source(backups, old(saved).value.previousVersion).Some?)
      ensures old(saved).None? ==> saved == None
      ensures old(saved).Some? ==>
        var u := old(saved).value;
        var since := u.lastUpdate.Some? && now - u.lastUpdate.value < 300;
        && (exit ==> since && !u.graceful && u.restartCount >= 2)
        && (since && !u.graceful && u.restartCount >= 2 && ok && Source(backups, u.previousVersion).Some? ==> exit)
        && saved.Some?
        && saved.value.restartCount
           == if exit || !since then 0 else if u.graceful then u.restartCount else u.restartCount + 1
      ensures old(saved).Some? ==>
        saved == Some(if exit then Closed(Counted(old(saved).value, now)) else Counted(old(saved).value, now))
      ensures bin == if exit then Source(backups, old(saved).value.previousVersion).value else old(bin)
    {
      if saved.None? {
        return false;
      }
      var u := saved.value;
      if !InWindow(u.lastUpdate, now) {
        if u.restartCount != 0 || u.graceful {
          saved := Some(u.(restartCount := 0, graceful := false));
        }
        return false;
      }
      if u.graceful {
        saved := Some(u.(graceful := false));
        return false;
      }
      u := u.(restartCount := u.restartCount + 1);
      saved := Some(u);
      if u.restartCount < MAX_RESTARTS {
        return false;
      }
      exit := AttemptRollback(u.previousVersion, ok);
    }

    method StartProcess(now: int, ok: bool)
      requires Enabled(Abs(), Start(now, ok))
      modifies this
      ensures Abs() == Next(old(Abs()), Start(now, ok))
      ensures StartedByTheClock(old(Abs()), Abs(), now, ok)
    {
      StartByTheClock(Abs(), now, ok);
      running := Some(bin.version);
      var exit := CheckRollback(now, ok);
      history := history + [Started(now)];
      if exit {
        running := None;
        history := history + [RolledBack, Exited(false)];
      }
    }

    method MarkStable()
      requires Enabled(Abs(), Stabilise)
      modifies this`saved, this`history
      ensures Abs() == Next(old(Abs()), Stabilise)
    {
      if saved.Some? && saved.value.restartCount != 0 {
        saved := Some(saved.value.(restartCount := 0));
      }
      history := history + [Stabilised];
    }

    method ExitGraceful()
      requires Enabled(Abs(), ExitGracefully)
      modifies this`saved, this`running, this`history
      ensures Abs() == Next(old(Abs()), ExitGracefully)
    {
      if saved.Some? && !saved.value.graceful {
        saved := Some(saved.value.(graceful := true));
      }
      running := None;
      history := history + [Exited(true)];
    }

    /** Removes the first `n` files of the order, stuck ones excepted. */
    method RemoveFirst(order: seq<string>, n: nat, stuck: set<string>)
      requires n < |order|
      modifies this`backups
      ensures backups == Removing(old(backups), order, stuck, n)
    {
      var i := 0;
      RemovingStep(backups, order, stuck, 0);
      while i < n
        invariant 0 <= i <= n
        invariant backups == Removing(old(backups), order, stuck, i)
      {
        RemovingStep(old(backups), order, stuck, i);
        if order[i] !in stuck {
          backups := backups - {order[i]};
        }
        i := i + 1;
      }
    }

    /** Returns false when the slice bound is negative and the goroutine panics. */
    method TrimBackups(order: seq<string>, stuck: set<string>) returns (ok: bool)
      modifies this`backups
      ensures ok == !TrimPanics(old(backups), order)
      ensures backups == if ok then Trimmed(old(backups), order, stuck) else old(backups)
    {
      if |backups| <= MAX_BACKUPS {
        assert backups - {} == backups;
        return true;
      }
      if |order| < MAX_BACKUPS {
        return false;
      }
      var cut := |order| - MAX_BACKUPS;
      RemovingAll(backups, order, stuck, cut);
      RemoveFirst(order, cut, stuck);
      return true;
    }

    /** The part of check that changes the host; returns whether the process exits. */
    method Install(now: int, env: UpdateEnv)
      requires Enabled(Abs(), Update(now, env))
      modifies this
      ensures Abs() == Next(old(Abs()), Update(now, env))
    {
      var name := BackupName(running.value);
      if !env.copied {
        if env.leftover.Some? {
          backups := backups[name := env.leftover.value];
        }
        return;
      }
      backups := backups[name := File(bin)];
      var trimmed := TrimBackups(env.order, env.stuck);
      if !trimmed {
        running, history := None, history + [Exited(false)];
        return;
      }
      saved := Some(Saved(Some(now), running.value, env.version, 0, false));
      history := history + [Updated(now)];
      var replaced := Replace(Some(env.next), env.replaceOk);
      if replaced {
        running, history := None, history + [Exited(false)];
      }
    }
  }
}
