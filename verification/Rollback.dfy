/**
 * The self-updater's crash-loop rollback (internal/topsrv/updater.go) as a machine over starts,
 * exits, stability marks and updates.  Each load-modify-save handler is one atomic step.
 */
module Rollback {
  import opened Trimming
  import opened Versions
  import opened Numbers
  import opened Options

  const MAX_BACKUPS := 2
  const MAX_RESTARTS := 3

  /** Seconds after an update during which restarts count. */
  const CRASH_WINDOW := 300

  /** A binary: the version compiled into it and its code; a torn copy runs as nothing. */
  datatype Image = Image(version: string, code: string) | Damaged

  datatype Entry = File(image: Image) | Folder

  type Directory = map<string, Entry>

  /** The state file; `lastUpdate` is None for the zero time, which lies outside every window. */
  datatype Saved = Saved(
    lastUpdate: Option<int>, previousVersion: string, currentVersion: string, restartCount: int, graceful: bool)

  /** What an observer of the host sees, oldest first. */
  datatype Happening =
    | Started(now: int)
    | Stabilised
    | Exited(graceful: bool)
    | Updated(now: int)
    | RolledBack

  datatype Host = Host(
    saved: Option<Saved>, bin: Image, backups: Directory, running: Option<string>, history: seq<Happening>)

  /** Outcomes met by an update to `version`: the copy of the backup, the sort, the removals, the replacement. */
  datatype UpdateEnv = UpdateEnv(
    version: string, next: Image, copied: bool, leftover: Option<Entry>, order: seq<string>, stuck: set<string>,
    replaceOk: bool)

  datatype Step =
    | Start(now: int, replaceOk: bool)
    | Stabilise
    | ExitGracefully
    | Crash
    | Update(now: int, env: UpdateEnv)

  function BackupName(version: string): string {
    BACKUP_PREFIX + version
  }

  predicate InWindow(last: Option<int>, now: int) {
    last.Some? && now - last.value < CRASH_WINDOW
  }

  // ----- the backup directory -----

  function Files(dir: Directory): set<string> {
    set name | name in dir && dir[name].File?
  }

  predicate AtMost(a: string, b: string) {
    CompareVersionedNames(a, b) <= 0
  }

  const BY_VERSION: (string, string) -> bool := (a, b) => AtMost(a, b)

  ghost predicate Releases(names: set<string>) {
    forall x :: x in names ==> Release(x)
  }

  /** A result of `sort.Slice`: some permutation, in order when the comparison is one. */
  ghost predicate SortResult(order: seq<string>, names: set<string>) {
    Arranges(order, names) && (Releases(names) ==> SortedBy(BY_VERSION, order))
  }

  /** More than two entries of which fewer than two are files: the slice bound is negative. */
  predicate TrimPanics(dir: Directory, order: seq<string>) {
    |dir| > MAX_BACKUPS && |order| < MAX_BACKUPS
  }

  function TrimVictims(dir: Directory, order: seq<string>, stuck: set<string>): set<string>
    requires !TrimPanics(dir, order)
  {
    if |dir| <= MAX_BACKUPS then {}
    else Oldest(order, MAX_BACKUPS) - stuck
  }

  function Trimmed(dir: Directory, order: seq<string>, stuck: set<string>): Directory
    requires !TrimPanics(dir, order)
  {
    dir - TrimVictims(dir, order, stuck)
  }

  /** The directory after the first `n` files of the order were removed, unless stuck. */
  function Removing(dir: Directory, order: seq<string>, stuck: set<string>, n: nat): Directory
    requires n <= |order|
  {
    dir - (FirstOf(order, n) - stuck)
  }

  lemma RemovingStep(dir: Directory, order: seq<string>, stuck: set<string>, n: nat)
    requires n < |order|
    ensures Removing(dir, order, stuck, 0) == dir
    ensures Removing(dir, order, stuck, n + 1)
            == if order[n] in stuck then Removing(dir, order, stuck, n) else Removing(dir, order, stuck, n) - {order[n]}
  {
    FirstSnoc(order, n);
    assert FirstOf(order, 0) - stuck == {} && dir - {} == dir;
    var now := FirstOf(order, n) - stuck;
    assert FirstOf(order, n + 1) - stuck == if order[n] in stuck then now else now + {order[n]};
    assert dir - (now + {order[n]}) == (dir - now) - {order[n]};
  }

  lemma RemovingAll(dir: Directory, order: seq<string>, stuck: set<string>, n: nat)
    requires !TrimPanics(dir, order) && |dir| > MAX_BACKUPS && n == |order| - MAX_BACKUPS
    ensures Removing(dir, order, stuck, n) == Trimmed(dir, order, stuck)
  {
  }

  // ----- the handlers -----

  function MarkedStable(saved: Option<Saved>): Option<Saved> {
    match saved
    case None => None
    case Some(u) => Some(u.(restartCount := 0))
  }

  function MarkedGraceful(saved: Option<Saved>): Option<Saved> {
    match saved
    case None => None
    case Some(u) => Some(u.(graceful := true))
  }

  /** What replace can copy from: the backup of `version`, if it is a file. */
  function Source(backups: Directory, version: string): Option<Image> {
    var name := BackupName(version);
    if name in backups && backups[name].File? then Some(backups[name].image) else None
  }

  /** The state file after checkRollback's own save, before any rollback. */
  function Counted(u: Saved, now: int): Saved {
    if !InWindow(u.lastUpdate, now) then u.(restartCount := 0, graceful := false)
    else if u.graceful then u.(graceful := false)
    else u.(restartCount := u.restartCount + 1)
  }

  predicate Attempts(saved: Option<Saved>, now: int) {
    saved.Some? && InWindow(saved.value.lastUpdate, now) && !saved.value.graceful
    && saved.value.restartCount + 1 >= MAX_RESTARTS
  }

  predicate RollsBack(h: Host, step: Step)
    requires step.Start?
  {
    Attempts(h.saved, step.now) && step.replaceOk && Source(h.backups, h.saved.value.previousVersion).Some?
  }

  function Closed(u: Saved): Saved {
    u.(lastUpdate := None, restartCount := 0, graceful := false)
  }

  ghost predicate Enabled(h: Host, step: Step) {
    match step
    case Start(_, _) => h.running.None? && h.bin.Image?
    case Update(_, env) =>
      h.running.Some? && SortResult(env.order, Files(h.backups[BackupName(h.running.value) := File(h.bin)]))
    case _ => h.running.Some?
  }

  function Next(h: Host, step: Step): Host
    requires Enabled(h, step)
  {
    match step
    case Start(now, _) =>
      var log := h.history + [Started(now)];
      if h.saved.None? then h.(running := Some(h.bin.version), history := log)
      else if RollsBack(h, step)
      then h.(saved := Some(Closed(Counted(h.saved.value, now))),
              bin := Source(h.backups, h.saved.value.previousVersion).value,
              history := log + [RolledBack, Exited(false)])
      else h.(saved := Some(Counted(h.saved.value, now)), running := Some(h.bin.version), history := log)
    case Stabilise => h.(saved := MarkedStable(h.saved), history := h.history + [Stabilised])
    case ExitGracefully =>
      h.(saved := MarkedGraceful(h.saved), running := None, history := h.history + [Exited(true)])
    case Crash => h.(running := None, history := h.history + [Exited(false)])
    case Update(now, env) =>
      var name := BackupName(h.running.value);
      if !env.copied
      then h.(backups := if env.leftover.Some? then h.backups[name := env.leftover.value] else h.backups)
      else
        var dir := h.backups[name := File(h.bin)];
        if TrimPanics(dir, env.order)
        then h.(backups := dir, running := None, history := h.history + [Exited(false)])
        else
          var saved := Some(Saved(Some(now), h.running.value, env.version, 0, false));
          var a := h.(saved := saved, backups := Trimmed(dir, env.order, env.stuck), history := h.history + [Updated(now)]);
          if env.replaceOk then a.(bin := env.next, running := None, history := a.history + [Exited(false)]) else a
  }

  ghost predicate Legal(h: Host, steps: seq<Step>)
    decreases steps
  {
    steps == [] || (Enabled(h, steps[0]) && Legal(Next(h, steps[0]), steps[1..]))
  }

  ghost function Run(h: Host, steps: seq<Step>): Host
    requires Legal(h, steps)
    decreases steps
  {
    if steps == [] then h else Run(Next(h, steps[0]), steps[1..])
  }

  /** A host on which the updater has never run. */
  ghost predicate Fresh(h: Host) {
    h.saved.None? && h.running.None? && h.history == []
  }

  // ----- the restart count, read off the history alone -----

  /** The time of the update whose window is open, if any. */
  function WindowStart(history: seq<Happening>): Option<int> {
    if history == [] then None
    else WindowAfter(WindowStart(history[..|history| - 1]), history[|history| - 1])
  }

  function WindowAfter(before: Option<int>, x: Happening): Option<int> {
    match x
    case Updated(now) => Some(now)
    case RolledBack => None
    case _ => before
  }

  predicate CleanExit(history: seq<Happening>) {
    history != [] && history[|history| - 1] == Exited(true)
  }

  /** A start at `now` after `history` counts: in the window, and not after a graceful exit. */
  predicate Counts(history: seq<Happening>, now: int) {
    InWindow(WindowStart(history), now) && !CleanExit(history)
  }

  /**
   * The happenings after which counting begins anew: an update, a stability mark, a rollback, a start
   * outside the window.
   */
  predicate Resets(history: seq<Happening>, i: nat)
    requires i < |history|
  {
    match history[i]
    case Exited(_) => false
    case Started(now) => !InWindow(WindowStart(history[..i]), now)
    case _ => true
  }

  /** The position right after the latest reset. */
  function SinceReset(history: seq<Happening>): (j: nat)
    ensures j <= |history| && (j == 0 || Resets(history, j - 1))
    ensures forall i :: j <= i < |history| ==> !Resets(history, i)
  {
    if history == [] then 0
    else
      var init := history[..|history| - 1];
      assert forall i :: 0 <= i < |init| ==> init[i] == history[i] && init[..i] == history[..i];
      assert forall i :: 0 <= i < |init| ==> (Resets(init, i) <==> Resets(history, i));
      if Resets(history, |history| - 1) then |history| else SinceReset(init)
  }

  /** The starts from position `j` on that counted. */
  ghost function CountedStarts(history: seq<Happening>, j: nat): set<int> {
    set i | j <= i < |history| && CountedAt(history, i)
  }

  predicate CountedAt(history: seq<Happening>, i: nat)
    requires i < |history|
  {
    history[i].Started? && Counts(history[..i], history[i].now)
  }

  /** How many starts counted since the latest reset. */
  ghost function CrashCount(history: seq<Happening>): nat {
    |CountedStarts(history, SinceReset(history))|
  }

  /** How one more happening changes the count. */
  ghost function CountAfter(history: seq<Happening>, x: Happening): nat {
    match x
    case Exited(_) => CrashCount(history)
    case Started(now) =>
      if !InWindow(WindowStart(history), now) then 0
      else if Counts(history, now) then CrashCount(history) + 1
      else CrashCount(history)
    case _ => 0
  }

  lemma CountedSnoc(history: seq<Happening>, x: Happening, j: nat)
    requires j <= |history|
    ensures CountedStarts(history + [x], j)
            == CountedStarts(history, j) + if x.Started? && Counts(history, x.now) then {|history|} else {}
  {
    var all := history + [x];
    assert all[..|history|] == history;
    forall i | 0 <= i < |history|
      ensures CountedAt(all, i) <==> CountedAt(history, i)
    {
      assert all[..i] == history[..i];
    }
  }

  lemma CountSnoc(history: seq<Happening>, x: Happening)
    ensures CrashCount(history + [x]) == CountAfter(history, x)
  {
    var all := history + [x];
    assert all[..|history|] == history;
    if Resets(all, |history|) {
      assert CountedStarts(all, |all|) == {};
    } else {
      CountedSnoc(history, x, SinceReset(history));
    }
  }

  /** The state file says what the history says. */
  ghost predicate Faithful(h: Host) {
    && (h.running.Some? ==> h.history != [] && !CleanExit(h.history))
    && (h.saved.None? ==> WindowStart(h.history) == None && CrashCount(h.history) == 0)
    && (h.saved.Some? ==>
          && h.saved.value.lastUpdate == WindowStart(h.history)
          && h.saved.value.restartCount == CrashCount(h.history)
          && h.saved.value.graceful == (h.running.None? && CleanExit(h.history)))
  }

  lemma Appended(history: seq<Happening>, x: Happening)
    ensures WindowStart(history + [x]) == WindowAfter(WindowStart(history), x)
    ensures CleanExit(history + [x]) == (x == Exited(true))
    ensures CrashCount(history + [x]) == CountAfter(history, x)
  {
    assert (history + [x])[..|history|] == history;
    CountSnoc(history, x);
  }

  lemma StartFaithful(h: Host, step: Step)
    requires Faithful(h) && step.Start? && Enabled(h, step)
    ensures Faithful(Next(h, step))
  {
    var log := h.history + [Started(step.now)];
    Appended(h.history, Started(step.now));
    if h.saved.Some? && RollsBack(h, step) {
      Appended(log, RolledBack);
      Appended(log + [RolledBack], Exited(false));
      assert log + [RolledBack] + [Exited(false)] == log + [RolledBack, Exited(false)];
    }
  }

  lemma UpdateFaithful(h: Host, step: Step)
    requires Faithful(h) && step.Update? && Enabled(h, step)
    ensures Faithful(Next(h, step))
  {
    Appended(h.history, Exited(false));
    Appended(h.history, Updated(step.now));
    Appended(h.history + [Updated(step.now)], Exited(false));
  }

  lemma FaithfulStep(h: Host, step: Step)
    requires Faithful(h) && Enabled(h, step)
    ensures Faithful(Next(h, step))
  {
    match step
    case Start(_, _) => StartFaithful(h, step);
    case Update(_, _) => UpdateFaithful(h, step);
    case Stabilise => Appended(h.history, Stabilised);
    case ExitGracefully => Appended(h.history, Exited(true));
    case Crash => Appended(h.history, Exited(false));
  }

  lemma {:induction false} FaithfulRun(h: Host, steps: seq<Step>)
    requires Faithful(h) && Legal(h, steps)
    ensures Faithful(Run(h, steps))
    decreases steps
  {
    if steps != [] {
      FaithfulStep(h, steps[0]);
      FaithfulRun(Next(h, steps[0]), steps[1..]);
    }
  }

  /** RestartCount is, on every run, the number of counted starts the history shows since its latest reset. */
  lemma RestartCountIsCrashCount(h: Host, steps: seq<Step>, j: nat)
    requires Fresh(h) && Legal(h, steps)
    requires var history := Run(h, steps).history;
      && j <= |history| && (j == 0 || Resets(history, j - 1))
      && forall i :: j <= i < |history| ==> !Resets(history, i)
    ensures var t := Run(h, steps);
      t.saved.Some? ==> t.saved.value.restartCount == |CountedStarts(t.history, j)|
  {
    FaithfulRun(h, steps);
  }

  /**
   * A start attempts a rollback exactly when it counts and is at least the third to do so since the
   * latest reset.
   */
  lemma RollbackAttemptedIff(h: Host, steps: seq<Step>, now: int)
    requires Fresh(h) && Legal(h, steps) && Run(h, steps).running.None?
    ensures var t := Run(h, steps);
      Attempts(t.saved, now)
      <==> Counts(t.history, now) && |CountedStarts(t.history, SinceReset(t.history))| + 1 >= MAX_RESTARTS
  {
    FaithfulRun(h, steps);
  }

  lemma StepFirst(h: Host, step: Step, rest: seq<Step>)
    requires Enabled(h, step) && Legal(Next(h, step), rest)
    ensures Legal(h, [step] + rest) && Run(h, [step] + rest) == Run(Next(h, step), rest)
  {
    assert ([step] + rest)[1..] == rest;
  }

  lemma {:induction false} RunThen(h: Host, a: seq<Step>, b: seq<Step>)
    requires Legal(h, a) && Legal(Run(h, a), b)
    ensures Legal(h, a + b) && Run(h, a + b) == Run(Run(h, a), b)
    decreases a
  {
    if a == [] {
      assert a + b == b;
    } else {
      assert (a + b)[1..] == a[1..] + b;
      RunThen(Next(h, a[0]), a[1..], b);
    }
  }

  /** Two starts, one and two seconds after an update, each followed by a crash. */
  function TwoCrashesAfter(t: int): seq<Step> {
    [Start(t + 1, false), Crash, Start(t + 2, false), Crash]
  }

  /** Both count. */
  lemma TwoCrashes(h: Host, t: int)
    requires h.running == None && h.bin.Image? && h.saved.Some?
    requires h.saved.value.lastUpdate == Some(t) && h.saved.value.restartCount == 0 && !h.saved.value.graceful
    ensures Legal(h, TwoCrashesAfter(t))
    ensures Run(h, TwoCrashesAfter(t)).bin == h.bin && Run(h, TwoCrashesAfter(t)).running == None
    ensures Run(h, TwoCrashesAfter(t)).saved == Some(h.saved.value.(restartCount := 2))
  {
    var a := Next(h, Start(t + 1, false));
    var b := Next(a, Crash);
    var c := Next(b, Start(t + 2, false));
    var d := Next(c, Crash);
    var rest := [Start(t + 2, false), Crash];
    assert TwoCrashesAfter(t)[1..] == [Crash] + rest && ([Crash] + rest)[1..] == rest;
    assert rest[1..] == [Crash] && [Crash][1..] == [];
    assert Legal(d, []);
    assert Legal(c, [Crash]) && Run(c, [Crash]) == d;
    assert Legal(b, rest) && Run(b, rest) == d;
    assert Legal(a, [Crash] + rest) && Run(a, [Crash] + rest) == d;
  }

  lemma FailedStartThenExit(h: Host, now: int)
    requires h.running == None && h.bin.Image? && h.saved.Some?
    ensures Legal(h, [Start(now, false), ExitGracefully])
    ensures Run(h, [Start(now, false), ExitGracefully])
            == Next(Next(h, Start(now, false)), ExitGracefully)
  {
    var a := Next(h, Start(now, false));
    assert [Start(now, false), ExitGracefully][1..] == [ExitGracefully] && [ExitGracefully][1..] == [];
    assert Legal(Next(a, ExitGracefully), []) && Legal(a, [ExitGracefully]);
  }

  /**
   * A count of three alone is not enough: after an update, two crashes and a third start that fails
   * to roll back and then stops gracefully, the next start has the count but attempts nothing.
   */
  lemma CountAloneAttemptsNothing(h: Host, env: UpdateEnv, at: int) returns (steps: seq<Step>)
    requires Fresh(h) && h.bin.Image? && env.copied && env.replaceOk && env.next.Image?
    requires var dir := h.backups[BackupName(h.bin.version) := File(h.bin)];
      SortResult(env.order, Files(dir)) && !TrimPanics(dir, env.order)
    ensures Legal(h, steps) && Run(h, steps).running.None?
    ensures CrashCount(Run(h, steps).history + [Started(at + 4)]) >= MAX_RESTARTS
    ensures !Attempts(Run(h, steps).saved, at + 4)
  {
    var a := Next(h, Start(at, false));
    var b := Next(a, Update(at, env));
    TwoCrashes(b, at);
    var crashes := TwoCrashesAfter(at);
    var c := Run(b, crashes);
    var last := [Start(at + 3, false), ExitGracefully];
    FailedStartThenExit(c, at + 3);
    RunThen(b, crashes, last);
    var t := Run(c, last);
    StepFirst(a, Update(at, env), crashes + last);
    StepFirst(h, Start(at, false), [Update(at, env)] + (crashes + last));
    steps := [Start(at, false)] + ([Update(at, env)] + (crashes + last));
    FaithfulRun(h, steps);
    Appended(t.history, Started(at + 4));
  }

  // ----- a host without crashes -----

  /** Every exit but the one after an update is graceful. */
  ghost predicate Orderly(steps: seq<Step>) {
    forall i :: 0 <= i < |steps| ==> !steps[i].Crash?
  }

  /** At most the first start of a new binary has counted, and any further start is after a clean exit. */
  ghost predicate Calm(h: Host) {
    h.saved.Some? ==>
      && 0 <= h.saved.value.restartCount <= 1
      && (h.running.None? && h.saved.value.restartCount == 1 ==> h.saved.value.graceful)
  }

  /** No panic in trimBackups: the backup directory holds files only. */
  ghost predicate FilesOnly(dir: Directory) {
    forall name :: name in dir ==> dir[name].File?
  }

  ghost predicate Undisturbed(step: Step) {
    step.Update? ==> step.env.leftover.None? || step.env.leftover.value.File?
  }

  lemma FilesAreKeys(dir: Directory)
    requires FilesOnly(dir)
    ensures Files(dir) == dir.Keys && |dir| == |Files(dir)|
  {
  }

  lemma CalmStep(h: Host, step: Step)
    requires Calm(h) && FilesOnly(h.backups) && Enabled(h, step) && !step.Crash? && Undisturbed(step)
    ensures Calm(Next(h, step)) && FilesOnly(Next(h, step).backups)
    ensures step.Start? ==> !Attempts(h.saved, step.now)
  {
    if step.Update? {
      FilesAreKeys(h.backups[BackupName(h.running.value) := File(h.bin)]);
    }
  }

  /** When every exit other than the one after an update is graceful, no start attempts a rollback. */
  lemma {:induction false} OrderlyNeverRollsBack(h: Host, steps: seq<Step>, now: int)
    requires Calm(h) && FilesOnly(h.backups) && Legal(h, steps) && Orderly(steps)
    requires forall i :: 0 <= i < |steps| ==> Undisturbed(steps[i])
    ensures Calm(Run(h, steps))
    ensures Run(h, steps).running.None? ==> !Attempts(Run(h, steps).saved, now)
    decreases steps
  {
    if steps != [] {
      CalmStep(h, steps[0]);
      OrderlyNeverRollsBack(Next(h, steps[0]), steps[1..], now);
    }
  }

  lemma OrderlyFromFresh(h: Host, steps: seq<Step>)
    requires Fresh(h) && FilesOnly(h.backups) && Legal(h, steps) && Orderly(steps)
    requires forall i :: 0 <= i < |steps| ==> Undisturbed(steps[i])
    ensures CrashCount(Run(h, steps).history) <= 1
  {
    OrderlyNeverRollsBack(h, steps, 0);
    FaithfulRun(h, steps);
  }

  // ----- which backups survive -----

  /** The other names that compare at least as high. */
  ghost function Above(names: set<string>, name: string): set<string> {
    AtLeast(BY_VERSION, names, name)
  }

  /** A trim keeps two files, and no removed file compares above a kept one. */
  lemma {:induction false} TrimKeepsGreatest(dir: Directory, order: seq<string>, x: string, y: string)
    requires FilesOnly(dir) && Releases(Files(dir)) && SortResult(order, Files(dir)) && |dir| > MAX_BACKUPS
    ensures !TrimPanics(dir, order) && |Trimmed(dir, order, {})| == MAX_BACKUPS
    ensures x in dir && x !in Trimmed(dir, order, {}) && y in Trimmed(dir, order, {}) ==> AtMost(x, y)
  {
    FilesAreKeys(dir);
    OldestCount(order, Files(dir), MAX_BACKUPS);
    assert Trimmed(dir, order, {}).Keys == Files(dir) - Oldest(order, MAX_BACKUPS);
    if x in Oldest(order, MAX_BACKUPS) && y in Trimmed(dir, order, {}) {
      TrimmedBelowKept(BY_VERSION, order, Files(dir), MAX_BACKUPS, x, y);
    }
  }

  /** At most one other backup at or above it: the new backup survives any sort and any trim. */
  lemma NewBackupSurvives(dir: Directory, order: seq<string>, stuck: set<string>, name: string)
    requires FilesOnly(dir) && Releases(Files(dir)) && SortResult(order, Files(dir)) && name in dir
    requires |Above(Files(dir), name)| <= 1
    ensures !TrimPanics(dir, order) && name in Trimmed(dir, order, stuck)
    ensures Trimmed(dir, order, stuck)[name] == dir[name]
  {
    FilesAreKeys(dir);
    if |dir| > MAX_BACKUPS {
      KeptWhenFewAbove(BY_VERSION, order, Files(dir), name);
    }
  }

  /** Two other backups strictly above it: the new backup is trimmed at once. */
  lemma NewBackupLost(dir: Directory, order: seq<string>, stuck: set<string>, name: string, a: string, b: string)
    requires FilesOnly(dir) && Releases(Files(dir)) && SortResult(order, Files(dir)) && name in dir
    requires a in dir && b in dir && a != b && name !in stuck
    requires !AtMost(a, name) && !AtMost(b, name) && a != name && b != name
    ensures !TrimPanics(dir, order) && name !in Trimmed(dir, order, stuck)
  {
    FilesAreKeys(dir);
    LostWhenTwoAbove(BY_VERSION, order, Files(dir), name, a, b);
  }

  /**
   * An update whose backup was written dies in trimBackups, leaving the state file as it was, if and
   * only if folders crowd out the files: more than two entries and fewer than two files.
   */
  lemma UpdatePanicsIff(h: Host, update: Step)
    requires update.Update? && Enabled(h, update) && update.env.copied
    ensures var dir := h.backups[BackupName(h.running.value) := File(h.bin)];
      Next(h, update) == h.(backups := dir, running := None, history := h.history + [Exited(false)])
      <==> |dir| > MAX_BACKUPS && |Files(dir)| < MAX_BACKUPS
  {
    var t, exit := Next(h, update), h.history + [Exited(false)];
    if !TrimPanics(h.backups[BackupName(h.running.value) := File(h.bin)], update.env.order) {
      assert t.history[|h.history|] == Updated(update.now);
      assert exit[|h.history|] == Exited(false);
    }
  }

  /** Such a host: its backup directory holds two folders and nothing else. */
  lemma UpdatePanicExample(h: Host, next: Image, now: int) returns (update: Step)
    requires h.running.Some? && h.backups == map["a" := Folder, "b" := Folder]
    ensures update.Update? && update.env.copied && Enabled(h, update)
    ensures var t := Next(h, update);
      && t.running == None && t.saved == h.saved && t.bin == h.bin
      && t.history == h.history + [Exited(false)]
  {
    var name := BackupName(h.running.value);
    var dir := h.backups[name := File(h.bin)];
    assert name != "a" && name != "b" by {
      assert |name| >= |BACKUP_PREFIX| == 7;
    }
    assert Files(dir) == {name};
    assert dir.Keys == {"a", "b", name} && |{"a", "b", name}| == 3;
    update := Update(now, UpdateEnv("2", next, true, None, [name], {}, true));
    UpdatePanicsIff(h, update);
  }

  // ----- update, crash loop, rollback -----

  /** An attempt to update whose backup failed saves nothing; it must only not have torn the backup to return to. */
  ghost predicate Spares(h: Host, step: Step)
    requires Enabled(h, step)
  {
    step.Update? ==>
      && !step.env.copied
      && (step.env.leftover == None || (h.saved.Some? && h.running.value != h.saved.value.previousVersion))
  }

  /** No update gets as far as a backup. */
  ghost predicate Sparing(h: Host, steps: seq<Step>)
    requires Legal(h, steps)
    decreases steps
  {
    steps == [] || (Spares(h, steps[0]) && Sparing(Next(h, steps[0]), steps[1..]))
  }

  ghost predicate SameTarget(h: Host, t: Host) {
    && h.saved.Some? && t.saved.Some? && t.saved.value.previousVersion == h.saved.value.previousVersion
    && Source(t.backups, t.saved.value.previousVersion) == Source(h.backups, h.saved.value.previousVersion)
    && (h.saved.value.lastUpdate == None ==> t.saved.value.lastUpdate == None)
  }

  lemma BackupNamesDiffer(a: string, b: string)
    ensures BackupName(a) == BackupName(b) ==> a == b
  {
    assert BackupName(a)[|BACKUP_PREFIX|..] == a && BackupName(b)[|BACKUP_PREFIX|..] == b;
  }

  lemma SparingStep(h: Host, step: Step)
    requires h.saved.Some? && Enabled(h, step) && Spares(h, step)
    ensures SameTarget(h, Next(h, step))
  {
    if step.Update? {
      BackupNamesDiffer(h.running.value, h.saved.value.previousVersion);
    }
  }

  /** Between updates the version to return to and its backup stand still. */
  lemma {:induction false} BetweenUpdates(h: Host, steps: seq<Step>)
    requires Legal(h, steps) && Sparing(h, steps) && h.saved.Some?
    ensures SameTarget(h, Run(h, steps))
    decreases steps
  {
    if steps != [] {
      SparingStep(h, steps[0]);
      BetweenUpdates(Next(h, steps[0]), steps[1..]);
    }
  }

  /** The directory right after the new backup is written. */
  function WithBackup(h: Host): Directory
    requires h.running.Some?
  {
    h.backups[BackupName(h.running.value) := File(h.bin)]
  }

  /** The backup directory an update meets is orderly, and leaves room for the new backup. */
  ghost predicate RoomForBackup(h: Host)
    requires h.running.Some?
  {
    && FilesOnly(WithBackup(h)) && Releases(Files(WithBackup(h)))
    && |Above(Files(WithBackup(h)), BackupName(h.running.value))| <= 1
  }

  /** The update got past its backup, and saved its state. */
  ghost predicate BackedUp(h: Host, update: Step) {
    update.Update? && Enabled(h, update) && update.env.copied && !TrimPanics(WithBackup(h), update.env.order)
  }

  /** Right after such an update the version to return to is the one that ran, backed up as installed or not at all. */
  lemma TargetAfterUpdate(h: Host, update: Step)
    requires BackedUp(h, update)
    ensures var t := Next(h, update);
      && t.saved.Some? && t.saved.value.previousVersion == h.running.value
      && Source(t.backups, h.running.value) in {None, Some(h.bin)}
  {
  }

  /**
   * Update, then a crash loop: whenever a rollback succeeds before another update is saved, the
   * installed binary is exactly the one that was installed when the backup was made.
   */
  lemma RollbackRestores(h: Host, update: Step, steps: seq<Step>, start: Step)
    requires BackedUp(h, update)
    requires Legal(Next(h, update), steps) && Sparing(Next(h, update), steps)
    requires start.Start? && Enabled(Run(Next(h, update), steps), start)
    requires RollsBack(Run(Next(h, update), steps), start)
    ensures Next(Run(Next(h, update), steps), start).bin == h.bin
  {
    TargetAfterUpdate(h, update);
    BetweenUpdates(Next(h, update), steps);
  }

  lemma {:induction false} BinaryStays(h: Host, steps: seq<Step>)
    requires Legal(h, steps) && Sparing(h, steps) && h.saved.Some?
    requires Source(h.backups, h.saved.value.previousVersion) in {None, Some(h.bin)}
    ensures Run(h, steps).bin == h.bin
    decreases steps
  {
    if steps != [] {
      SparingStep(h, steps[0]);
      BinaryStays(Next(h, steps[0]), steps[1..]);
    }
  }

  /**
   * An update saves its state before it replaces the binary.  When the replacement fails, the binary
   * in place becomes the one to return to: until another update is saved it stays, whatever crashes
   * and rollbacks follow, and the binary an earlier update had replaced is out of reach.
   */
  lemma FailedReplacementKeepsBinary(h: Host, update: Step, steps: seq<Step>)
    requires BackedUp(h, update) && !update.env.replaceOk
    requires Legal(Next(h, update), steps) && Sparing(Next(h, update), steps)
    ensures Run(Next(h, update), steps).bin == h.bin
    ensures Next(h, update).running == h.running && Next(h, update).saved.value.previousVersion == h.running.value
  {
    TargetAfterUpdate(h, update);
    BinaryStays(Next(h, update), steps);
  }

  /** With room for the backup the source of a rollback is there all along: only the replacement can fail. */
  lemma RollbackPossible(h: Host, update: Step, steps: seq<Step>)
    requires update.Update? && Enabled(h, update) && update.env.copied && RoomForBackup(h)
    requires Legal(Next(h, update), steps) && Sparing(Next(h, update), steps)
    ensures var t := Run(Next(h, update), steps);
      t.saved.Some? && Source(t.backups, t.saved.value.previousVersion) == Some(h.bin)
  {
    NewBackupSurvives(WithBackup(h), update.env.order, update.env.stuck, BackupName(h.running.value));
    BetweenUpdates(Next(h, update), steps);
  }

  /** An update on a host that began fresh, and after it a start that is the third to count since the latest reset. */
  ghost predicate CrashLoop(origin: Host, before: seq<Step>, update: Step, steps: seq<Step>, now: int) {
    && Fresh(origin) && Legal(origin, before)
    && var h := Run(origin, before);
    && update.Update? && Enabled(h, update) && update.env.copied && RoomForBackup(h)
    && Legal(Next(h, update), steps) && Sparing(Next(h, update), steps)
    && var t := Run(Next(h, update), steps);
    && Enabled(t, Start(now, true)) && Counts(t.history, now)
    && |CountedStarts(t.history, SinceReset(t.history))| + 1 >= MAX_RESTARTS
  }

  /** Put together: that start rolls back if the replacement succeeds, to the binary the update replaced. */
  lemma ThirdCountedStartRestores(origin: Host, before: seq<Step>, update: Step, steps: seq<Step>, now: int)
    requires CrashLoop(origin, before, update, steps, now)
    ensures var h := Run(origin, before);
      var t := Run(Next(h, update), steps);
      RollsBack(t, Start(now, true)) && Next(t, Start(now, true)).bin == h.bin
  {
    var h := Run(origin, before);
    FaithfulRun(origin, before);
    FaithfulStep(h, update);
    FaithfulRun(Next(h, update), steps);
    RollbackPossible(h, update, steps);
  }

  /** A host of version 1 without backups is updated to version 2 at time `t`. */
  function FaultyUpdate(t: int): Step {
    Update(t, UpdateEnv("2", Image("2", "faulty"), true, None, [BackupName("1")], {}, true))
  }

  lemma OneBackupHasRoom(h: Host)
    requires h.running == Some("1") && h.backups == map[]
    ensures RoomForBackup(h) && SortResult([BackupName("1")], Files(WithBackup(h)))
  {
    ThreeReleases();
    var names := Files(WithBackup(h));
    assert names == {BackupName("1")};
    assert Above(names, BackupName("1")) == {};
  }

  lemma {:induction false} NoUpdateSpares(h: Host, steps: seq<Step>)
    requires Legal(h, steps) && forall i :: 0 <= i < |steps| ==> !steps[i].Update?
    ensures Sparing(h, steps)
    decreases steps
  {
    if steps != [] {
      NoUpdateSpares(Next(h, steps[0]), steps[1..]);
    }
  }

  /** Such a run exists, whenever the update comes: the third start rolls back to version 1. */
  lemma CrashLoopExample(origin: Host, t: int)
    requires Fresh(origin) && origin.bin.Image? && origin.bin.version == "1" && origin.backups == map[]
    ensures CrashLoop(origin, [Start(t, false)], FaultyUpdate(t), TwoCrashesAfter(t), t + 3)
    ensures var h := Run(Next(Run(origin, [Start(t, false)]), FaultyUpdate(t)), TwoCrashesAfter(t));
      && RollsBack(h, Start(t + 3, true)) && h.bin == Image("2", "faulty")
      && Next(h, Start(t + 3, true)).bin == origin.bin
  {
    var before := [Start(t, false)];
    var g := Next(origin, Start(t, false));
    assert before[1..] == [] && Legal(g, []) && Run(g, []) == g;
    assert Legal(origin, before) && Run(origin, before) == g;
    OneBackupHasRoom(g);
    var a := Next(g, FaultyUpdate(t));
    TwoCrashes(a, t);
    NoUpdateSpares(a, TwoCrashesAfter(t));
    FaithfulRun(origin, before);
    FaithfulStep(g, FaultyUpdate(t));
    FaithfulRun(a, TwoCrashesAfter(t));
    ThirdCountedStartRestores(origin, before, FaultyUpdate(t), TwoCrashesAfter(t), t + 3);
  }

  /** After a successful rollback no start attempts another one until the next update is saved. */
  lemma NoSecondRollback(h: Host, start: Step, steps: seq<Step>, now: int)
    requires start.Start? && Enabled(h, start) && RollsBack(h, start)
    requires Legal(Next(h, start), steps) && Sparing(Next(h, start), steps)
    ensures !Attempts(Run(Next(h, start), steps).saved, now)
  {
    BetweenUpdates(Next(h, start), steps);
  }

  /** After an update whose sort ends in this order the backup is there. */
  ghost predicate KeepsBackup(h: Host, now: int, env: UpdateEnv, order: seq<string>)
    requires h.running.Some? && SortResult(order, Files(WithBackup(h)))
  {
    Source(Next(h, Update(now, env.(order := order))).backups, h.running.value) == Some(h.bin)
  }

  lemma ReleasesPreorder(names: set<string>)
    requires Releases(names)
    ensures Preorders(BY_VERSION, names)
  {
    forall a, b, c | a in names && b in names && c in names
      ensures AtMost(a, b) || AtMost(b, a)
      ensures AtMost(a, b) && AtMost(b, c) ==> AtMost(a, c)
    {
      ReleasesPreordered(a, b, c);
    }
  }

  lemma FewAboveKeeps(h: Host, now: int, env: UpdateEnv, order: seq<string>)
    requires h.running.Some? && env.copied && SortResult(order, Files(WithBackup(h))) && RoomForBackup(h)
    ensures KeepsBackup(h, now, env, order)
  {
    NewBackupSurvives(WithBackup(h), order, env.stuck, BackupName(h.running.value));
  }

  lemma TrimmedIsNotKept(h: Host, now: int, env: UpdateEnv, order: seq<string>)
    requires h.running.Some? && env.copied && env.stuck == {} && SortResult(order, Files(WithBackup(h)))
    requires |WithBackup(h)| > MAX_BACKUPS && |order| >= MAX_BACKUPS
    requires BackupName(h.running.value) in Oldest(order, MAX_BACKUPS)
    ensures !KeepsBackup(h, now, env, order)
  {
    assert BackupName(h.running.value) !in Trimmed(WithBackup(h), order, {});
  }

  lemma TwoAboveMayLose(h: Host, now: int, env: UpdateEnv) returns (order: seq<string>)
    requires h.running.Some? && env.copied && env.stuck == {}
    requires FilesOnly(WithBackup(h)) && Releases(Files(WithBackup(h))) && !RoomForBackup(h)
    ensures SortResult(order, Files(WithBackup(h))) && !KeepsBackup(h, now, env, order)
  {
    var names := Files(WithBackup(h));
    FilesAreKeys(WithBackup(h));
    ReleasesPreorder(names);
    order := LostInSomeOrder(BY_VERSION, names, BackupName(h.running.value));
    TrimmedIsNotKept(h, now, env, order);
  }

  /**
   * The backup survives its own update, in whatever order the sort leaves equal names, if and only if
   * at most one other backup is at or above it; a downgrade below two backups loses it.
   */
  lemma BackupSurvivesIff(h: Host, now: int, env: UpdateEnv)
    requires h.running.Some? && env.copied && env.stuck == {}
    requires FilesOnly(WithBackup(h)) && Releases(Files(WithBackup(h)))
    ensures |Above(Files(WithBackup(h)), BackupName(h.running.value))| <= 1
            <==> forall order :: SortResult(order, Files(WithBackup(h))) ==> KeepsBackup(h, now, env, order)
  {
    if RoomForBackup(h) {
      forall order | SortResult(order, Files(WithBackup(h)))
        ensures KeepsBackup(h, now, env, order)
      {
        FewAboveKeeps(h, now, env, order);
      }
    } else {
      var order := TwoAboveMayLose(h, now, env);
    }
  }

  /** No two different names of the directory compare equal. */
  ghost predicate NoTies(names: set<string>) {
    forall x, y :: x in names && y in names && x != y && AtMost(x, y) ==> !AtMost(y, x)
  }

  /** Without ties the order is one, and with two newer backups every update loses its own. */
  lemma UntiedBackupLost(h: Host, update: Step)
    requires update.Update? && Enabled(h, update) && update.env.copied && update.env.stuck == {}
    requires FilesOnly(WithBackup(h)) && Releases(Files(WithBackup(h))) && NoTies(Files(WithBackup(h)))
    requires |Above(Files(WithBackup(h)), BackupName(h.running.value))| > 1
    ensures Source(Next(h, update).backups, h.running.value) == None
  {
    var dir, name := WithBackup(h), BackupName(h.running.value);
    var above := Above(Files(dir), name);
    FilesAreKeys(dir);
    var a :| a in above;
    assert |above - {a}| == |above| - 1;
    var b :| b in above - {a};
    NewBackupLost(dir, update.env.order, {}, name, a, b);
  }

  /** A host that shows the loss: version 1 running beside backups of versions 2 and 3. */
  lemma DowngradeLosesBackup(h: Host, update: Step, steps: seq<Step>, start: Step)
    requires update.Update? && Enabled(h, update) && update.env.copied && update.env.stuck == {}
    requires h.running == Some("1")
    requires h.backups.Keys == {BackupName("2"), BackupName("3")} && FilesOnly(h.backups)
    requires Legal(Next(h, update), steps) && Sparing(Next(h, update), steps)
    requires start.Start? && Enabled(Run(Next(h, update), steps), start)
    ensures !RollsBack(Run(Next(h, update), steps), start)
  {
    assert WithBackup(h).Keys == {BackupName("1"), BackupName("2"), BackupName("3")};
    ThreeReleases();
    LowestOfThreeLost(WithBackup(h), update.env.order, BackupName("1"), BackupName("2"), BackupName("3"));
    BetweenUpdates(Next(h, update), steps);
  }

  lemma LowestOfThreeLost(dir: Directory, order: seq<string>, name: string, a: string, b: string)
    requires dir.Keys == {name, a, b} && FilesOnly(dir) && SortResult(order, Files(dir))
    requires Release(name) && Release(a) && Release(b) && name != a && name != b && a != b
    requires !AtMost(a, name) && !AtMost(b, name)
    ensures !TrimPanics(dir, order) && name !in Trimmed(dir, order, {})
  {
    FilesAreKeys(dir);
    ThreeAreReleases(dir.Keys, name, a, b);
    NewBackupLost(dir, order, {}, name, a, b);
  }

  lemma ThreeAreReleases(names: set<string>, x: string, y: string, z: string)
    requires names == {x, y, z} && Release(x) && Release(y) && Release(z)
    ensures Releases(names)
  {
  }

  lemma ThreeReleases()
    ensures Release(BackupName("1")) && Release(BackupName("2")) && Release(BackupName("3"))
    ensures !AtMost(BackupName("2"), BackupName("1")) && !AtMost(BackupName("3"), BackupName("1"))
    ensures BackupName("1") != BackupName("2") && BackupName("1") != BackupName("3") && BackupName("2") != BackupName("3")
  {
    DigitBackups("1", "2", 1, 2);
    DigitBackups("1", "3", 1, 3);
    DigitBackups("2", "3", 2, 3);
  }

  lemma DigitBackups(a: string, b: string, m: nat, n: nat)
    requires |a| == 1 && '0' <= a[0] <= '9' && m == a[0] as int - '0' as int
    requires |b| == 1 && '0' <= b[0] <= '9' && n == b[0] as int - '0' as int
    requires m < n
    ensures Release(BackupName(a)) && Release(BackupName(b)) && BackupName(a) != BackupName(b)
    ensures !AtMost(BackupName(b), BackupName(a))
  {
    OneSegment(a, m);
    OneSegment(b, n);
    NumericSegments(BackupName(a), BackupName(b), 0);
    ReleasesPreordered(BackupName(a), BackupName(b), BackupName(b));
  }

  lemma OneSegment(digit: string, n: nat)
    requires |digit| == 1 && '0' <= digit[0] <= '9' && n == digit[0] as int - '0' as int
    ensures Release(BackupName(digit)) && Values(ExtractVersion(BackupName(digit))) == [n]
  {
    ExtractAfterPrefix(digit);
    assert '.' !in digit;
    NoDots(digit);
    assert digit[1..] == "";
    assert ScanDigits(digit, 0) == Number(n);
    assert Atoi(digit) == n;
    assert Values(digit) == [n];
  }
}
