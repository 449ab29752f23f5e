/** Ordering kernel releases and flagging kernel packages (internal/topsrv/packages/kernel.go). */
module Kernel {
  import opened Lex
  import opened Numbers
  import opened Text

  // ----- versions as runs -----

  datatype Class = Digit | Letter | Separator

  function ClassOf(c: char): Class {
    if '0' <= c <= '9' then Digit
    else if 'A' <= c <= 'Z' || 'a' <= c <= 'z' then Letter
    else Separator
  }

  /** How many characters at the start of `s` are of one class. */
  function Lead(s: string, kind: Class): (n: nat)
    ensures n <= |s| && (n < |s| ==> ClassOf(s[n]) != kind)
    ensures forall i :: 0 <= i < n ==> ClassOf(s[i]) == kind
  {
    if s == "" || ClassOf(s[0]) != kind then 0 else 1 + Lead(s[1..], kind)
  }

  /** The maximal runs of digits and of letters, as the regular expression finds them. */
  function Runs(s: string): seq<string>
    decreases |s|
  {
    if s == "" then []
    else if ClassOf(s[0]) == Separator then Runs(s[1..])
    else
      var n := Lead(s, ClassOf(s[0]));
      [s[..n]] + Runs(s[n..])
  }

  /** A letter run is below any number; a digit run that does not fit an int is the largest. */
  function RunValue(run: string): (v: int)
    ensures -1 <= v <= MAX_INT
  {
    if run == "" || ClassOf(run[0]) != Digit then -1
    else
      match ScanDigits(run, 0)
      case Number(n) => if n <= MAX_INT then n else MAX_INT
      case _ => MAX_INT
  }

  function RunValues(runs: seq<string>): seq<int> {
    seq(|runs|, i requires 0 <= i < |runs| => RunValue(runs[i]))
  }

  function VersionRunsOf(s: string): seq<int> {
    RunValues(Runs(s))
  }

  method VersionRuns(s: string) returns (out: seq<int>)
    ensures out == VersionRunsOf(s)
  {
    out := [];
    var runs := Runs(s);
    var i := 0;
    while i < |runs|
      invariant 0 <= i <= |runs| && out == RunValues(runs)[..i]
    {
      var run := runs[i];
      if run == "" || run[0] < '0' || run[0] > '9' {
        out := out + [-1];
      } else {
        var value := MAX_INT;
        match ScanDigits(run, 0) {
          case Number(n) =>
            if n <= MAX_INT {
              value := n;
            }
          case _ =>
        }
        out := out + [value];
      }
      i := i + 1;
    }
  }

  lemma LeadBeforeSeparator(a: string, c: char, b: string, kind: Class)
    requires ClassOf(c) == Separator && kind != Separator
    ensures Lead(a + [c] + b, kind) == Lead(a, kind)
  {
    var doc := a + [c] + b;
    var n, m := Lead(a, kind), Lead(doc, kind);
    assert doc[|a|] == c;
    assert forall i :: 0 <= i < |a| ==> doc[i] == a[i];
  }

  /** Runs never cross a separator. */
  lemma {:induction false} RunsDistribute(a: string, c: char, b: string)
    requires ClassOf(c) == Separator
    ensures Runs(a + [c] + b) == Runs(a) + Runs(b)
    decreases |a|
  {
    var doc := a + [c] + b;
    if a == "" {
      assert doc[0] == c && doc[1..] == b;
    } else {
      assert doc[0] == a[0];
      if ClassOf(a[0]) == Separator {
        assert doc[1..] == a[1..] + [c] + b;
        RunsDistribute(a[1..], c, b);
      } else {
        var n := Lead(a, ClassOf(a[0]));
        LeadBeforeSeparator(a, c, b, ClassOf(a[0]));
        CutBefore(a, c, b, n);
        RunsDistribute(a[n..], c, b);
        ConsJoin(a[..n], Runs(a[n..]), Runs(b));
      }
    }
  }

  lemma CutBefore(a: string, c: char, b: string, n: nat)
    requires n <= |a|
    ensures (a + [c] + b)[..n] == a[..n] && (a + [c] + b)[n..] == a[n..] + [c] + b
  {
  }

  lemma ConsJoin<T>(x: T, a: seq<T>, b: seq<T>)
    ensures [x] + (a + b) == ([x] + a) + b
  {
  }

  /** So a version splits at any separator, whichever character it is. */
  lemma VersionRunsDistribute(a: string, c: char, b: string)
    requires ClassOf(c) == Separator
    ensures VersionRunsOf(a + [c] + b) == VersionRunsOf(a) + VersionRunsOf(b)
  {
    RunsDistribute(a, c, b);
  }

  predicate IsRun(s: string) {
    s != "" && ClassOf(s[0]) != Separator && forall i :: 0 <= i < |s| ==> ClassOf(s[i]) == ClassOf(s[0])
  }

  lemma LeadingRunAt(x: string, b: string)
    requires IsRun(x) && (b == "" || ClassOf(b[0]) != ClassOf(x[0]))
    ensures Runs(x + b) == [x] + Runs(b)
  {
    var s, n := x + b, Lead(x + b, ClassOf(x[0]));
    assert forall i :: 0 <= i < |x| ==> s[i] == x[i];
    assert b != "" ==> s[|x|] == b[0];
    assert n == |x| && s[..n] == x && s[n..] == b;
  }

  /** A run ends where the class changes, separator or not: el8 is a letter run and a digit run. */
  lemma LeadingRun(x: string, b: string)
    requires IsRun(x) && (b == "" || ClassOf(b[0]) != ClassOf(x[0]))
    ensures VersionRunsOf(x + b) == [RunValue(x)] + VersionRunsOf(b)
  {
    LeadingRunAt(x, b);
  }

  lemma SingleRun(x: string)
    requires IsRun(x)
    ensures VersionRunsOf(x) == [RunValue(x)]
  {
    LeadingRunAt(x, "");
    assert x + "" == x;
  }

  // ----- the order -----

  datatype State = NotKernel | Active | Old | Pending

  function CompareKernel(release: string, running: string): State {
    var c := Compare(VersionRunsOf(release), VersionRunsOf(running));
    if c == 0 then Active else if c == -1 then Old else Pending
  }

  predicate NotNewer(a: string, b: string) {
    CompareKernel(a, b) != Pending
  }

  /** A total preorder: Old and Pending mirror each other, Active is having equal runs, and it is transitive. */
  lemma KernelOrder(a: string, b: string, c: string)
    ensures CompareKernel(a, a) == Active
    ensures CompareKernel(a, b) == Active <==> VersionRunsOf(a) == VersionRunsOf(b)
    ensures CompareKernel(a, b) == Old <==> CompareKernel(b, a) == Pending
    ensures NotNewer(a, b) || NotNewer(b, a)
    ensures NotNewer(a, b) && NotNewer(b, c) ==> NotNewer(a, c)
    ensures NotNewer(a, b) && NotNewer(b, c) && (CompareKernel(a, b) == Old || CompareKernel(b, c) == Old)
            ==> CompareKernel(a, c) == Old
  {
    var x, y, z := VersionRunsOf(a), VersionRunsOf(b), VersionRunsOf(c);
    CompareZeroIsEqual(x, x);
    CompareZeroIsEqual(x, y);
    CompareMirrors(x, y);
    if Compare(x, y) <= 0 && Compare(y, z) <= 0 {
      CompareTransitive(x, y, z);
    }
  }

  lemma FirstRunDecides(p: seq<int>, x: int, y: int, a: seq<int>, b: seq<int>)
    requires x < y
    ensures Compare(p + [x] + a, p + [y] + b) == -1
  {
    assert p + [x] + a == p + ([x] + a) && p + [y] + b == p + ([y] + b);
    CompareSkipsPrefix(p, [x] + a, [y] + b);
  }

  /** After a common part, the first run with a smaller value makes the older release. */
  lemma SmallerRunIsOlder(head: string, c: char, x: string, y: string, tail: string, rest: string)
    requires ClassOf(c) == Separator && IsRun(x) && IsRun(y) && RunValue(x) < RunValue(y)
    ensures CompareKernel(head + [c] + (x + [c] + tail), head + [c] + (y + [c] + rest)) == Old
  {
    RunsAround(head, c, x, tail);
    RunsAround(head, c, y, rest);
    FirstRunDecides(VersionRunsOf(head), RunValue(x), RunValue(y), VersionRunsOf(tail), VersionRunsOf(rest));
  }

  lemma RunsAround(head: string, c: char, x: string, tail: string)
    requires ClassOf(c) == Separator && IsRun(x)
    ensures VersionRunsOf(head + [c] + (x + [c] + tail)) == VersionRunsOf(head) + [RunValue(x)] + VersionRunsOf(tail)
  {
    VersionRunsDistribute(head, c, x + [c] + tail);
    VersionRunsDistribute(x, c, tail);
    SingleRun(x);
    Regroup(VersionRunsOf(head), RunValue(x), VersionRunsOf(tail));
  }

  lemma Regroup(p: seq<int>, x: int, t: seq<int>)
    ensures p + ([x] + t) == p + [x] + t
  {
  }

  lemma {:induction false} ScanIsNumeric(s: string, acc: nat)
    requires Digits(s)
    ensures !ScanDigits(s, acc).Malformed?
  {
    if s != "" && 10 * acc + (s[0] as int - '0' as int) <= MAX_UINT {
      ScanIsNumeric(s[1..], 10 * acc + (s[0] as int - '0' as int));
    }
  }

  /** A digit run too long for an int has the largest value, and no letter run reaches any number. */
  lemma RunValueBounds(long: string, run: string, letters: string)
    requires Digits(long) && |long| > 20 && long[0] != '0'
    requires letters != "" && ClassOf(letters[0]) == Letter
    ensures RunValue(run) <= RunValue(long) == MAX_INT
    ensures run != "" && ClassOf(run[0]) == Digit ==> RunValue(letters) < RunValue(run)
  {
    LongNumberSaturates(long);
    ScanIsNumeric(long, 0);
  }

  // ----- packages -----

  const DPKG := "dpkg"
  const RPM := "rpm"
  const APK := "apk"

  datatype Package = Package(
    name: string, version: string, release: string, arch: string, isActiveKernel: bool, isOldKernel: bool)

  /** The install-only kernel packages; true for those that ship a bootable image. */
  const RPM_KERNEL_PACKAGES: map<string, bool> := map[
    "kernel" := true, "kernel-core" := true, "kernel-uek" := true, "kernel-uek-core" := true,
    "kernel-modules" := false, "kernel-modules-core" := false, "kernel-modules-extra" := false,
    "kernel-uek-modules" := false, "kernel-uek-modules-extra" := false,
    "kernel-devel" := false, "kernel-uek-devel" := false]

  function LastIndexOf(s: string, c: char): (i: int)
    ensures -1 <= i < |s| && (i >= 0 ==> s[i] == c) && forall k :: i < k < |s| ==> s[k] != c
  {
    if s == "" then -1 else if s[|s| - 1] == c then |s| - 1 else LastIndexOf(s[..|s| - 1], c)
  }

  /** `strings.Replace` of the first occurrence. */
  function ReplaceFirst(s: string, part: string, with: string): string {
    if HasPrefix(s, part) then with + s[|part|..]
    else if s == "" then ""
    else [s[0]] + ReplaceFirst(s[1..], part, with)
  }

  /** The release a package is compared by, the running one it is compared with, and whether it is an image. */
  datatype Candidate = NoCandidate | Candidate(release: string, running: string, image: bool)

  /** `abi` finds the kernel ABI in a package name or a release, or nothing. */
  function CandidateOf(manager: string, kernelRelease: string, p: Package, abi: string -> string): Candidate {
    if manager == DPKG then
      if !HasPrefix(p.name, "linux-") || abi(p.name) == "" || abi(kernelRelease) == "" then NoCandidate
      else Candidate(abi(p.name), abi(kernelRelease), HasPrefix(p.name, "linux-image-"))
    else if manager == RPM then
      if p.name !in RPM_KERNEL_PACKAGES then NoCandidate
      else Candidate(p.version + "-" + p.release, TrimSuffix(kernelRelease, "." + p.arch), RPM_KERNEL_PACKAGES[p.name])
    else if manager == APK then
      var i := LastIndexOf(kernelRelease, '-');
      if i < 0 || p.name != "linux-" + kernelRelease[i + 1..] then NoCandidate
      else Candidate(ReplaceFirst(p.version, "-r", "-"), kernelRelease[..i], true)
    else NoCandidate
  }

  function ClassifyKernel(manager: string, kernelRelease: string, p: Package, abi: string -> string): (State, bool) {
    match CandidateOf(manager, kernelRelease, p, abi)
    case NoCandidate => (NotKernel, false)
    case Candidate(release, running, image) => (CompareKernel(release, running), image)
  }

  lemma TrimSuffixUndoes(s: string, suffix: string)
    ensures TrimSuffix(s + suffix, suffix) == s
  {
    assert (s + suffix)[|s|..] == suffix && (s + suffix)[..|s|] == s;
  }

  /** On rpm systems the release reads version-release.arch, and that package is the running one. */
  lemma RunningRpmIsActive(p: Package, abi: string -> string)
    requires p.name in RPM_KERNEL_PACKAGES
    ensures var running := p.version + "-" + p.release + ("." + p.arch);
      ClassifyKernel(RPM, running, p, abi) == (Active, RPM_KERNEL_PACKAGES[p.name])
  {
    var release := p.version + "-" + p.release;
    TrimSuffixUndoes(release, "." + p.arch);
    KernelOrder(release, release, release);
  }

  /** On dpkg systems a package with the running ABI in its name is the running one. */
  lemma RunningDpkgIsActive(p: Package, running: string, abi: string -> string)
    requires HasPrefix(p.name, "linux-") && abi(p.name) == abi(running) != ""
    ensures ClassifyKernel(DPKG, running, p, abi) == (Active, HasPrefix(p.name, "linux-image-"))
  {
    KernelOrder(abi(running), abi(running), abi(running));
  }

  lemma {:induction false} ReplaceFirstFound(v: string, rest: string)
    requires '-' !in v
    ensures ReplaceFirst(v + "-r" + rest, "-r", "-") == v + "-" + rest
    decreases |v|
  {
    var s := v + "-r" + rest;
    if v == "" {
      assert s[..2] == "-r" && s[2..] == rest;
    } else {
      assert s[0] == v[0] && v[0] in v;
      assert s[1..] == v[1..] + "-r" + rest;
      ReplaceFirstFound(v[1..], rest);
      assert !HasPrefix(s, "-r") by {
        assert s[..2][0] == v[0] && "-r"[0] == '-';
      }
      assert [v[0]] + (v[1..] + "-" + rest) == v + "-" + rest;
    }
  }

  lemma {:induction false} LastIndexOfIs(head: string, c: char, tail: string)
    requires c !in tail
    ensures LastIndexOf(head + [c] + tail, c) == |head|
    decreases |tail|
  {
    var s := head + [c] + tail;
    if tail != "" {
      var n := |tail| - 1;
      assert tail[n] in tail && s[|s| - 1] == tail[n];
      assert s[..|s| - 1] == head + [c] + tail[..n];
      LastIndexOfIs(head, c, tail[..n]);
    }
  }

  /** On Alpine the release reads version-pkgrel-flavor, the package linux-flavor has version-rpkgrel. */
  lemma RunningApkIsActive(p: Package, version: string, pkgrel: string, flavor: string, abi: string -> string)
    requires '-' !in version && '-' !in flavor
    requires p.name == "linux-" + flavor && p.version == version + "-r" + pkgrel
    ensures ClassifyKernel(APK, (version + "-" + pkgrel) + ['-'] + flavor, p, abi) == (Active, true)
  {
    var release := version + "-" + pkgrel;
    var running := release + ['-'] + flavor;
    LastIndexOfIs(release, '-', flavor);
    assert running[|release| + 1..] == flavor && running[..|release|] == release;
    ReplaceFirstFound(version, pkgrel);
    KernelOrder(release, release, release);
  }

  function Marked(manager: string, kernelRelease: string, p: Package, abi: string -> string): Package {
    match ClassifyKernel(manager, kernelRelease, p, abi).0
    case Active => p.(isActiveKernel := true)
    case Old => p.(isOldKernel := true)
    case _ => p
  }

  /** A bootable image of a release strictly newer than the running one. */
  predicate NewerImage(manager: string, kernelRelease: string, p: Package, abi: string -> string) {
    var c := CandidateOf(manager, kernelRelease, p, abi);
    c.Candidate? && c.image && Compare(VersionRunsOf(c.release), VersionRunsOf(c.running)) > 0
  }

  /** What becomes of all packages; an unknown running release marks nothing. */
  function MarkedAll(manager: string, kernelRelease: string, pkgs: seq<Package>, abi: string -> string): (r: seq<Package>)
    ensures |r| == |pkgs|
  {
    if kernelRelease == "" then pkgs
    else seq(|pkgs|, i requires 0 <= i < |pkgs| => Marked(manager, kernelRelease, pkgs[i], abi))
  }

  ghost predicate RebootRequired(manager: string, kernelRelease: string, pkgs: seq<Package>, abi: string -> string) {
    kernelRelease != "" && exists i :: 0 <= i < |pkgs| && NewerImage(manager, kernelRelease, pkgs[i], abi)
  }

  method MarkPackage(manager: string, pkgs: array<Package>, i: nat, kernelRelease: string, abi: string -> string)
    returns (newer: bool)
    requires i < pkgs.Length
    modifies pkgs
    ensures pkgs[i] == Marked(manager, kernelRelease, old(pkgs[i]), abi)
    ensures forall k :: 0 <= k < pkgs.Length && k != i ==> pkgs[k] == old(pkgs[k])
    ensures newer <==> NewerImage(manager, kernelRelease, old(pkgs[i]), abi)
  {
    newer := false;
    var (state, image) := ClassifyKernel(manager, kernelRelease, pkgs[i], abi);
    PendingImageIsNewer(manager, kernelRelease, pkgs[i], abi);
    match state
    case Active => pkgs[i] := pkgs[i].(isActiveKernel := true);
    case Old => pkgs[i] := pkgs[i].(isOldKernel := true);
    case Pending => newer := image;
    case NotKernel =>
  }

  method MarkKernelPackages(manager: string, pkgs: array<Package>, kernelRelease: string, abi: string -> string)
    returns (rebootRequired: bool)
    modifies pkgs
    ensures pkgs[..] == MarkedAll(manager, kernelRelease, old(pkgs[..]), abi)
    ensures rebootRequired <==> RebootRequired(manager, kernelRelease, old(pkgs[..]), abi)
  {
    rebootRequired := false;
    if kernelRelease == "" {
      return;
    }
    ghost var before := pkgs[..];
    var i := 0;
    while i < pkgs.Length
      invariant 0 <= i <= pkgs.Length
      invariant forall k :: i <= k < pkgs.Length ==> pkgs[k] == before[k]
      invariant forall k :: 0 <= k < i ==> pkgs[k] == Marked(manager, kernelRelease, before[k], abi)
      invariant rebootRequired <==> exists k :: 0 <= k < i && NewerImage(manager, kernelRelease, before[k], abi)
    {
      var newer := MarkPackage(manager, pkgs, i, kernelRelease, abi);
      rebootRequired := rebootRequired || newer;
      i := i + 1;
    }
  }

  lemma PendingImageIsNewer(manager: string, kernelRelease: string, p: Package, abi: string -> string)
    ensures NewerImage(manager, kernelRelease, p, abi)
            <==> ClassifyKernel(manager, kernelRelease, p, abi) == (Pending, true)
  {
  }

  lemma {:induction false} MarkedAgain(manager: string, kernelRelease: string, p: Package, abi: string -> string)
    ensures var q := Marked(manager, kernelRelease, p, abi);
      && CandidateOf(manager, kernelRelease, q, abi) == CandidateOf(manager, kernelRelease, p, abi)
      && Marked(manager, kernelRelease, q, abi) == q
  {
  }

  /** Marking looks at no flag, so marking again changes nothing and asks for the same reboot. */
  lemma MarkingIdempotent(manager: string, kernelRelease: string, pkgs: seq<Package>, abi: string -> string)
    ensures var marked := MarkedAll(manager, kernelRelease, pkgs, abi);
      && MarkedAll(manager, kernelRelease, marked, abi) == marked
      && (RebootRequired(manager, kernelRelease, marked, abi) <==> RebootRequired(manager, kernelRelease, pkgs, abi))
  {
    var marked := MarkedAll(manager, kernelRelease, pkgs, abi);
    if kernelRelease != "" {
      forall i | 0 <= i < |pkgs|
        ensures Marked(manager, kernelRelease, marked[i], abi) == marked[i]
        ensures NewerImage(manager, kernelRelease, marked[i], abi) <==> NewerImage(manager, kernelRelease, pkgs[i], abi)
      {
        MarkedAgain(manager, kernelRelease, pkgs[i], abi);
      }
    }
  }

  /**
   * The flags of an unflagged package are exact: active if and only if the runs of its release equal
   * the running ones, old if and only if they compare below, so never both.
   */
  lemma FlagsAreExact(manager: string, kernelRelease: string, p: Package, abi: string -> string)
    requires !p.isActiveKernel && !p.isOldKernel
    ensures var q, c := Marked(manager, kernelRelease, p, abi), CandidateOf(manager, kernelRelease, p, abi);
      && (q.isActiveKernel <==> c.Candidate? && VersionRunsOf(c.release) == VersionRunsOf(c.running))
      && (q.isOldKernel <==> c.Candidate? && Compare(VersionRunsOf(c.release), VersionRunsOf(c.running)) < 0)
      && !(q.isActiveKernel && q.isOldKernel)
      && q == p.(isActiveKernel := q.isActiveKernel, isOldKernel := q.isOldKernel)
  {
    var c := CandidateOf(manager, kernelRelease, p, abi);
    if c.Candidate? {
      CompareZeroIsEqual(VersionRunsOf(c.release), VersionRunsOf(c.running));
    }
  }

  /** The order of the packages does not matter. */
  lemma RebootIgnoresOrder(manager: string, kernelRelease: string, a: seq<Package>, b: seq<Package>, abi: string -> string)
    requires multiset(a) == multiset(b)
    ensures RebootRequired(manager, kernelRelease, a, abi) <==> RebootRequired(manager, kernelRelease, b, abi)
  {
    RebootCarriesOver(manager, kernelRelease, a, b, abi);
    RebootCarriesOver(manager, kernelRelease, b, a, abi);
  }

  lemma RebootCarriesOver(manager: string, kernelRelease: string, a: seq<Package>, b: seq<Package>, abi: string -> string)
    requires multiset(a) == multiset(b)
    ensures RebootRequired(manager, kernelRelease, a, abi) ==> RebootRequired(manager, kernelRelease, b, abi)
  {
    if RebootRequired(manager, kernelRelease, a, abi) {
      var i :| 0 <= i < |a| && NewerImage(manager, kernelRelease, a[i], abi);
      assert a[i] in multiset(a);
      assert a[i] in multiset(b);
      assert a[i] in b;
    }
  }
}
