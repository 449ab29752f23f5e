/** Which kernel package is active, old or newer, read off its own fields and the running release. */
module KernelFields {
  import opened Kernel
  import opened Lex
  import opened Numbers
  import opened Text

  // ----- characters -----

  /** A text of ASCII letters is one letter run. */
  lemma LettersAreOneRun(s: string)
    requires s != "" && forall i :: 0 <= i < |s| ==> 'a' <= s[i] <= 'z' || 'A' <= s[i] <= 'Z'
    ensures VersionRunsOf(s) == [-1]
  {
    assert ClassOf(s[0]) == Letter;
    SingleRun(s);
  }

  /** What is neither an ASCII letter nor a digit only separates. */
  lemma {:induction false} SeparatorsAreNoRun(s: string)
    requires forall i :: 0 <= i < |s| ==>
      !('a' <= s[i] <= 'z') && !('A' <= s[i] <= 'Z') && !('0' <= s[i] <= '9')
    ensures VersionRunsOf(s) == []
    decreases s
  {
    if s != "" {
      SeparatorsAreNoRun(s[1..]);
    }
  }

  /** A number is one run, with its own value or the largest one. */
  lemma NumbersAreOneRun(n: nat)
    ensures VersionRunsOf(Decimal(n)) == [if n <= MAX_INT then n else MAX_INT]
  {
    DecimalDigits(n);
    DecimalScans(n);
    assert ClassOf(Decimal(n)[0]) == Class.Digit;
    SingleRun(Decimal(n));
  }

  /** A number and the letters right behind it are two runs. */
  lemma NumberThenLetters(n: nat, letters: string)
    requires n <= MAX_INT
    requires letters != "" && forall i :: 0 <= i < |letters| ==> 'a' <= letters[i] <= 'z'
    ensures VersionRunsOf(Decimal(n) + letters) == [n as int, -1]
    ensures VersionRunsOf(letters + Decimal(n)) == [-1, n as int]
  {
    DecimalDigits(n);
    DecimalScans(n);
    LettersAreOneRun(letters);
    NumbersAreOneRun(n);
    LeadingRun(Decimal(n), letters);
    LeadingRun(letters, Decimal(n));
  }

  /** Behind a common part a letter run comes before any number. */
  lemma LettersBelowNumber(head: string, letters: string, a: string, n: nat, b: string)
    requires letters != "" && forall i :: 0 <= i < |letters| ==> 'a' <= letters[i] <= 'z'
    requires a == "" || !('a' <= a[0] <= 'z' || 'A' <= a[0] <= 'Z')
    requires b == "" || !('0' <= b[0] <= '9')
    ensures CompareKernel(head + ['.'] + (letters + a), head + ['.'] + (Decimal(n) + b)) == Old
  {
    DecimalDigits(n);
    DecimalScans(n);
    LettersAreOneRun(letters);
    VersionRunsDistribute(head, '.', letters + a);
    VersionRunsDistribute(head, '.', Decimal(n) + b);
    LeadingRun(letters, a);
    LeadingRun(Decimal(n), b);
    Regroup(VersionRunsOf(head), RunValue(letters), VersionRunsOf(a));
    Regroup(VersionRunsOf(head), RunValue(Decimal(n)), VersionRunsOf(b));
    FirstRunDecides(VersionRunsOf(head), RunValue(letters), RunValue(Decimal(n)), VersionRunsOf(a), VersionRunsOf(b));
  }

  /** So the first kernel of EL 8.10 is older than its update. */
  lemma GeneralAvailabilityIsOlder()
    ensures CompareKernel("4.18.0-553.el8_10", "4.18.0-553.5.1.el8_10") == Old
  {
    Spelled();
    LettersBelowNumber("4.18.0-553", "el", "8_10", 5, ".1.el8_10");
  }

  lemma Spelled()
    ensures "4.18.0-553" + ['.'] + ("el" + "8_10") == "4.18.0-553.el8_10"
    ensures "4.18.0-553" + ['.'] + (Decimal(5) + ".1.el8_10") == "4.18.0-553.5.1.el8_10"
  {
  }

  // ----- what becomes of one package -----

  /** Flags are added by comparing the runs of `release` with those of `base`; nothing else changes. */
  ghost predicate FlaggedBy(p: Package, q: Package, release: string, base: string) {
    var c := Compare(VersionRunsOf(release), VersionRunsOf(base));
    q == p.(isActiveKernel := p.isActiveKernel || c == 0, isOldKernel := p.isOldKernel || c < 0)
  }

  /** The runs of `release` come after those of `base`. */
  ghost predicate Above(release: string, base: string) {
    Compare(VersionRunsOf(release), VersionRunsOf(base)) > 0
  }

  /**
   * dpkg: with the ABI of the running release known, a linux- package with an ABI in its name is compared
   * by that; a newer linux-image- package asks for a reboot.
   */
  lemma DpkgByName(kernelRelease: string, pkgs: seq<Package>, abi: string -> string)
    requires kernelRelease != "" && abi(kernelRelease) != ""
    ensures var marked := MarkedAll("dpkg", kernelRelease, pkgs, abi);
      && (forall i :: 0 <= i < |pkgs| ==>
            if "linux-" <= pkgs[i].name && abi(pkgs[i].name) != ""
            then FlaggedBy(pkgs[i], marked[i], abi(pkgs[i].name), abi(kernelRelease))
            else marked[i] == pkgs[i])
      && (RebootRequired("dpkg", kernelRelease, pkgs, abi)
          <==> exists i :: 0 <= i < |pkgs| && "linux-image-" <= pkgs[i].name && abi(pkgs[i].name) != ""
                           && Above(abi(pkgs[i].name), abi(kernelRelease)))
  {
    forall p: Package
      ensures "linux-image-" <= p.name ==> "linux-" <= p.name
    {
      assert "linux-" <= "linux-image-";
    }
    forall i | 0 <= i < |pkgs|
      ensures NewerImage("dpkg", kernelRelease, pkgs[i], abi)
              <==> "linux-image-" <= pkgs[i].name && abi(pkgs[i].name) != ""
                   && Above(abi(pkgs[i].name), abi(kernelRelease))
    {
    }
  }

  /** The packages of which every installed kernel has its own copy. */
  const RPM_IMAGES := {"kernel", "kernel-core", "kernel-uek", "kernel-uek-core"}
  const RPM_OTHERS := {"kernel-modules", "kernel-modules-core", "kernel-modules-extra", "kernel-uek-modules",
    "kernel-uek-modules-extra", "kernel-devel", "kernel-uek-devel"}

  lemma RpmNames(name: string)
    ensures name in RPM_KERNEL_PACKAGES <==> name in RPM_IMAGES || name in RPM_OTHERS
    ensures name in RPM_KERNEL_PACKAGES ==> (RPM_KERNEL_PACKAGES[name] <==> name in RPM_IMAGES)
  {
  }

  /** rpm: version-release is compared with the running release, less the architecture of the package. */
  lemma RpmByRelease(base: string, arch: string, pkgs: seq<Package>, abi: string -> string)
    requires forall i :: 0 <= i < |pkgs| ==> pkgs[i].arch == arch
    ensures var running := base + ("." + arch);
      var marked := MarkedAll("rpm", running, pkgs, abi);
      && (forall i :: 0 <= i < |pkgs| ==>
            if pkgs[i].name in RPM_IMAGES || pkgs[i].name in RPM_OTHERS
            then FlaggedBy(pkgs[i], marked[i], pkgs[i].version + "-" + pkgs[i].release, base)
            else marked[i] == pkgs[i])
      && (RebootRequired("rpm", running, pkgs, abi)
          <==> exists i :: 0 <= i < |pkgs| && pkgs[i].name in RPM_IMAGES
                           && Above(pkgs[i].version + "-" + pkgs[i].release, base))
  {
    TrimSuffixUndoes(base, "." + arch);
    assert base + ("." + arch) != "";
    forall i | 0 <= i < |pkgs|
      ensures NewerImage("rpm", base + ("." + arch), pkgs[i], abi)
              <==> pkgs[i].name in RPM_IMAGES && Above(pkgs[i].version + "-" + pkgs[i].release, base)
    {
      RpmNames(pkgs[i].name);
    }
    forall i | 0 <= i < |pkgs|
      ensures pkgs[i].name in RPM_KERNEL_PACKAGES <==> pkgs[i].name in RPM_IMAGES || pkgs[i].name in RPM_OTHERS
    {
      RpmNames(pkgs[i].name);
    }
  }

  /** apk: version and package release are compared with the running release, less its flavour. */
  lemma ApkByFlavour(base: string, flavour: string, versions: seq<(string, string)>, pkgs: seq<Package>,
                     abi: string -> string)
    requires '-' !in flavour && |versions| == |pkgs|
    requires forall i :: 0 <= i < |pkgs| ==>
      '-' !in versions[i].0 && pkgs[i].version == versions[i].0 + "-r" + versions[i].1
    ensures var running := base + ['-'] + flavour;
      var marked := MarkedAll("apk", running, pkgs, abi);
      && (forall i :: 0 <= i < |pkgs| ==>
            if pkgs[i].name == "linux-" + flavour
            then FlaggedBy(pkgs[i], marked[i], versions[i].0 + "-" + versions[i].1, base)
            else marked[i] == pkgs[i])
      && (RebootRequired("apk", running, pkgs, abi)
          <==> exists i :: 0 <= i < |pkgs| && pkgs[i].name == "linux-" + flavour
                           && Above(versions[i].0 + "-" + versions[i].1, base))
  {
    var running := base + ['-'] + flavour;
    LastIndexOfIs(base, '-', flavour);
    assert running[|base| + 1..] == flavour && running[..|base|] == base;
    forall i | 0 <= i < |pkgs|
      ensures ReplaceFirst(pkgs[i].version, "-r", "-") == versions[i].0 + "-" + versions[i].1
      ensures NewerImage("apk", running, pkgs[i], abi)
              <==> pkgs[i].name == "linux-" + flavour && Above(versions[i].0 + "-" + versions[i].1, base)
    {
      ReplaceFirstFound(versions[i].0, versions[i].1);
    }
  }

  /** Another manager, or no running release at all: nothing is marked and no reboot is asked for. */
  lemma UnknownMarksNothing(manager: string, kernelRelease: string, pkgs: seq<Package>, abi: string -> string)
    requires kernelRelease == "" || (manager != "dpkg" && manager != "rpm" && manager != "apk")
             || (manager == "dpkg" && abi(kernelRelease) == "") || (manager == "apk" && '-' !in kernelRelease)
    ensures MarkedAll(manager, kernelRelease, pkgs, abi) == pkgs
    ensures !RebootRequired(manager, kernelRelease, pkgs, abi)
  {
    if manager == "apk" && '-' !in kernelRelease {
      NoLastIndex(kernelRelease, '-');
    }
  }

  lemma NoLastIndex(s: string, c: char)
    requires c !in s
    ensures LastIndexOf(s, c) == -1
  {
  }
}
