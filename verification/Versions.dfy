/** Backup file names and their order (compareVersionedNames in internal/topsrv/updater.go). */
module Versions {
  import opened Lex
  import opened Numbers
  import opened Text

  const BACKUP_PREFIX := "topsrv-"

  function ExtractVersion(name: string): string {
    var (found, after) := CutAfter(name, BACKUP_PREFIX);
    if !found then "" else if HasPrefix(after, "v") then after[1..] else after
  }

  function Values(version: string): (vs: seq<int>)
    ensures |vs| == |Split(version, '.')|
  {
    var parts := Split(version, '.');
    seq(|parts|, i requires 0 <= i < |parts| => Atoi(parts[i]))
  }

  /** 64-bit subtraction, which wraps around. */
  function Wrap(n: int): int {
    if n > MAX_INT then n - 0x1_0000_0000_0000_0000
    else if n < MIN_INT then n + 0x1_0000_0000_0000_0000
    else n
  }

  /** The loop over the segments, from the first on. */
  function CompareValues(a: seq<int>, b: seq<int>): int {
    if a == [] || b == [] then |a| - |b|
    else if a[0] != b[0] then Wrap(a[0] - b[0])
    else CompareValues(a[1..], b[1..])
  }

  function CompareVersionedNames(a: string, b: string): int {
    var va, vb := ExtractVersion(a), ExtractVersion(b);
    if va == "" || vb == "" then CompareStrings(a, b)
    else CompareValues(Values(va), Values(vb))
  }

  /** A name with a version none of whose segments reads as a negative number. */
  ghost predicate Release(name: string) {
    ExtractVersion(name) != ""
    && forall i :: 0 <= i < |Values(ExtractVersion(name))| ==> 0 <= Values(ExtractVersion(name))[i] <= MAX_INT
  }

  function Sign(n: int): int {
    if n < 0 then -1 else if n > 0 then 1 else 0
  }

  /** Without negative segments the subtraction cannot wrap, and the order is lexicographic. */
  lemma {:induction false} CompareValuesIsLex(a: seq<int>, b: seq<int>)
    requires forall i :: 0 <= i < |a| ==> 0 <= a[i] <= MAX_INT
    requires forall i :: 0 <= i < |b| ==> 0 <= b[i] <= MAX_INT
    ensures Sign(CompareValues(a, b)) == Compare(a, b)
  {
    if a != [] && b != [] {
      assert 0 <= a[0] <= MAX_INT && 0 <= b[0] <= MAX_INT;
      CompareValuesIsLex(a[1..], b[1..]);
    }
  }

  /** The difference of the first segments that differ. */
  function FirstGap(a: seq<int>, b: seq<int>): int {
    if a == [] || b == [] then 0 else if a[0] != b[0] then a[0] - b[0] else FirstGap(a[1..], b[1..])
  }

  /** The comparison tells the order of two versions if and only if that difference fits 64 bits. */
  lemma {:induction false} CompareExactIff(a: seq<int>, b: seq<int>)
    requires forall i :: 0 <= i < |a| ==> MIN_INT <= a[i] <= MAX_INT
    requires forall i :: 0 <= i < |b| ==> MIN_INT <= b[i] <= MAX_INT
    ensures Sign(CompareValues(a, b)) == Compare(a, b) <==> MIN_INT <= FirstGap(a, b) <= MAX_INT
  {
    if a != [] && b != [] {
      assert MIN_INT <= a[0] <= MAX_INT && MIN_INT <= b[0] <= MAX_INT;
      if a[0] == b[0] {
        CompareExactIff(a[1..], b[1..]);
      }
    }
  }

  /** On releases the comparison is a total preorder; equal names compare equal. */
  lemma ReleasesPreordered(a: string, b: string, c: string)
    requires Release(a) && Release(b) && Release(c)
    ensures CompareVersionedNames(a, a) == 0
    ensures Sign(CompareVersionedNames(a, b)) == -Sign(CompareVersionedNames(b, a))
    ensures CompareVersionedNames(a, b) <= 0 && CompareVersionedNames(b, c) <= 0 ==> CompareVersionedNames(a, c) <= 0
    ensures CompareVersionedNames(a, b) < 0 && CompareVersionedNames(b, c) <= 0 ==> CompareVersionedNames(a, c) < 0
  {
    var x, y, z := Values(ExtractVersion(a)), Values(ExtractVersion(b)), Values(ExtractVersion(c));
    CompareValuesIsLex(x, x);
    CompareValuesIsLex(x, y);
    CompareValuesIsLex(y, x);
    CompareValuesIsLex(y, z);
    CompareValuesIsLex(x, z);
    CompareZeroIsEqual(x, x);
    CompareMirrors(x, y);
    if Compare(x, y) <= 0 && Compare(y, z) <= 0 {
      CompareTransitive(x, y, z);
    }
  }

  /** Numeric segments decide, not text: 9 is below 10. */
  lemma NumericSegments(a: string, b: string, i: nat)
    requires Release(a) && Release(b)
    requires var x, y := Values(ExtractVersion(a)), Values(ExtractVersion(b));
      i < |x| && i < |y| && x[..i] == y[..i] && x[i] < y[i]
    ensures CompareVersionedNames(a, b) < 0
  {
    var x, y := Values(ExtractVersion(a)), Values(ExtractVersion(b));
    CompareValuesIsLex(x, y);
    FirstDifferenceDecides(x, y, i);
  }

  lemma FirstDifferenceDecides(x: seq<int>, y: seq<int>, i: nat)
    requires i < |x| && i < |y| && x[..i] == y[..i] && x[i] < y[i]
    ensures Compare(x, y) < 0
  {
    assert x == x[..i] + x[i..] && y == x[..i] + y[i..];
    CompareSkipsPrefix(x[..i], x[i..], y[i..]);
  }

  /**
   * A negative segment breaks the order: the difference wraps, and each of the two names compares
   * below the other.
   */
  lemma NegativeSegmentsWrap(a: string, b: string)
    requires ExtractVersion(a) != "" && ExtractVersion(b) != ""
    requires Values(ExtractVersion(a))[0] == MAX_INT && Values(ExtractVersion(b))[0] == -1
    ensures CompareVersionedNames(a, b) < 0 && CompareVersionedNames(b, a) < 0
  {
  }

  lemma NoDots(version: string)
    requires '.' !in version
    ensures Split(version, '.') == [version]
    decreases version
  {
    if version != "" {
      assert forall c :: c in version[1..] ==> c in version;
      NoDots(version[1..]);
      assert version[0] in version;
      assert [version[0]] + version[1..] == version;
    }
  }

  /** The version in a backup's name is the one it was written under, without a leading `v`. */
  lemma ExtractAfterPrefix(version: string)
    ensures ExtractVersion(BACKUP_PREFIX + version)
            == if version != "" && version[0] == 'v' then version[1..] else version
  {
    var name := BACKUP_PREFIX + version;
    assert name[..|BACKUP_PREFIX|] == BACKUP_PREFIX && name[|BACKUP_PREFIX|..] == version;
    if version != "" {
      assert version[..1] == [version[0]] && "v" == ['v'];
    }
  }

  /** A name without a version compares as text, with any other. */
  lemma UnversionedByText(a: string, b: string)
    requires ExtractVersion(a) == "" || ExtractVersion(b) == ""
    ensures CompareVersionedNames(a, b) == 0 <==> a == b
    ensures CompareVersionedNames(a, b) < 0 <==> Less(a, b)
  {
    LessTrichotomy(a, b);
    CompareZeroIsEqual(Codes(a), Codes(b));
    if Codes(a) == Codes(b) {
      CodesInjective(a, b);
    }
  }

  /** Numbers joined by dots. */
  function Dotted(ns: seq<nat>): string {
    if ns == [] then ""
    else if |ns| == 1 then Decimal(ns[0])
    else Decimal(ns[0]) + "." + Dotted(ns[1..])
  }

  lemma {:induction false} SplitFirst(a: string, rest: string)
    requires '.' !in a
    ensures Split(a + "." + rest, '.') == [a] + Split(rest, '.')
    decreases |a|
  {
    var s := a + "." + rest;
    if a == "" {
      assert s[0] == '.' && s[1..] == rest;
    } else {
      assert s[0] == a[0] && a[0] in a && s[1..] == a[1..] + "." + rest;
      SplitFirst(a[1..], rest);
      assert [a[0]] + a[1..] == a;
    }
  }

  lemma {:induction false} DottedSplits(ns: seq<nat>)
    requires ns != []
    ensures |Split(Dotted(ns), '.')| == |ns|
    ensures forall i :: 0 <= i < |ns| ==> Split(Dotted(ns), '.')[i] == Decimal(ns[i])
  {
    DecimalDigits(ns[0]);
    if |ns| == 1 {
      NoDots(Decimal(ns[0]));
    } else {
      SplitFirst(Decimal(ns[0]), Dotted(ns[1..]));
      DottedSplits(ns[1..]);
    }
  }

  lemma DottedValues(ns: seq<nat>)
    requires ns != [] && forall i :: 0 <= i < |ns| ==> ns[i] <= MAX_INT
    ensures Values(Dotted(ns)) == ns
  {
    DottedSplits(ns);
    forall i | 0 <= i < |ns|
      ensures Values(Dotted(ns))[i] == ns[i]
    {
      DecimalReadsBack(ns[i]);
    }
  }

  lemma BackupOfDotted(ns: seq<nat>)
    requires ns != [] && forall i :: 0 <= i < |ns| ==> ns[i] <= MAX_INT
    ensures ExtractVersion(BACKUP_PREFIX + Dotted(ns)) == Dotted(ns) != ""
    ensures Release(BACKUP_PREFIX + Dotted(ns))
  {
    DecimalDigits(ns[0]);
    assert Dotted(ns)[0] == Decimal(ns[0])[0];
    ExtractAfterPrefix(Dotted(ns));
    DottedValues(ns);
  }

  /** Backups of versions made of numbers sort as the numbers do: 0.0.12 before 0.0.19, and that before 0.1. */
  lemma DottedSortNumerically(x: seq<nat>, y: seq<nat>)
    requires x != [] && forall i :: 0 <= i < |x| ==> x[i] <= MAX_INT
    requires y != [] && forall i :: 0 <= i < |y| ==> y[i] <= MAX_INT
    ensures Sign(CompareVersionedNames(BACKUP_PREFIX + Dotted(x), BACKUP_PREFIX + Dotted(y))) == Compare(x, y)
  {
    BackupOfDotted(x);
    BackupOfDotted(y);
    DottedValues(x);
    DottedValues(y);
    CompareValuesIsLex(x, y);
  }

  /** Names that show it: a version that is one over-long number, and the version -1. */
  lemma NegativeSegmentExample(long: string)
    requires Digits(long) && |long| > 20 && long[0] != '0'
    ensures CompareVersionedNames("topsrv-" + long, "topsrv-" + "-1") < 0
    ensures CompareVersionedNames("topsrv-" + "-1", "topsrv-" + long) < 0
  {
    NoDots(long);
    NoDots("-1");
    ExtractAfterPrefix(long);
    ExtractAfterPrefix("-1");
    LongNumberSaturates(long);
    MinusOne();
    NegativeSegmentsWrap("topsrv-" + long, "topsrv-" + "-1");
  }
}
