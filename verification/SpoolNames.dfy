/** Batch ids, spool file names and the globs that select them (internal/topsrv/shipper/pusher.go). */
module SpoolNames {
  import opened Arith
  import opened Lex
  import opened Listings
  import opened Numbers
  import opened Protocol
  import opened Text

  const SPOOL_SUFFIX := ".ndjson.gz"
  const TMP_SUFFIX := ".ndjson.gz.tmp"

  /** A call of newBatchID: the clock reading and the 64 random bits. */
  datatype Stamp = Stamp(ms: nat, random: nat) {
    ghost predicate Valid() {
      random < Pow16(16)
    }
  }

  /** `width` lower-case hexadecimal digits, most significant first. */
  function Hex(n: nat, width: nat): (s: string) {
    if width == 0 then "" else Hex(n / 16, width - 1) + [Digit(n % 16)]
  }

  function NewBatchId(stamp: Stamp): BatchId {
    DecimalDigits(stamp.ms);
    HexShape(stamp.random, 16);
    Decimal(stamp.ms) + "-" + Hex(stamp.random, 16)
  }

  function SpoolName(id: BatchId): string {
    id + SPOOL_SUFFIX
  }

  function TmpName(id: BatchId): string {
    id + TMP_SUFFIX
  }

  /** Glob results are sorted by file name. */
  predicate NameBefore(a: BatchId, b: BatchId) {
    Less(SpoolName(a), SpoolName(b))
  }

  const BY_NAME: (BatchId, BatchId) -> bool := (a: BatchId, b: BatchId) => NameBefore(a, b)

  const DEFAULT_BATCH_SIZE := 5000
  const DEFAULT_MAX_SPOOL_MB := 200

  /** The options with the delivery defaults of NewPusher; `mint(i)` is met by the i-th newBatchID. */
  function NewConfig(batchSize: int, spoolDir: string, maxSpoolMB: int, mint: nat -> Stamp): Config {
    Config(if batchSize <= 0 then DEFAULT_BATCH_SIZE else batchSize, spoolDir,
           (if maxSpoolMB <= 0 then DEFAULT_MAX_SPOOL_MB else maxSpoolMB) * 1024 * 1024,
           i => NewBatchId(mint(i)), BY_NAME)
  }

  /** The glob of files to replay; a name holds no separator, so `*` matches any stem. */
  predicate MatchesSpoolGlob(name: string) {
    HasSuffix(name, SPOOL_SUFFIX)
  }

  predicate MatchesTmpGlob(name: string) {
    HasSuffix(name, TMP_SUFFIX)
  }

  function Join(dir: string, name: string): string {
    dir + "/" + name
  }

  function LastSlash(path: string): (i: int)
    ensures -1 <= i < |path|
    ensures i >= 0 ==> path[i] == '/'
    ensures forall k :: i < k < |path| ==> path[k] != '/'
  {
    if path == "" then -1
    else if path[|path| - 1] == '/' then |path| - 1
    else LastSlash(path[..|path| - 1])
  }

  function TrimSlashes(path: string): string {
    if path != "" && path[|path| - 1] == '/' then TrimSlashes(path[..|path| - 1]) else path
  }

  /** `filepath.Base`. */
  function Base(path: string): string {
    if path == "" then "."
    else
      var trimmed := TrimSlashes(path);
      if trimmed == "" then "/" else trimmed[LastSlash(trimmed) + 1..]
  }

  function BatchIdFromPath(path: string): string {
    TrimSuffix(Base(path), SPOOL_SUFFIX)
  }

  // ----- naming facts -----

  lemma {:induction false} HexShape(n: nat, width: nat)
    ensures |Hex(n, width)| == width
    ensures forall i :: 0 <= i < width ==> Hex(n, width)[i] != '-' && Hex(n, width)[i] != '/'
  {
    if width > 0 {
      HexShape(n / 16, width - 1);
    }
  }

  function Pow16(width: nat): nat {
    if width == 0 then 1 else 16 * Pow16(width - 1)
  }

  lemma {:induction false} HexInjective(m: nat, n: nat, width: nat)
    requires m < Pow16(width) && n < Pow16(width)
    requires Hex(m, width) == Hex(n, width)
    ensures m == n
  {
    if width > 0 {
      var a, b := Hex(m, width), Hex(n, width);
      HexShape(m / 16, width - 1);
      HexShape(n / 16, width - 1);
      assert a[|a| - 1] == Digit(m % 16) && b[|b| - 1] == Digit(n % 16);
      DigitInjective(m % 16, n % 16);
      assert a[..|a| - 1] == Hex(m / 16, width - 1) && b[..|b| - 1] == Hex(n / 16, width - 1);
      HexInjective(m / 16, n / 16, width - 1);
    }
  }

  /** Two calls that differ in clock or in random bits give different ids. */
  lemma NewBatchIdInjective(a: Stamp, b: Stamp)
    requires a.Valid() && b.Valid()
    requires NewBatchId(a) == NewBatchId(b)
    ensures a == b
  {
    var x, y := Decimal(a.ms), Decimal(b.ms);
    var p, q := Hex(a.random, 16), Hex(b.random, 16);
    DecimalDigits(a.ms);
    DecimalDigits(b.ms);
    HexShape(a.random, 16);
    HexShape(b.random, 16);
    var s := NewBatchId(a);
    assert s == x + "-" + p == y + "-" + q;
    assert |x| == |y|;
    assert x == s[..|x|] == y;
    assert p == s[|x| + 1..] == q;
    DecimalInjective(a.ms, b.ms);
    HexInjective(a.random, b.random, 16);
  }

  lemma {:induction false} TrimSlashesStops(path: string)
    requires path != "" && path[|path| - 1] != '/'
    ensures TrimSlashes(path) == path
  {
  }

  lemma BaseOfJoin(dir: string, name: string)
    requires name != "" && '/' !in name
    ensures Base(Join(dir, name)) == name
  {
    var path := Join(dir, name);
    assert path[|path| - 1] == name[|name| - 1];
    assert name[|name| - 1] in name;
    TrimSlashesStops(path);
    assert path[|dir|] == '/';
    forall k | |dir| < k < |path|
      ensures path[k] != '/'
    {
      assert path[k] == name[k - |dir| - 1];
      assert name[k - |dir| - 1] in name;
    }
    assert path[LastSlash(path) + 1..] == name;
  }

  /** A spool file gives back the id it was written under. */
  lemma BatchIdRoundTrip(dir: string, id: BatchId)
    ensures BatchIdFromPath(Join(dir, SpoolName(id))) == id
  {
    var name := SpoolName(id);
    forall i | 0 <= i < |name|
      ensures name[i] != '/'
    {
      if i < |id| {
        assert name[i] in id;
      }
    }
    BaseOfJoin(dir, name);
    assert name[|name| - |SPOOL_SUFFIX|..] == SPOOL_SUFFIX;
    assert name[..|name| - |SPOOL_SUFFIX|] == id;
  }

  lemma SuffixEndsAlike(s: string, suffix: string)
    requires s != "" && suffix != ""
    ensures HasSuffix(s, suffix) ==> s[|s| - 1] == suffix[|suffix| - 1]
  {
    if HasSuffix(s, suffix) {
      assert s[|s| - |suffix|..][|suffix| - 1] == s[|s| - 1];
    }
  }

  /** Two globs, never the same file; and each name keeps its id. */
  lemma NamesSeparate(a: BatchId, b: BatchId)
    ensures MatchesSpoolGlob(SpoolName(a)) && !MatchesTmpGlob(SpoolName(a))
    ensures MatchesTmpGlob(TmpName(a)) && !MatchesSpoolGlob(TmpName(a))
    ensures SpoolName(a) == SpoolName(b) ==> a == b
    ensures TmpName(a) == TmpName(b) ==> a == b
    ensures SpoolName(a) != TmpName(b)
  {
    var s, t := SpoolName(a), TmpName(a);
    assert s[|s| - |SPOOL_SUFFIX|..] == SPOOL_SUFFIX;
    assert t[|t| - |TMP_SUFFIX|..] == TMP_SUFFIX;
    assert s[|s| - 1] == 'z' && t[|t| - 1] == 'p' && TmpName(b)[|TmpName(b)| - 1] == 'p';
    SuffixEndsAlike(s, TMP_SUFFIX);
    SuffixEndsAlike(t, SPOOL_SUFFIX);
    if SpoolName(a) == SpoolName(b) {
      assert a == s[..|a|] && b == SpoolName(b)[..|b|];
    }
    if TmpName(a) == TmpName(b) {
      assert a == t[..|a|] && b == TmpName(b)[..|b|];
    }
  }

  /** The names in a spool directory. */
  ghost function Directory(spool: set<BatchId>, tmp: set<BatchId>): set<string> {
    (set id | id in spool :: SpoolName(id)) + (set id | id in tmp :: TmpName(id))
  }

  /** The two globs split the directory exactly as the model does, and lead back to the ids. */
  lemma GlobsSplitDirectory(spool: set<BatchId>, tmp: set<BatchId>, dir: string)
    ensures forall name :: name in Directory(spool, tmp) && MatchesSpoolGlob(name) ==>
      BatchIdFromPath(Join(dir, name)) in spool && name == SpoolName(BatchIdFromPath(Join(dir, name)))
    ensures forall id :: id in spool ==>
      SpoolName(id) in Directory(spool, tmp) && MatchesSpoolGlob(SpoolName(id))
    ensures forall name :: name in Directory(spool, tmp) ==>
      (MatchesTmpGlob(name) <==> exists id :: id in tmp && name == TmpName(id))
  {
    forall name | name in Directory(spool, tmp)
      ensures MatchesSpoolGlob(name) ==>
        BatchIdFromPath(Join(dir, name)) in spool && name == SpoolName(BatchIdFromPath(Join(dir, name)))
      ensures MatchesTmpGlob(name) <==> exists id :: id in tmp && name == TmpName(id)
    {
      if id :| id in spool && name == SpoolName(id) {
        BatchIdRoundTrip(dir, id);
        NamesSeparate(id, id);
        forall other | other in tmp
          ensures name != TmpName(other)
        {
          NamesSeparate(id, other);
        }
      } else {
        var id :| id in tmp && name == TmpName(id);
        NamesSeparate(id, id);
      }
    }
    forall id | id in spool
      ensures SpoolName(id) in Directory(spool, tmp) && MatchesSpoolGlob(SpoolName(id))
    {
      NamesSeparate(id, id);
    }
  }

  lemma NameOrderStrict()
    ensures StrictTotal(BY_NAME)
  {
    forall a: BatchId, b: BatchId
      ensures NameBefore(a, b) || a == b || NameBefore(b, a)
      ensures !(NameBefore(a, b) && NameBefore(b, a))
    {
      LessTrichotomy(SpoolName(a), SpoolName(b));
      NamesSeparate(a, b);
    }
    forall a: BatchId, b: BatchId, c: BatchId | NameBefore(a, b) && NameBefore(b, c)
      ensures NameBefore(a, c)
    {
      LessTransitive(SpoolName(a), SpoolName(b), SpoolName(c));
    }
  }

  /**
   * The real ids and the real order are what the protocol assumes: ids differ whenever clock or
   * random bits do, and file names are totally ordered.
   */
  lemma NewConfigValid(batchSize: int, spoolDir: string, maxSpoolMB: int, mint: nat -> Stamp)
    requires forall i :: mint(i).Valid()
    requires forall i, j :: i != j ==> mint(i) != mint(j)
    ensures NewConfig(batchSize, spoolDir, maxSpoolMB, mint).Valid()
    ensures var cfg := NewConfig(batchSize, spoolDir, maxSpoolMB, mint);
      && cfg.batchSize == (if batchSize > 0 then batchSize else 5000) && cfg.spoolDir == spoolDir
      && cfg.budget == (if maxSpoolMB > 0 then maxSpoolMB else 200) * 1048576
  {
    var cfg := NewConfig(batchSize, spoolDir, maxSpoolMB, mint);
    forall i: nat, j: nat | i != j
      ensures cfg.id(i) != cfg.id(j)
    {
      if cfg.id(i) == cfg.id(j) {
        NewBatchIdInjective(mint(i), mint(j));
      }
    }
    NameOrderStrict();
  }

  // ----- the order of replay -----

  lemma DigitOrder(m: nat, n: nat)
    requires m < n < 10
    ensures Compare(Codes([Digit(m)]), Codes([Digit(n)])) < 0
  {
    assert Codes([Digit(m)])[0] < Codes([Digit(n)])[0];
  }

  lemma {:induction false} DecimalOrder(m: nat, n: nat)
    requires m < n && |Decimal(m)| == |Decimal(n)|
    ensures Compare(Codes(Decimal(m)), Codes(Decimal(n))) < 0
  {
    if n < 10 {
      DigitOrder(m, n);
    } else {
      DecimalDigits(n / 10);
      var c, d := Codes([Digit(m % 10)]), Codes([Digit(n % 10)]);
      CodesConcat(Decimal(m / 10), [Digit(m % 10)]);
      CodesConcat(Decimal(n / 10), [Digit(n % 10)]);
      if m / 10 < n / 10 {
        DecimalOrder(m / 10, n / 10);
        ComparePrefixDecides(Codes(Decimal(m / 10)), Codes(Decimal(n / 10)), c, d);
      } else {
        assert m / 10 == n / 10 && m % 10 < n % 10;
        DigitOrder(m % 10, n % 10);
        CompareSkipsPrefix(Codes(Decimal(m / 10)), c, d);
      }
    }
  }

  /** A terminator below every digit: the order of the digits decides. */
  lemma {:induction false} TerminatorKeepsOrder(x: seq<int>, y: seq<int>, end: int, p: seq<int>, q: seq<int>)
    requires x != y
    requires (forall i :: 0 <= i < |x| ==> end < x[i]) && (forall i :: 0 <= i < |y| ==> end < y[i])
    ensures Compare(x + [end] + p, y + [end] + q) == Compare(x, y)
  {
    var a, b := x + [end] + p, y + [end] + q;
    assert a[0] == (if x == [] then end else x[0]) && b[0] == (if y == [] then end else y[0]);
    if x != [] && y != [] && x[0] == y[0] {
      assert x == [x[0]] + x[1..] && y == [y[0]] + y[1..];
      TerminatorKeepsOrder(x[1..], y[1..], end, p, q);
      assert a[1..] == x[1..] + [end] + p && b[1..] == y[1..] + [end] + q;
    }
  }

  lemma NumeralCodes(n: nat)
    ensures forall i :: 0 <= i < |Codes(Decimal(n))| ==> '-' as int < Codes(Decimal(n))[i]
  {
    DecimalDigits(n);
  }

  lemma DashCodes(a: string, b: string)
    ensures Codes(a + ("-" + b)) == Codes(a) + ['-' as int] + Codes(b)
  {
    CodesConcat(a, "-" + b);
    CodesConcat("-", b);
    assert Codes("-") == ['-' as int];
  }

  lemma NameParts(a: Stamp)
    ensures SpoolName(NewBatchId(a)) == Decimal(a.ms) + ("-" + (Hex(a.random, 16) + SPOOL_SUFFIX))
  {
    JoinFour(Decimal(a.ms), "-", Hex(a.random, 16), SPOOL_SUFFIX);
  }

  lemma JoinFour(a: string, b: string, c: string, d: string)
    ensures a + b + c + d == a + (b + (c + d))
  {
  }

  lemma NameCodes(a: Stamp)
    ensures Codes(SpoolName(NewBatchId(a)))
            == Codes(Decimal(a.ms)) + ['-' as int] + Codes(Hex(a.random, 16) + SPOOL_SUFFIX)
  {
    NameParts(a);
    DashCodes(Decimal(a.ms), Hex(a.random, 16) + SPOOL_SUFFIX);
  }

  /** Batches of different milliseconds replay in time order if and only if the numerals sort that way as text. */
  lemma SpoolOrderIsTextual(a: Stamp, b: Stamp)
    requires a.ms != b.ms
    ensures NameBefore(NewBatchId(a), NewBatchId(b)) <==> Less(Decimal(a.ms), Decimal(b.ms))
  {
    NameCodes(a);
    NameCodes(b);
    NumeralCodes(a.ms);
    NumeralCodes(b.ms);
    if Codes(Decimal(a.ms)) == Codes(Decimal(b.ms)) {
      CodesInjective(Decimal(a.ms), Decimal(b.ms));
      DecimalInjective(a.ms, b.ms);
    }
    TerminatorKeepsOrder(Codes(Decimal(a.ms)), Codes(Decimal(b.ms)), '-' as int,
                         Codes(Hex(a.random, 16) + SPOOL_SUFFIX), Codes(Hex(b.random, 16) + SPOOL_SUFFIX));
  }

  /** The number without its last `d` digits. */
  function Leading(n: nat, d: nat): nat {
    if d == 0 then n else Leading(n / 10, d - 1)
  }

  lemma {:induction false} LeadingIsQuotient(n: nat, d: nat)
    ensures Pow10(d) > 0 && Leading(n, d) == n / Pow10(d)
  {
    if d > 0 {
      LeadingIsQuotient(n / 10, d - 1);
      DivTwice(n, Pow10(d - 1));
    }
  }

  lemma {:induction false} LeadingText(n: nat, d: nat)
    requires d < |Decimal(n)|
    ensures Decimal(Leading(n, d)) == Decimal(n)[..|Decimal(n)| - d]
  {
    if d > 0 {
      LeadingText(n / 10, d - 1);
    }
  }

  lemma {:induction false} LongerIsLarger(m: nat, n: nat)
    requires m <= n
    ensures 0 < |Decimal(m)| <= |Decimal(n)|
  {
    if m >= 10 {
      LongerIsLarger(m / 10, n / 10);
    } else if n >= 10 {
      DecimalDigits(n / 10);
    }
  }

  /** Two numerals that share their leading digits: the shorter sorts first. */
  lemma PrefixSortsFirst(s: string, t: string)
    requires s <= t && |s| < |t|
    ensures Less(s, t)
  {
    var tail := t[|s|..];
    assert t == s + tail;
    CodesConcat(s, tail);
    CompareSkipsPrefix(Codes(s), [], Codes(tail));
    assert Codes(s) + [] == Codes(s);
  }

  /** An equally long numeral decides the order of whatever begins with it. */
  lemma LeadingDecides(m: nat, c: nat, t: string)
    requires m != c && |Decimal(m)| == |Decimal(c)| && Decimal(c) <= t
    ensures Less(Decimal(m), t) <==> m < c
  {
    var x, y, tail := Codes(Decimal(m)), Codes(Decimal(c)), t[|Decimal(c)|..];
    assert t == Decimal(c) + tail;
    CodesConcat(Decimal(c), tail);
    assert x + [] == x;
    if m < c {
      DecimalOrder(m, c);
      ComparePrefixDecides(x, y, [], Codes(tail));
    } else {
      DecimalOrder(c, m);
      ComparePrefixDecides(y, x, Codes(tail), []);
      CompareMirrors(x, y + Codes(tail));
    }
  }

  /** The smaller number does not exceed the leading digits of the larger, as many as it has itself. */
  predicate WithinLeading(m: nat, n: nat) {
    |Decimal(m)| <= |Decimal(n)|
    && var p := Pow10(|Decimal(n)| - |Decimal(m)|);
       p > 0 && m <= n / p
  }

  lemma ByLeading(m: nat, n: nat, c: nat)
    requires m < n && |Decimal(m)| <= |Decimal(n)| && Decimal(c) == Decimal(n)[..|Decimal(m)|]
    ensures Less(Decimal(m), Decimal(n)) <==> m <= c
  {
    if m == c {
      if |Decimal(m)| == |Decimal(n)| {
        DecimalInjective(m, n);
      }
      PrefixSortsFirst(Decimal(m), Decimal(n));
    } else {
      LeadingDecides(m, c, Decimal(n));
    }
  }

  lemma NumeralOrder(m: nat, n: nat)
    requires m < n
    ensures Less(Decimal(m), Decimal(n)) <==> WithinLeading(m, n)
  {
    LongerIsLarger(m, n);
    var d := |Decimal(n)| - |Decimal(m)|;
    LeadingIsQuotient(n, d);
    LeadingText(n, d);
    ByLeading(m, n, Leading(n, d));
  }

  /**
   * A later batch replays later if and only if the earlier count does not exceed the leading digits
   * of the later one, as many as the earlier count has.
   */
  lemma SpoolOrderIff(a: Stamp, b: Stamp)
    requires a.ms < b.ms
    ensures NameBefore(NewBatchId(a), NewBatchId(b)) <==> WithinLeading(a.ms, b.ms)
  {
    SpoolOrderIsTextual(a, b);
    NumeralOrder(a.ms, b.ms);
  }

  /**
   * Names sort by time as long as the millisecond counts have equally many digits
   * (thirteen between the years 2001 and 2286).
   */
  lemma SpoolOrderIsChronological(a: Stamp, b: Stamp)
    requires a.ms < b.ms && |Decimal(a.ms)| == |Decimal(b.ms)|
    ensures NameBefore(NewBatchId(a), NewBatchId(b))
  {
    DecimalOrder(a.ms, b.ms);
    SpoolOrderIsTextual(a, b);
  }

  /** Among such names the one that sorts first was minted no later. */
  lemma NamesSortByTime(a: Stamp, b: Stamp)
    requires |Decimal(a.ms)| == |Decimal(b.ms)| && NameBefore(NewBatchId(a), NewBatchId(b))
    ensures a.ms <= b.ms
  {
    if b.ms < a.ms {
      SpoolOrderIsChronological(b, a);
      LessTrichotomy(SpoolName(NewBatchId(a)), SpoolName(NewBatchId(b)));
      assert false;
    }
  }

  /** With a digit more the later file can come first: 9 ms sorts after 10 ms. */
  lemma SpoolOrderBreaksAtWiderCounts(r: nat, q: nat)
    ensures NameBefore(NewBatchId(Stamp(10, r)), NewBatchId(Stamp(9, q)))
  {
    var a, b := SpoolName(NewBatchId(Stamp(10, r))), SpoolName(NewBatchId(Stamp(9, q)));
    assert Decimal(1) == "1" && Decimal(10) == Decimal(1) + "0";
    assert a[0] == '1' && b[0] == '9';
    assert Codes(a)[0] < Codes(b)[0];
  }
}
