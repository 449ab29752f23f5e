/** Which label a request path gets, byte by byte. */
module LabelForms {
  import opened Paths
  import opened Utf8

  // ----- rejected paths -----

  /** Too long, not UTF-8, a control byte, or an escaped byte as nginx writes it: backslash and `x`. */
  ghost predicate Unreadable(path: seq<Byte>) {
    || |path| > 1024 || !Valid(path)
    || (exists i :: 0 <= i < |path| && path[i] < 32)
    || (exists i :: 0 <= i < |path| - 1 && Escaped(path[i], path[i + 1]))
  }

  predicate Escaped(b: Byte, c: Byte) {
    b == 92 && c == 120
  }

  lemma RejectedIfUnreadable(path: seq<Byte>)
    ensures Rejected(path) <==> Unreadable(path)
  {
    if i :| 0 <= i < |path| && Garbage(path, i) {
      assert path[i] < 32 || Escaped(path[i], path[i + 1]);
    }
    if i :| 0 <= i < |path| && path[i] < 32 {
      assert Garbage(path, i);
    }
    if i :| 0 <= i < |path| - 1 && Escaped(path[i], path[i + 1]) {
      assert Garbage(path, i);
    }
  }

  lemma MarkersSpelled()
    ensures INVALID == [0x2F, 0x3A, 0x69, 0x6E, 0x76, 0x61, 0x6C, 0x69, 0x64]
    ensures BOT_SCANNERS == [0x2F, 0x3A, 0x62, 0x6F, 0x74, 0x2D, 0x73, 0x63, 0x61, 0x6E, 0x6E, 0x65, 0x72, 0x73]
    ensures REST == [0x2F, 0x3A, 0x72, 0x65, 0x73, 0x74]
  {
  }

  // ----- scanner probes -----

  /** A dot and three letters that scanners ask for. */
  predicate Probe(suffix: seq<Byte>) {
    suffix in {
      [0x2E, 0x65, 0x6E, 0x76], [0x2E, 0x67, 0x69, 0x74], [0x2E, 0x61, 0x77, 0x73], [0x2E, 0x73, 0x73, 0x68],
      [0x2E, 0x73, 0x76, 0x6E], [0x2E, 0x62, 0x61, 0x6B], [0x2E, 0x73, 0x71, 0x6C]}
  }

  ghost predicate Holds(path: seq<Byte>, part: seq<Byte>) {
    exists a: seq<Byte>, b: seq<Byte> :: Parts(path, a, part, b)
  }

  predicate Parts(path: seq<Byte>, a: seq<Byte>, part: seq<Byte>, b: seq<Byte>) {
    path == a + part + b
  }

  lemma HoldsIfContains(path: seq<Byte>, part: seq<Byte>)
    ensures Contains(path, part) <==> Holds(path, part)
  {
    if i :| 0 <= i <= |path| - |part| && OccursAt(path, part, i) {
      assert path == path[..i] + part + path[i + |part|..];
      assert Parts(path, path[..i], part, path[i + |part|..]);
    }
    if a: seq<Byte>, b: seq<Byte> :| Parts(path, a, part, b) {
      assert OccursAt(path, part, |a|);
    }
  }

  lemma SuffixesAreProbes()
    ensures forall k :: 0 <= k < |SCANNER_SUFFIXES| ==> Probe(SCANNER_SUFFIXES[k])
    ensures forall s :: Probe(s) ==> s in SCANNER_SUFFIXES
  {
    assert Ascii(".env") == [0x2E, 0x65, 0x6E, 0x76] && Ascii(".git") == [0x2E, 0x67, 0x69, 0x74];
    assert Ascii(".aws") == [0x2E, 0x61, 0x77, 0x73] && Ascii(".ssh") == [0x2E, 0x73, 0x73, 0x68];
    assert Ascii(".svn") == [0x2E, 0x73, 0x76, 0x6E] && Ascii(".bak") == [0x2E, 0x62, 0x61, 0x6B];
    assert Ascii(".sql") == [0x2E, 0x73, 0x71, 0x6C];
  }

  ghost predicate Upper(path: seq<Byte>) {
    exists i :: 0 <= i < |path| && 65 <= path[i] <= 90
  }

  ghost predicate Probed(path: seq<Byte>, stages: Stages) {
    exists s :: Probe(s) && Holds(if Upper(path) then stages.lower(path) else path, s)
  }

  lemma ScannerIfProbed(path: seq<Byte>, stages: Stages)
    ensures HasUpper(path) <==> Upper(path)
    ensures Scanner(path, stages) <==> Probed(path, stages)
  {
    if i :| 0 <= i < |path| && 65 <= path[i] <= 90 {
      assert IsUpper(path[i]);
    }
    SuffixesAreProbes();
    var haystack := if HasUpper(path) then stages.lower(path) else path;
    forall s | Probe(s)
      ensures Contains(haystack, s) <==> Holds(haystack, s)
    {
      HoldsIfContains(haystack, s);
    }
    if k :| 0 <= k < |SCANNER_SUFFIXES| && Contains(haystack, SCANNER_SUFFIXES[k]) {
      assert Probe(SCANNER_SUFFIXES[k]);
    }
    if s :| Probe(s) && Holds(haystack, s) {
      var k :| 0 <= k < |SCANNER_SUFFIXES| && SCANNER_SUFFIXES[k] == s;
    }
  }

  // ----- depth -----

  predicate NoSlash(s: seq<Byte>) {
    forall i :: 0 <= i < |s| ==> s[i] != 0x2F
  }

  predicate OnlySlashes(s: seq<Byte>) {
    forall i :: 0 <= i < |s| ==> s[i] == 0x2F
  }

  lemma {:induction false} SeparatorsWithin(s: seq<Byte>, i: nat, n: nat)
    requires 1 <= i <= n <= |s| && NoSlash(s[i..n])
    ensures Separators(s, n) == Separators(s, i)
    decreases n
  {
    if i < n {
      assert s[n - 1] == s[i..n][n - 1 - i];
      assert s[i..n][..n - 1 - i] == s[i..n - 1];
      SeparatorsWithin(s, i, n - 1);
    }
  }

  /** Two segments behind the first byte, with one slash between them, that end at `q`. */
  ghost predicate TwoSegments(s: seq<Byte>, p: nat, q: nat) {
    1 <= p < q <= |s| && NoSlash(s[1..p]) && s[p] == SLASH && NoSlash(s[p + 1..q])
  }

  lemma OneSeparator(s: seq<Byte>, p: nat, q: nat)
    requires TwoSegments(s, p, q)
    ensures Separators(s, q) == 1
  {
    SeparatorsWithin(s, 1, p);
    assert Separators(s, p + 1) == 1;
    SeparatorsWithin(s, p + 1, q);
  }

  lemma SamePrefixSegments(s: seq<Byte>, t: seq<Byte>, p: nat, q: nat)
    requires TwoSegments(s, p, q) && q <= |t| && t[..q] == s[..q]
    ensures TwoSegments(t, p, q)
  {
    forall i | 0 <= i < q
      ensures t[i] == s[i]
    {
      assert t[..q][i] == s[..q][i];
    }
    assert t[1..p] == s[1..p];
    assert t[p + 1..q] == s[p + 1..q];
  }

  lemma {:induction false} KeepsItsEnd(s: seq<Byte>, k: nat)
    requires k < |s| && s[k] != SLASH
    ensures k < |TrimSlashes(s)|
  {
  }

  /** A path of more than two segments keeps its first two. */
  lemma DeepPathIsCut(path: seq<Byte>, p: nat, q: nat, k: nat, r: seq<Byte>)
    requires TwoSegments(path, p, q) && q < k < |path| && path[q] == SLASH && path[k] != SLASH
    requires TruncatesTo(path, MAX_PATH_DEPTH, r)
    ensures r == path[..q] + REST
  {
    var trimmed := TrimSlashes(path);
    KeepsItsEnd(path, k);
    assert trimmed[..q] == path[..q] && trimmed[q] == path[q];
    SamePrefixSegments(path, trimmed, p, q);
    OneSeparator(trimmed, p, q);
    assert CutsAt(trimmed, MAX_PATH_DEPTH, q);
    TruncationIsUnique(path, MAX_PATH_DEPTH, r, trimmed[..q] + REST);
  }

  lemma {:induction false} SlashesGo(s: seq<Byte>, q: nat)
    requires q <= |s| && OnlySlashes(s[q..])
    ensures |TrimSlashes(s)| <= q
    decreases |s|
  {
    if q < |s| {
      var init := s[..|s| - 1];
      assert s[|s| - 1] == s[q..][|s| - 1 - q];
      assert init[q..] == s[q..][..|s| - 1 - q];
      SlashesGo(init, q);
    }
  }

  /** A path of at most two segments stays as it is, slashes behind it included. */
  lemma ShallowPathStays(path: seq<Byte>, p: nat, q: nat, r: seq<Byte>)
    requires TwoSegments(path, p, q) && OnlySlashes(path[q..])
    requires TruncatesTo(path, MAX_PATH_DEPTH, r)
    ensures r == path
  {
    var trimmed := TrimSlashes(path);
    SlashesGo(path, q);
    OneSeparator(path, p, q);
    SeparatorsOfPrefix(trimmed, path, |trimmed|);
    SeparatorsGrow(path, |trimmed|, q);
    TooShallow(trimmed, MAX_PATH_DEPTH);
  }

  /** And so does one of a single segment. */
  lemma OneSegmentStays(path: seq<Byte>, q: nat, r: seq<Byte>)
    requires 1 <= q <= |path| && NoSlash(path[1..q]) && OnlySlashes(path[q..])
    requires TruncatesTo(path, MAX_PATH_DEPTH, r)
    ensures r == path
  {
    var trimmed := TrimSlashes(path);
    SlashesGo(path, q);
    SeparatorsWithin(path, 1, q);
    SeparatorsOfPrefix(trimmed, path, |trimmed|);
    SeparatorsGrow(path, |trimmed|, q);
    TooShallow(trimmed, MAX_PATH_DEPTH);
  }

  // ----- the label -----

  /**
   * The label of a path: the marker for what cannot be read, the marker for probes, or the rewritten
   * path, cut behind its second segment and, above 240 bytes, at a rune so that the marker for the rest
   * still fits.
   */
  lemma LabelByBytes(path: seq<Byte>, stages: Stages, r: seq<Byte>) returns (out: seq<Byte>)
    requires NormalizesTo(path, stages, r)
    ensures Unreadable(path) ==> r == INVALID
    ensures !Unreadable(path) && Probed(path, stages) ==> r == BOT_SCANNERS
    ensures !Unreadable(path) && !Probed(path, stages) ==>
      && TruncatesTo(stages.rewrite(path, Upper(path)), MAX_PATH_DEPTH, out)
      && (|out| <= 240 ==> r == out)
      && (|out| > 240 && Valid(out) ==>
            |r| >= 6 && r[|r| - 6..] == REST && r[..|r| - 6] <= out && 237 <= |r| <= 240 && Valid(r[..|r| - 6]))
  {
    RejectedIfUnreadable(path);
    ScannerIfProbed(path, stages);
    out := [];
    if !Rejected(path) && !Scanner(path, stages) {
      out :| TruncatesTo(stages.rewrite(path, HasUpper(path)), MAX_PATH_DEPTH, out) && r == Capped(out);
      if |out| > 240 && Valid(out) {
        RestShape();
        TruncatedIsLongest(out, 234);
        CappedIsSafe(out);
      }
    }
  }
}
