/** The label form of a request path (internal/topsrv/nginx/log.go), on bytes. */
module Paths {
  import opened Utf8

  const MAX_PATH_DEPTH := 2
  const MAX_NORMALIZED_BYTES := 240
  const MAX_RAW_BYTES := 1024

  const SLASH: Byte := 0x2F
  const BACKSLASH: Byte := 0x5C

  function Ascii(s: string): (r: seq<Byte>)
    ensures |r| == |s| && forall i :: 0 <= i < |r| ==> r[i] < 0x80
  {
    seq(|s|, i requires 0 <= i < |s| => if s[i] < '\U{80}' then s[i] as Byte else 0x3F)
  }

  const REST := Ascii("/:rest")
  const INVALID := Ascii("/:invalid")
  const BOT_SCANNERS := Ascii("/:bot-scanners")

  const SCANNER_SUFFIXES: seq<seq<Byte>> :=
    [Ascii(".env"), Ascii(".git"), Ascii(".aws"), Ascii(".ssh"), Ascii(".svn"), Ascii(".bak"), Ascii(".sql")]

  /** The library stages: `strings.ToLower`, and the regular expressions, told whether there is an upper-case letter. */
  datatype Stages = Stages(lower: seq<Byte> -> seq<Byte>, rewrite: (seq<Byte>, bool) -> seq<Byte>)

  ghost predicate KeepsUtf8(stages: Stages) {
    forall path, upper :: Valid(path) ==> Valid(stages.rewrite(path, upper))
  }

  lemma {:induction false} AsciiValid(s: seq<Byte>)
    requires forall i :: 0 <= i < |s| ==> s[i] < 0x80
    ensures Valid(s)
  {
    if s != [] {
      AsciiValid(s[1..]);
    }
  }

  // ----- depth -----

  function TrimSlashes(s: seq<Byte>): (r: seq<Byte>)
    ensures r <= s && (r != [] ==> r[|r| - 1] != SLASH)
    ensures forall i :: |r| <= i < |s| ==> s[i] == SLASH
  {
    if s != [] && s[|s| - 1] == SLASH then TrimSlashes(s[..|s| - 1]) else s
  }

  /** The slashes of `s` after its first byte, up to position `n`. */
  function Separators(s: seq<Byte>, n: nat): nat
    requires n <= |s|
  {
    if n <= 1 then 0 else Separators(s, n - 1) + if s[n - 1] == SLASH then 1 else 0
  }

  function AtLeastOne(n: int): nat {
    if n < 1 then 1 else n
  }

  /** Where the separator number `max(1, depth)` stands. */
  ghost predicate CutsAt(s: seq<Byte>, depth: int, i: nat) {
    1 <= i < |s| && s[i] == SLASH && Separators(s, i + 1) == AtLeastOne(depth)
  }

  lemma {:induction false} SeparatorsGrow(s: seq<Byte>, i: nat, j: nat)
    requires i <= j <= |s|
    ensures Separators(s, i) <= Separators(s, j)
  {
    if i < j {
      SeparatorsGrow(s, i, j - 1);
    }
  }

  lemma CutIsUnique(s: seq<Byte>, depth: int, i: nat, j: nat)
    requires CutsAt(s, depth, i) && CutsAt(s, depth, j)
    ensures i == j
  {
    if i < j {
      SeparatorsGrow(s, i + 1, j);
    } else if j < i {
      SeparatorsGrow(s, j + 1, i);
    }
  }

  lemma TooShallow(s: seq<Byte>, depth: int)
    requires Separators(s, |s|) < AtLeastOne(depth)
    ensures forall i: nat :: !CutsAt(s, depth, i)
  {
    forall i: nat
      ensures !CutsAt(s, depth, i)
    {
      if 1 <= i < |s| {
        SeparatorsGrow(s, i + 1, |s|);
      }
    }
  }

  /** The path is cut in front of that separator, when there is one before the trailing slashes. */
  ghost predicate TruncatesTo(path: seq<Byte>, depth: int, r: seq<Byte>) {
    var trimmed := TrimSlashes(path);
    (Separators(trimmed, |trimmed|) < AtLeastOne(depth) && r == path)
    || exists i: nat :: CutsAt(trimmed, depth, i) && r == trimmed[..i] + REST
  }

  method TruncatePath(path: seq<Byte>, maxDepth: int) returns (r: seq<Byte>)
    ensures TruncatesTo(path, maxDepth, r)
  {
    var trimmed := TrimSlashes(path);
    var depth, i := 0, 1;
    while i < |trimmed|
      invariant 1 <= i && (i <= |trimmed| || trimmed == [])
      invariant depth == if i <= |trimmed| then Separators(trimmed, i) else 0
      invariant depth < AtLeastOne(maxDepth)
    {
      if trimmed[i] == SLASH {
        depth := depth + 1;
        if depth >= maxDepth {
          assert CutsAt(trimmed, maxDepth, i);
          return trimmed[..i] + REST;
        }
      }
      i := i + 1;
    }
    r := path;
  }

  /** The specification admits one result only. */
  lemma TruncationIsUnique(path: seq<Byte>, depth: int, r: seq<Byte>, q: seq<Byte>)
    requires TruncatesTo(path, depth, r) && TruncatesTo(path, depth, q)
    ensures r == q
  {
    var trimmed := TrimSlashes(path);
    if Separators(trimmed, |trimmed|) < AtLeastOne(depth) {
      TooShallow(trimmed, depth);
    } else {
      var i: nat :| CutsAt(trimmed, depth, i) && r == trimmed[..i] + REST;
      var j: nat :| CutsAt(trimmed, depth, j) && q == trimmed[..j] + REST;
      CutIsUnique(trimmed, depth, i, j);
    }
  }

  lemma {:induction false} SeparatorsOfPrefix(s: seq<Byte>, t: seq<Byte>, n: nat)
    requires n <= |s| && n <= |t| && s[..n] == t[..n]
    ensures Separators(s, n) == Separators(t, n)
  {
    if n > 1 {
      assert s[n - 1] == s[..n][n - 1] == t[n - 1];
      assert s[..n - 1] == s[..n][..n - 1] == t[..n - 1];
      SeparatorsOfPrefix(s, t, n - 1);
    }
  }

  lemma RestShape()
    ensures |REST| == 6 && REST[0] == SLASH && Valid(REST)
    ensures forall k :: 1 <= k < 6 ==> REST[k] != SLASH
  {
    assert "/:rest" == ['/', ':', 'r', 'e', 's', 't'];
    AsciiValid(REST);
  }

  /** A cut path has exactly the permitted separators, its last one in front of the marker. */
  lemma CutShape(trimmed: seq<Byte>, depth: int, i: nat)
    requires CutsAt(trimmed, depth, i)
    ensures var r := trimmed[..i] + REST;
      TrimSlashes(r) == r && CutsAt(r, depth, i) && r[..i] == trimmed[..i] && Separators(r, |r|) == AtLeastOne(depth)
  {
    RestShape();
    var r := trimmed[..i] + REST;
    assert r[|r| - 1] == REST[5];
    assert r[i] == REST[0];
    assert r[..i] == trimmed[..i];
    SeparatorsOfPrefix(r, trimmed, i);
    NoneInRest(r, i, |r|);
  }

  lemma {:induction false} NoneInRest(r: seq<Byte>, i: nat, n: nat)
    requires 1 <= i && i + 1 <= n <= |r| && r[i..] == REST
    ensures Separators(r, n) == Separators(r, i + 1)
  {
    if n > i + 1 {
      NotSlash(r, i, n - 1);
      NoneInRest(r, i, n - 1);
    }
  }

  lemma NotSlash(r: seq<Byte>, i: nat, k: nat)
    requires i < k < |r| && r[i..] == REST
    ensures r[k] != SLASH
  {
    RestShape();
    assert r[k] == r[i..][k - i];
  }

  /** Truncating twice changes nothing more. */
  lemma TruncationIdempotent(path: seq<Byte>, depth: int, r: seq<Byte>)
    requires TruncatesTo(path, depth, r)
    ensures TruncatesTo(r, depth, r)
  {
    if r != path {
      var trimmed := TrimSlashes(path);
      var i: nat :| CutsAt(trimmed, depth, i) && r == trimmed[..i] + REST;
      CutShape(trimmed, depth, i);
      assert CutsAt(TrimSlashes(r), depth, i) && r == TrimSlashes(r)[..i] + REST;
    }
  }

  /** What is left has at most `max(1, depth)` separators, not counting trailing slashes. */
  lemma TruncationBoundsDepth(path: seq<Byte>, depth: int, r: seq<Byte>)
    requires TruncatesTo(path, depth, r)
    ensures Separators(TrimSlashes(r), |TrimSlashes(r)|) <= AtLeastOne(depth)
  {
    var trimmed := TrimSlashes(path);
    if Separators(trimmed, |trimmed|) < AtLeastOne(depth) {
      TooShallow(trimmed, depth);
    } else {
      var i: nat :| CutsAt(trimmed, depth, i) && r == trimmed[..i] + REST;
      CutShape(trimmed, depth, i);
    }
  }

  /** A slash is a rune of its own, so cutting in front of one keeps the encoding intact. */
  lemma TruncationKeepsUtf8(path: seq<Byte>, depth: int, r: seq<Byte>)
    requires Valid(path) && TruncatesTo(path, depth, r)
    ensures Valid(r)
  {
    var trimmed := TrimSlashes(path);
    if r != path {
      var i: nat :| CutsAt(trimmed, depth, i) && r == trimmed[..i] + REST;
      assert path[i] == trimmed[i] == SLASH && path[..i] == trimmed[..i];
      ValidPrefix(path, i);
      RestShape();
      ValidConcat(path[..i], REST);
    }
  }

  // ----- the whole of normalizePath -----

  predicate IsUpper(b: Byte) {
    0x41 <= b <= 0x5A
  }

  /** A control byte, or the backslash of an escaped one, at position i. */
  predicate Garbage(path: seq<Byte>, i: nat)
    requires i < |path|
  {
    path[i] < 0x20 || (path[i] == BACKSLASH && i + 1 < |path| && path[i + 1] == 0x78)
  }

  predicate Contains(s: seq<Byte>, part: seq<Byte>) {
    exists i :: 0 <= i <= |s| - |part| && OccursAt(s, part, i)
  }

  predicate OccursAt(s: seq<Byte>, part: seq<Byte>, i: nat)
    requires i <= |s| - |part|
  {
    s[i..i + |part|] == part
  }

  ghost predicate Rejected(path: seq<Byte>) {
    |path| > MAX_RAW_BYTES || !Valid(path) || exists i :: 0 <= i < |path| && Garbage(path, i)
  }

  ghost predicate HasUpper(path: seq<Byte>) {
    exists i :: 0 <= i < |path| && IsUpper(path[i])
  }

  ghost predicate Scanner(path: seq<Byte>, stages: Stages) {
    exists k :: 0 <= k < |SCANNER_SUFFIXES|
                && Contains(if HasUpper(path) then stages.lower(path) else path, SCANNER_SUFFIXES[k])
  }

  function Capped(out: seq<Byte>): seq<Byte> {
    if |out| > MAX_NORMALIZED_BYTES then Truncated(out, MAX_NORMALIZED_BYTES - |REST|) + REST else out
  }

  ghost predicate NormalizesTo(path: seq<Byte>, stages: Stages, r: seq<Byte>) {
    if Rejected(path) then r == INVALID
    else if Scanner(path, stages) then r == BOT_SCANNERS
    else exists out :: TruncatesTo(stages.rewrite(path, HasUpper(path)), MAX_PATH_DEPTH, out) && r == Capped(out)
  }

  lemma MarkersAreSafe()
    ensures Valid(INVALID) && Valid(BOT_SCANNERS) && |INVALID| == 9 && |BOT_SCANNERS| == 14
  {
    AsciiValid(INVALID);
    AsciiValid(BOT_SCANNERS);
  }

  /** Whatever comes in, a label is valid UTF-8 of at most 240 bytes. */
  lemma LabelIsSafe(path: seq<Byte>, stages: Stages, r: seq<Byte>)
    requires KeepsUtf8(stages) && NormalizesTo(path, stages, r)
    ensures Valid(r) && |r| <= MAX_NORMALIZED_BYTES
  {
    MarkersAreSafe();
    if !Rejected(path) && !Scanner(path, stages) {
      var rewritten := stages.rewrite(path, HasUpper(path));
      var out :| TruncatesTo(rewritten, MAX_PATH_DEPTH, out) && r == Capped(out);
      TruncationKeepsUtf8(rewritten, MAX_PATH_DEPTH, out);
      CappedIsSafe(out);
    }
  }

  /** Capping keeps the encoding, the cap, and all but at most three bytes of what fits. */
  lemma CappedIsSafe(out: seq<Byte>)
    requires Valid(out)
    ensures Valid(Capped(out)) && |Capped(out)| <= MAX_NORMALIZED_BYTES
    ensures |out| > MAX_NORMALIZED_BYTES ==>
      |Capped(out)| >= MAX_NORMALIZED_BYTES - 3 && Capped(out)[..|Capped(out)| - |REST|] <= out
  {
    if |out| > MAX_NORMALIZED_BYTES {
      RestShape();
      var n := MAX_NORMALIZED_BYTES - |REST|;
      TruncatedIsLongest(out, n);
      ValidConcat(Truncated(out, n), REST);
    }
  }

  method FindGarbage(path: seq<Byte>) returns (garbage: bool, hasUpper: bool)
    ensures garbage <==> exists i :: 0 <= i < |path| && Garbage(path, i)
    ensures !garbage ==> hasUpper == HasUpper(path)
  {
    garbage, hasUpper := false, false;
    var i := 0;
    while i < |path|
      invariant 0 <= i <= |path| && !garbage
      invariant forall k :: 0 <= k < i ==> !Garbage(path, k)
      invariant hasUpper <==> exists k :: 0 <= k < i && IsUpper(path[k])
    {
      var c := path[i];
      if c < 0x20 {
        assert Garbage(path, i);
        return true, hasUpper;
      }
      if c == BACKSLASH && i + 1 < |path| && path[i + 1] == 0x78 {
        assert Garbage(path, i);
        return true, hasUpper;
      }
      if 0x41 <= c <= 0x5A {
        hasUpper := true;
        assert IsUpper(path[i]);
      }
      i := i + 1;
    }
  }

  method NormalizePath(path: seq<Byte>, stages: Stages) returns (r: seq<Byte>)
    ensures NormalizesTo(path, stages, r)
  {
    if |path| > MAX_RAW_BYTES {
      return INVALID;
    }
    if !Valid(path) {
      return INVALID;
    }
    var garbage, hasUpper := FindGarbage(path);
    if garbage {
      return INVALID;
    }
    var haystack := path;
    if hasUpper {
      haystack := stages.lower(path);
    }
    var k := 0;
    while k < |SCANNER_SUFFIXES|
      invariant 0 <= k <= |SCANNER_SUFFIXES|
      invariant forall j :: 0 <= j < k ==> !Contains(haystack, SCANNER_SUFFIXES[j])
    {
      if Contains(haystack, SCANNER_SUFFIXES[k]) {
        return BOT_SCANNERS;
      }
      k := k + 1;
    }
    var out := TruncatePath(stages.rewrite(path, hasUpper), MAX_PATH_DEPTH);
    r := out;
    if |out| > MAX_NORMALIZED_BYTES {
      var head := TruncateAtRune(out, MAX_NORMALIZED_BYTES - |REST|);
      r := head + REST;
    }
  }
}
