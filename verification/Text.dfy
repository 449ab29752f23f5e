/** The string helpers the parsers share.  A Go string is a sequence of bytes; a character here stands for one byte. */
module Text {
  predicate HasPrefix(s: string, prefix: string) {
    |prefix| <= |s| && s[..|prefix|] == prefix
  }

  /** `strings.Cut`: what follows the first occurrence of `sep`, if there is one. */
  function CutAfter(s: string, sep: string): (r: (bool, string)) {
    if HasPrefix(s, sep) then (true, s[|sep|..])
    else if s == "" then (false, "")
    else CutAfter(s[1..], sep)
  }

  predicate HasSuffix(s: string, suffix: string) {
    |suffix| <= |s| && s[|s| - |suffix|..] == suffix
  }

  function TrimSuffix(s: string, suffix: string): string {
    if HasSuffix(s, suffix) then s[..|s| - |suffix|] else s
  }

  /** `strings.Split` by one character. */
  function Split(s: string, sep: char): (parts: seq<string>)
    ensures |parts| > 0
  {
    if s == "" then [""]
    else
      var rest := Split(s[1..], sep);
      if s[0] == sep then [""] + rest else [[s[0]] + rest[0]] + rest[1..]
  }

  /** `strings.IndexByte`: the first position of `c`, or -1. */
  function IndexOf(s: string, c: char): (i: int)
    ensures -1 <= i < |s| && (i >= 0 ==> s[i] == c) && (i < 0 ==> c !in s)
    ensures forall k :: 0 <= k < i ==> s[k] != c
  {
    if s == [] then -1
    else if s[0] == c then 0
    else
      var rest := IndexOf(s[1..], c);
      if rest < 0 then -1 else rest + 1
  }

  lemma IndexOfIs(s: string, c: char, i: nat)
    requires i < |s| && s[i] == c && c !in s[..i]
    ensures IndexOf(s, c) == i
  {
    assert s[i] in s;
    assert forall k :: 0 <= k < i ==> s[k] == s[..i][k];
  }

  /** The bytes of one white-space rune, as `unicode.IsSpace` knows them. */
  predicate IsSpace(s: string) {
    || (|s| == 1 && s[0] in "\t\n\U{0B}\U{0C}\r ")
    || (|s| == 2 && s[0] == '\U{C2}' && (s[1] == '\U{85}' || s[1] == '\U{A0}'))
    || (|s| == 3 && s[0] == '\U{E1}' && s[1] == '\U{9A}' && s[2] == '\U{80}')
    || (|s| == 3 && s[0] == '\U{E2}' && s[1] == '\U{80}'
        && ('\U{80}' <= s[2] <= '\U{8A}' || s[2] == '\U{A8}' || s[2] == '\U{A9}' || s[2] == '\U{AF}'))
    || (|s| == 3 && s[0] == '\U{E2}' && s[1] == '\U{81}' && s[2] == '\U{9F}')
    || (|s| == 3 && s[0] == '\U{E3}' && s[1] == '\U{80}' && s[2] == '\U{80}')
  }

  /** How many bytes of white space the string begins with, one rune at most. */
  function LeadingSpace(s: string): (n: nat)
    ensures n <= |s|
  {
    if |s| >= 1 && IsSpace(s[..1]) then 1
    else if |s| >= 2 && IsSpace(s[..2]) then 2
    else if |s| >= 3 && IsSpace(s[..3]) then 3
    else 0
  }

  function TrailingSpace(s: string): (n: nat)
    ensures n <= |s|
  {
    if |s| >= 1 && IsSpace(s[|s| - 1..]) then 1
    else if |s| >= 2 && IsSpace(s[|s| - 2..]) then 2
    else if |s| >= 3 && IsSpace(s[|s| - 3..]) then 3
    else 0
  }

  function TrimLeft(s: string): string
    decreases |s|
  {
    if LeadingSpace(s) > 0 then TrimLeft(s[LeadingSpace(s)..]) else s
  }

  function TrimRight(s: string): string
    decreases |s|
  {
    if TrailingSpace(s) > 0 then TrimRight(s[..|s| - TrailingSpace(s)]) else s
  }

  /** `strings.TrimSpace`. */
  function TrimSpace(s: string): string {
    TrimRight(TrimLeft(s))
  }

  predicate Trimmed(s: string) {
    LeadingSpace(s) == 0 && TrailingSpace(s) == 0
  }

  lemma BlankAndReturnAreSpace()
    ensures IsSpace(" ") && IsSpace("\r")
  {
    assert "\t\n\U{0B}\U{0C}\r "[4] == '\r' && "\t\n\U{0B}\U{0C}\r "[5] == ' ';
  }

  /** A blank in front of trimmed text is all that trimming removes. */
  lemma TrimAfterBlank(s: string)
    requires Trimmed(s)
    ensures TrimSpace(" " + s) == s
  {
    var t := " " + s;
    BlankAndReturnAreSpace();
    assert t[..1] == " " && t[1..] == s;
    assert TrimLeft(t) == TrimLeft(s) == s;
  }

  lemma TrimmedEndsWithoutReturn(s: string)
    requires Trimmed(s) && s != ""
    ensures s[|s| - 1] != '\r'
  {
    BlankAndReturnAreSpace();
    assert s[|s| - 1..] == [s[|s| - 1]];
  }
}
