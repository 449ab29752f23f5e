/** UTF-8 as in section 4 of RFC 3629, and the byte-budget cut of internal/topsrv/text.go. */
module Utf8 {
  type Byte = b: int | 0 <= b < 256

  predicate IsTail(b: Byte) {
    0x80 <= b <= 0xBF
  }

  /** `utf8.RuneStart`: everything but a tail byte. */
  predicate RuneStart(b: Byte) {
    !IsTail(b)
  }

  predicate TailsAt(s: seq<Byte>, from: nat, upTo: nat) {
    upTo <= |s| && forall i :: from <= i < upTo ==> IsTail(s[i])
  }

  /** The length of the well-formed rune at the start of `s`; 0 when there is none. */
  function RuneLength(s: seq<Byte>): (n: nat)
    ensures n <= 4 && n <= |s|
  {
    if s == [] then 0
    else
      var b := s[0];
      if b <= 0x7F then 1
      else if 0xC2 <= b <= 0xDF && TailsAt(s, 1, 2) then 2
      else if 0xE0 <= b <= 0xEF && TailsAt(s, 1, 3) && (b == 0xE0 ==> s[1] >= 0xA0) && (b == 0xED ==> s[1] <= 0x9F) then 3
      else if 0xF0 <= b <= 0xF4 && TailsAt(s, 1, 4) && (b == 0xF0 ==> s[1] >= 0x90) && (b == 0xF4 ==> s[1] <= 0x8F) then 4
      else 0
  }

  predicate Valid(s: seq<Byte>) {
    s == [] || (RuneLength(s) > 0 && Valid(s[RuneLength(s)..]))
  }

  /** A rune is a start byte and tails, and it is decided by its own bytes alone. */
  lemma RuneShape(s: seq<Byte>)
    requires RuneLength(s) > 0
    ensures RuneStart(s[0]) && TailsAt(s, 1, RuneLength(s))
    ensures forall j :: RuneLength(s) <= j <= |s| ==> RuneLength(s[..j]) == RuneLength(s)
    ensures forall j :: 0 <= j < RuneLength(s) ==> RuneLength(s[..j]) == 0
  {
  }

  /** Cutting a valid string leaves a valid prefix exactly where a rune starts. */
  lemma {:induction false} ValidPrefix(s: seq<Byte>, k: nat)
    requires Valid(s) && k <= |s|
    ensures Valid(s[..k]) <==> k == |s| || RuneStart(s[k])
    ensures Valid(s[..k]) ==> Valid(s[k..])
    decreases |s|
  {
    if s != [] && k > 0 {
      var n := RuneLength(s);
      RuneShape(s);
      if n <= k {
        ValidPrefix(s[n..], k - n);
        assert s[..k][n..] == s[n..][..k - n] && s[n..][k - n..] == s[k..];
      }
    }
  }

  lemma {:induction false} ValidConcat(a: seq<Byte>, b: seq<Byte>)
    requires Valid(a) && Valid(b)
    ensures Valid(a + b)
    decreases |a|
  {
    if a == [] {
      assert a + b == b;
    } else {
      var n := RuneLength(a);
      ValidConcat(a[n..], b);
      assert (a + b)[..|a|] == a && (a + b)[n..] == a[n..] + b;
      RuneExtends(a, b);
    }
  }

  lemma RuneExtends(a: seq<Byte>, b: seq<Byte>)
    requires RuneLength(a) > 0
    ensures RuneLength(a + b) == RuneLength(a)
  {
  }

  /** No valid string has four tail bytes in a row, so a rune starts within any four positions. */
  lemma {:induction false} StartWithinThree(s: seq<Byte>, k: nat) returns (j: nat)
    requires Valid(s) && k < |s|
    ensures k - 3 <= j <= k && RuneStart(s[j])
    decreases |s|
  {
    var n := RuneLength(s);
    RuneShape(s);
    if k < n {
      j := 0;
    } else {
      j := StartWithinThree(s[n..], k - n);
      j := j + n;
    }
  }

  /** The last position at or before `n` that is 0 or starts a rune. */
  function CutPoint(s: seq<Byte>, n: nat): (k: nat)
    requires n < |s|
    ensures k <= n && (k == 0 || RuneStart(s[k]))
    ensures forall j :: k < j <= n ==> IsTail(s[j])
  {
    if n > 0 && !RuneStart(s[n]) then CutPoint(s, n - 1) else n
  }

  function Truncated(s: seq<Byte>, n: int): seq<Byte> {
    if n >= |s| then s else if n <= 0 then [] else s[..CutPoint(s, n)]
  }

  method TruncateAtRune(s: seq<Byte>, n: int) returns (r: seq<Byte>)
    ensures r == Truncated(s, n)
  {
    if n >= |s| {
      return s;
    }
    if n <= 0 {
      return [];
    }
    var k := n;
    while k > 0 && !RuneStart(s[k])
      invariant 0 <= k <= n && CutPoint(s, n) == CutPoint(s, k)
    {
      k := k - 1;
    }
    r := s[..k];
  }

  /**
   * For valid UTF-8 the result is valid, is the longest valid prefix within the budget, and gives
   * up at most three bytes of it.
   */
  lemma TruncatedIsLongest(s: seq<Byte>, n: nat)
    requires Valid(s)
    ensures Truncated(s, n) <= s && |Truncated(s, n)| <= n && Valid(Truncated(s, n))
    ensures forall j :: |Truncated(s, n)| < j <= n && j <= |s| ==> !Valid(s[..j])
    ensures |Truncated(s, n)| == |s| || n - 3 <= |Truncated(s, n)|
  {
    var r := Truncated(s, n);
    if n >= |s| {
      assert s[..|s|] == s;
    } else {
      var start := StartWithinThree(s, n);
      ValidPrefix(s, |r|);
      forall j | |r| < j <= n
        ensures !Valid(s[..j])
      {
        ValidPrefix(s, j);
      }
    }
  }
}
