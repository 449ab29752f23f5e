/** Lexicographic comparison, the order of `slices.Compare` and of Go's string comparison. */
module Lex {

  /** -1, 0 or +1; a proper prefix is smaller. */
  function Compare(a: seq<int>, b: seq<int>): (c: int)
    ensures c == -1 || c == 0 || c == 1
  {
    if a == [] then (if b == [] then 0 else -1)
    else if b == [] then 1
    else if a[0] < b[0] then -1
    else if a[0] > b[0] then 1
    else Compare(a[1..], b[1..])
  }

  lemma {:induction false} CompareMirrors(a: seq<int>, b: seq<int>)
    ensures Compare(a, b) == -Compare(b, a)
  {
    if a != [] && b != [] {
      CompareMirrors(a[1..], b[1..]);
    }
  }

  lemma {:induction false} CompareZeroIsEqual(a: seq<int>, b: seq<int>)
    ensures Compare(a, b) == 0 <==> a == b
  {
    if a != [] && b != [] {
      CompareZeroIsEqual(a[1..], b[1..]);
      assert a == [a[0]] + a[1..] && b == [b[0]] + b[1..];
    }
  }

  /** With Mirrors this makes `Compare(a, b) <= 0` a total order. */
  lemma {:induction false} CompareTransitive(a: seq<int>, b: seq<int>, c: seq<int>)
    requires Compare(a, b) <= 0 && Compare(b, c) <= 0
    ensures Compare(a, c) <= 0
    ensures Compare(a, b) < 0 || Compare(b, c) < 0 ==> Compare(a, c) < 0
  {
    if a != [] && b != [] && c != [] && a[0] == b[0] == c[0] {
      CompareTransitive(a[1..], b[1..], c[1..]);
    }
  }

  /** A strict decision between equally long prefixes is final. */
  lemma {:induction false} ComparePrefixDecides(a: seq<int>, b: seq<int>, x: seq<int>, y: seq<int>)
    requires |a| == |b| && Compare(a, b) < 0
    ensures Compare(a + x, b + y) < 0
  {
    if a != [] {
      assert (a + x)[1..] == a[1..] + x && (b + y)[1..] == b[1..] + y;
      if a[0] == b[0] {
        ComparePrefixDecides(a[1..], b[1..], x, y);
      }
    }
  }

  /** A common prefix does not matter. */
  lemma {:induction false} CompareSkipsPrefix(p: seq<int>, x: seq<int>, y: seq<int>)
    ensures Compare(p + x, p + y) == Compare(x, y)
  {
    if p == [] {
      assert p + x == x && p + y == y;
    } else {
      assert (p + x)[1..] == p[1..] + x && (p + y)[1..] == p[1..] + y;
      CompareSkipsPrefix(p[1..], x, y);
    }
  }

  function Codes(s: string): seq<int> {
    seq(|s|, i requires 0 <= i < |s| => s[i] as int)
  }

  lemma CodesConcat(s: string, t: string)
    ensures Codes(s + t) == Codes(s) + Codes(t)
  {
  }

  lemma CodesInjective(s: string, t: string)
    requires Codes(s) == Codes(t)
    ensures s == t
  {
    forall i | 0 <= i < |s|
      ensures s[i] == t[i]
    {
      assert Codes(s)[i] == Codes(t)[i];
    }
  }

  /** `strings.Compare`. */
  function CompareStrings(s: string, t: string): (c: int) {
    Compare(Codes(s), Codes(t))
  }

  predicate Less(s: string, t: string) {
    CompareStrings(s, t) < 0
  }

  lemma LessTrichotomy(s: string, t: string)
    ensures Less(s, t) || s == t || Less(t, s)
    ensures !(Less(s, t) && Less(t, s)) && !Less(s, s)
  {
    CompareMirrors(Codes(s), Codes(t));
    CompareZeroIsEqual(Codes(s), Codes(t));
    CompareZeroIsEqual(Codes(s), Codes(s));
    if Codes(s) == Codes(t) {
      CodesInjective(s, t);
    }
  }

  lemma LessTransitive(s: string, t: string, u: string)
    requires Less(s, t) && Less(t, u)
    ensures Less(s, u)
  {
    CompareTransitive(Codes(s), Codes(t), Codes(u));
  }
}
