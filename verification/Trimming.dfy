/** Keeping the last few of a sorted list, for any order. */
module Trimming {
  ghost predicate SortedBy<T>(le: (T, T) -> bool, order: seq<T>) {
    forall i, j :: 0 <= i < j < |order| ==> le(order[i], order[j])
  }

  /** A permutation of the set. */
  ghost predicate Arranges<T(!new)>(order: seq<T>, names: set<T>) {
    |order| == |names| && forall x :: x in order <==> x in names
  }

  ghost function AtLeast<T>(le: (T, T) -> bool, names: set<T>, name: T): set<T> {
    set x | x in names && x != name && le(name, x)
  }

  lemma {:induction false} CoverNeedsLength<T(!new)>(order: seq<T>, names: set<T>)
    requires forall x :: x in names ==> x in order
    ensures |names| <= |order|
    decreases |order|
  {
    if order == [] {
      assert names == {};
    } else {
      CoverNeedsLength(order[1..], names - {order[0]});
    }
  }

  lemma {:induction false} Distinct<T(!new)>(order: seq<T>, names: set<T>)
    requires Arranges(order, names)
    ensures forall i, j :: 0 <= i < j < |order| ==> order[i] != order[j]
    decreases |order|
  {
    if order != [] {
      var x := order[0];
      if x in order[1..] {
        assert forall y :: y in order[1..] <==> y in names;
        CoverNeedsLength(order[1..], names);
        assert false;
      }
      assert forall y :: y in order[1..] <==> y in names - {x};
      Distinct(order[1..], names - {x});
    }
  }

  function FirstOf<T>(order: seq<T>, n: nat): set<T>
    requires n <= |order|
  {
    var cut := order[..n];
    set x | x in cut
  }

  lemma FirstSnoc<T>(order: seq<T>, n: nat)
    requires n < |order|
    ensures FirstOf(order, n + 1) == FirstOf(order, n) + {order[n]}
  {
    assert order[..n + 1] == order[..n] + [order[n]];
  }

  function Oldest<T>(order: seq<T>, keep: nat): set<T>
    requires keep <= |order|
  {
    FirstOf(order, |order| - keep)
  }

  /** Membership in the trimmed part is a matter of position. */
  lemma OldestByPosition<T(!new)>(order: seq<T>, names: set<T>, keep: nat, k: nat)
    requires Arranges(order, names) && keep <= |order| && k < |order|
    ensures order[k] in Oldest(order, keep) <==> k < |order| - keep
  {
    Distinct(order, names);
    var cut := order[..|order| - keep];
    if k < |order| - keep {
      assert cut[k] == order[k];
    } else {
      forall i | 0 <= i < |cut|
        ensures cut[i] != order[k]
      {
      }
    }
  }

  lemma TwoMembers<T>(s: set<T>, a: T, b: T)
    requires a in s && b in s && a != b
    ensures |s| >= 2
  {
    assert s == {a, b} + (s - {a, b});
    assert |s| == |{a, b}| + |s - {a, b}|;
  }

  /** With at most one other element at least as high, an element is among the last two. */
  lemma KeptWhenFewAbove<T(!new)>(le: (T, T) -> bool, order: seq<T>, names: set<T>, name: T)
    requires Arranges(order, names) && SortedBy(le, order) && name in names && |order| >= 2
    requires |AtLeast(le, names, name)| <= 1
    ensures name !in Oldest(order, 2)
  {
    var k :| 0 <= k < |order| && order[k] == name;
    OldestByPosition(order, names, 2, k);
    if k < |order| - 2 {
      Distinct(order, names);
      var a, b := order[|order| - 2], order[|order| - 1];
      assert a in order && b in order;
      TwoMembers(AtLeast(le, names, name), a, b);
    }
  }

  /** With two others that are not below it, in no way equal, an element is trimmed. */
  lemma LostWhenTwoAbove<T(!new)>(le: (T, T) -> bool, order: seq<T>, names: set<T>, name: T, a: T, b: T)
    requires Arranges(order, names) && SortedBy(le, order)
    requires name in names && a in names && b in names && a != b && a != name && b != name
    requires !le(a, name) && !le(b, name)
    ensures |order| > 2 && name in Oldest(order, 2)
  {
    var k :| 0 <= k < |order| && order[k] == name;
    var i :| 0 <= i < |order| && order[i] == a;
    var j :| 0 <= j < |order| && order[j] == b;
    assert k < i && k < j;
    OldestByPosition(order, names, 2, k);
  }

  /** What is trimmed is never above what is kept. */
  lemma TrimmedBelowKept<T(!new)>(le: (T, T) -> bool, order: seq<T>, names: set<T>, keep: nat, x: T, y: T)
    requires Arranges(order, names) && SortedBy(le, order) && keep <= |order|
    requires x in Oldest(order, keep) && y in names - Oldest(order, keep)
    ensures le(x, y)
  {
    var i :| 0 <= i < |order| - keep && order[..|order| - keep][i] == x;
    var j :| 0 <= j < |order| && order[j] == y;
    OldestByPosition(order, names, keep, j);
  }

  lemma OldestCount<T(!new)>(order: seq<T>, names: set<T>, keep: nat)
    requires Arranges(order, names) && keep <= |order|
    ensures Oldest(order, keep) <= names && |names - Oldest(order, keep)| == keep
  {
    Distinct(order, names);
    var cut := order[..|order| - keep];
    assert forall x :: x in cut ==> x in order;
    ArrangedSize(cut);
    assert |names| == |names - Oldest(order, keep)| + |Oldest(order, keep)|;
  }

  lemma {:induction false} ArrangedSize<T(!new)>(s: seq<T>)
    requires forall i, j :: 0 <= i < j < |s| ==> s[i] != s[j]
    ensures |set x | x in s| == |s|
    decreases |s|
  {
    if s != [] {
      ArrangedSize(s[1..]);
      assert (set x | x in s) == {s[0]} + (set x | x in s[1..]);
    }
  }

  // ----- which orders a sort may produce -----

  /** On these elements the comparison is total and transitive; different elements may tie. */
  ghost predicate Preorders<T(!new)>(le: (T, T) -> bool, names: set<T>) {
    && (forall a, b :: a in names && b in names ==> le(a, b) || le(b, a))
    && (forall a, b, c :: a in names && b in names && c in names && le(a, b) && le(b, c) ==> le(a, c))
  }

  ghost predicate Lowest<T>(le: (T, T) -> bool, x: T, names: set<T>) {
    x in names && forall y :: y in names ==> le(x, y)
  }

  lemma {:induction false} LowestExists<T(!new)>(le: (T, T) -> bool, names: set<T>) returns (x: T)
    requires Preorders(le, names) && names != {}
    ensures Lowest(le, x, names)
    decreases |names|
  {
    x :| x in names;
    var rest := names - {x};
    assert forall y :: y in names ==> y == x || y in rest;
    if rest != {} {
      var low := LowestExists(le, rest);
      if le(low, x) {
        x := low;
      }
    }
  }

  /** Some order of the elements is sorted. */
  lemma {:induction false} SortExists<T(!new)>(le: (T, T) -> bool, names: set<T>) returns (order: seq<T>)
    requires Preorders(le, names)
    ensures Arranges(order, names) && SortedBy(le, order)
    decreases |names|
  {
    if names == {} {
      order := [];
    } else {
      var x := LowestExists(le, names);
      var rest := SortExists(le, names - {x});
      assert forall y :: y in rest ==> y in names;
      order := [x] + rest;
    }
  }

  lemma JoinArranged<T(!new)>(a: seq<T>, b: seq<T>, low: set<T>, high: set<T>)
    requires Arranges(a, low) && Arranges(b, high) && low !! high
    ensures Arranges(a + b, low + high)
  {
  }

  lemma JoinSorted<T>(le: (T, T) -> bool, a: seq<T>, b: seq<T>)
    requires SortedBy(le, a) && SortedBy(le, b) && forall x, y :: x in a && y in b ==> le(x, y)
    ensures SortedBy(le, a + b)
  {
    forall i, j | 0 <= i < j < |a + b|
      ensures le((a + b)[i], (a + b)[j])
    {
      if i < |a| <= j {
        assert a[i] in a && b[j - |a|] in b;
      }
    }
  }

  lemma SortedInThree<T(!new)>(le: (T, T) -> bool, names: set<T>, name: T, low: seq<T>, high: seq<T>)
    requires Preorders(le, names) && name in names && SortedBy(le, low) && SortedBy(le, high)
    requires forall x :: x in low ==> x in names && x !in AtLeast(le, names, name)
    requires forall y :: y in high ==> y in AtLeast(le, names, name)
    ensures SortedBy(le, low + [name] + high)
  {
    JoinSorted(le, low, [name]);
    forall x, y | x in low + [name] && y in high
      ensures le(x, y)
    {
      assert x in low ==> le(x, name);
    }
    JoinSorted(le, low + [name], high);
  }

  /** Among the sorted orders there is one that puts every element at least as high after this one. */
  lemma SortedWithTiesAfter<T(!new)>(le: (T, T) -> bool, names: set<T>, name: T) returns (order: seq<T>, k: nat)
    requires Preorders(le, names) && name in names
    ensures Arranges(order, names) && SortedBy(le, order)
    ensures k < |order| && order[k] == name && |order| == k + 1 + |AtLeast(le, names, name)|
  {
    var above := AtLeast(le, names, name);
    var below := names - above - {name};
    var low := SortExists(le, below);
    var high := SortExists(le, above);
    order, k := low + [name] + high, |low|;
    SortedInThree(le, names, name, low, high);
    assert below + {name} + above == names;
    JoinArranged(low, [name], below, {name});
    JoinArranged(low + [name], high, below + {name}, above);
  }

  /** With two others at least as high, some sorted order has the element trimmed. */
  lemma LostInSomeOrder<T(!new)>(le: (T, T) -> bool, names: set<T>, name: T) returns (order: seq<T>)
    requires Preorders(le, names) && name in names && |AtLeast(le, names, name)| >= 2
    ensures Arranges(order, names) && SortedBy(le, order) && |order| > 2 && name in Oldest(order, 2)
  {
    var k;
    order, k := SortedWithTiesAfter(le, names, name);
    OldestByPosition(order, names, 2, k);
  }
}
