/** Facts about sequences and sets, and the ascending listing of a finite set under a strict total order. */
module Listings {
  lemma ConcatAssociative<T>(a: seq<T>, b: seq<T>, c: seq<T>)
    ensures a + (b + c) == (a + b) + c
  {
  }

  lemma ConcatNothing<T>(s: seq<T>)
    ensures [] + s == s == s + []
  {
  }

  lemma WholeSlice<T>(s: seq<T>)
    ensures s[0..] == s == s[..|s|]
  {
  }

  lemma ConsConcat<T>(a: seq<T>, b: seq<T>)
    requires a != []
    ensures a + b == [a[0]] + (a[1..] + b)
  {
  }

  lemma SliceHead<T>(s: seq<T>, i: nat)
    requires i < |s|
    ensures s[i..][0] == s[i] && s[i..][1..] == s[i + 1..]
  {
  }

  lemma SubsetSize<T>(a: set<T>, b: set<T>)
    requires a <= b
    ensures |a| <= |b|
  {
    assert b == a + (b - a);
    assert |b| == |a| + |b - a|;
  }

  ghost predicate StrictTotal<T(!new)>(lt: (T, T) -> bool) {
    && (forall a, b :: lt(a, b) || a == b || lt(b, a))
    && (forall a, b :: !(lt(a, b) && lt(b, a)))
    && (forall a, b, c :: lt(a, b) && lt(b, c) ==> lt(a, c))
  }

  ghost predicate Ascending<T>(lt: (T, T) -> bool, s: seq<T>) {
    forall i, j :: 0 <= i < j < |s| ==> lt(s[i], s[j])
  }

  ghost predicate IsListing<T(!new)>(lt: (T, T) -> bool, s: seq<T>, of: set<T>) {
    Ascending(lt, s) && |s| == |of| && forall x :: x in s <==> x in of
  }

  ghost predicate IsLeast<T>(lt: (T, T) -> bool, x: T, names: set<T>) {
    x in names && forall y :: y in names && y != x ==> lt(x, y)
  }

  lemma {:induction false} LeastExists<T(!new)>(lt: (T, T) -> bool, names: set<T>)
    requires StrictTotal(lt) && names != {}
    ensures exists x :: IsLeast(lt, x, names)
    decreases |names|
  {
    var x :| x in names;
    var rest := names - {x};
    if rest == {} {
      assert names == {x};
      assert IsLeast(lt, x, names);
    } else {
      LeastExists(lt, rest);
      var y :| IsLeast(lt, y, rest);
      if lt(x, y) {
        assert IsLeast(lt, x, names);
      } else {
        assert IsLeast(lt, y, names);
      }
    }
  }

  /** What a glob followed by a sort returns. */
  ghost function Listing<T(!new)>(lt: (T, T) -> bool, names: set<T>): (r: seq<T>)
    requires StrictTotal(lt)
    ensures IsListing(lt, r, names)
    decreases |names|
  {
    if names == {} then []
    else
      LeastExists(lt, names);
      var x :| IsLeast(lt, x, names);
      var rest := Listing(lt, names - {x});
      assert forall k :: 0 <= k < |rest| ==> rest[k] in rest;
      [x] + rest
  }

  lemma {:induction false} ListingUnique<T(!new)>(lt: (T, T) -> bool, a: seq<T>, b: seq<T>, names: set<T>)
    requires StrictTotal(lt) && IsListing(lt, a, names) && IsListing(lt, b, names)
    ensures a == b
    decreases |a|
  {
    if a != [] {
      assert a[0] in a && b[0] in b;
      var i :| 0 <= i < |b| && b[i] == a[0];
      var j :| 0 <= j < |a| && a[j] == b[0];
      assert a[0] == b[0];
      TailIsListing(lt, a, names);
      TailIsListing(lt, b, names);
      ListingUnique(lt, a[1..], b[1..], names - {a[0]});
      assert a == [a[0]] + a[1..] && b == [b[0]] + b[1..];
    }
  }

  lemma TailIsListing<T(!new)>(lt: (T, T) -> bool, a: seq<T>, names: set<T>)
    requires StrictTotal(lt) && IsListing(lt, a, names) && a != []
    ensures IsListing(lt, a[1..], names - {a[0]})
  {
    forall x
      ensures x in a[1..] <==> x in names - {a[0]}
    {
      if x in a[1..] {
        var k :| 1 <= k < |a| && a[k] == x;
        assert lt(a[0], a[k]);
      } else if x in a {
        assert a == [a[0]] + a[1..];
      }
    }
  }

  lemma AppendToListing<T(!new)>(lt: (T, T) -> bool, a: seq<T>, names: set<T>, x: T)
    requires StrictTotal(lt) && IsListing(lt, a, names) && x !in names
    requires forall y :: y in a ==> lt(y, x)
    ensures IsListing(lt, a + [x], names + {x})
  {
    forall i | 0 <= i < |a|
      ensures lt(a[i], x)
    {
      assert a[i] in a;
    }
  }

  /** A selection sort half way: `files` lists what is not in `rest`, all of it before all of `rest`. */
  ghost predicate Selecting<T(!new)>(lt: (T, T) -> bool, files: seq<T>, names: set<T>, rest: set<T>) {
    && rest <= names && IsListing(lt, files, names - rest)
    && forall x, y :: x in files && y in rest ==> lt(x, y)
  }

  lemma SelectNext<T(!new)>(lt: (T, T) -> bool, files: seq<T>, names: set<T>, rest: set<T>, x: T)
    requires StrictTotal(lt) && Selecting(lt, files, names, rest) && IsLeast(lt, x, rest)
    ensures Selecting(lt, files + [x], names, rest - {x})
  {
    AppendToListing(lt, files, names - rest, x);
    assert names - (rest - {x}) == (names - rest) + {x};
  }

  lemma SelectionDone<T(!new)>(lt: (T, T) -> bool, files: seq<T>, names: set<T>)
    requires StrictTotal(lt) && Selecting(lt, files, names, {})
    ensures files == Listing(lt, names)
  {
    assert names - {} == names;
    ListingUnique(lt, files, Listing(lt, names), names);
  }
}
