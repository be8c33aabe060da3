module Wrappers {
  datatype Option<+T> = None | Some(value: T)

  datatype Result<+T, +E> = Success(value: T) | Failure(error: E)

  /** A JavaScript number over exact reals. */
  datatype Num = Finite(x: real) | NotFinite

  /** `Math.round`: the nearest integer, a half upwards. */
  function Round(x: real): (n: int)
    ensures n as real - 0.5 <= x < n as real + 0.5
  {
    (x + 0.5).Floor
  }
}

/** Bounds on a quotient as bounds on the dividend. */
module Quotients {

  lemma QuotientAtLeast(y: real, w: real, a: real)
    requires w > 0.0 && a <= y / w
    ensures w * a <= y
  {
  }

  lemma QuotientBelow(y: real, w: real, b: real)
    requires w > 0.0 && y / w < b
    ensures y < w * b
  {
  }
}

/**
  What `Array.prototype.sort` and Python's `sorted` promise: the result is sorted,
  is a permutation, and keeps elements that compare equal in their original order.
  The function is an insertion sort, but `SortIsOnlyStableSort` shows that the
  promise alone determines the result, so any stable algorithm computes it.
 */
module Sorting {

  ghost predicate TotalPreorder<T(!new)>(le: (T, T) -> bool) {
    && (forall x, y :: le(x, y) || le(y, x))
    && (forall x, y, z :: le(x, y) && le(y, z) ==> le(x, z))
  }

  ghost predicate Sorted<T>(s: seq<T>, le: (T, T) -> bool) {
    forall i, j :: 0 <= i < j < |s| ==> le(s[i], s[j])
  }

  function Insert<T>(x: T, s: seq<T>, le: (T, T) -> bool): (r: seq<T>)
    ensures |r| == |s| + 1
  {
    if s == [] || le(x, s[0]) then [x] + s else [s[0]] + Insert(x, s[1..], le)
  }

  function Sort<T>(s: seq<T>, le: (T, T) -> bool): (r: seq<T>)
    ensures |r| == |s|
  {
    if s == [] then [] else Insert(s[0], Sort(s[1..], le), le)
  }

  /** The elements of `s` that compare equal to `x`, in order. */
  function Ties<T>(s: seq<T>, x: T, le: (T, T) -> bool): seq<T> {
    if s == [] then []
    else (if le(x, s[0]) && le(s[0], x) then [s[0]] else []) + Ties(s[1..], x, le)
  }

  /** Being sorted and stable determines the result. */
  lemma SortIsOnlyStableSort<T(!new)>(s: seq<T>, t: seq<T>, le: (T, T) -> bool)
    requires TotalPreorder(le) && Sorted(t, le)
    requires forall x :: Ties(t, x, le) == Ties(s, x, le)
    ensures t == Sort(s, le)
  {
    SortSorts(s, le);
    forall x ensures Ties(t, x, le) == Ties(Sort(s, le), x, le) {
      SortStable(s, le, x);
    }
    SortedByTies(t, Sort(s, le), le);
  }

  /** When no two different elements of it tie, the order of the input does not matter. */
  lemma {:induction false} SortedUnique<T(!new)>(a: seq<T>, b: seq<T>, le: (T, T) -> bool)
    requires TotalPreorder(le) && Sorted(a, le) && Sorted(b, le)
    requires multiset(a) == multiset(b)
    requires forall x, y | x in a && y in a && le(x, y) && le(y, x) :: x == y
    ensures a == b
  {
    if a == [] {
      assert |multiset(b)| == 0;
    } else {
      LeastFirst(a, b, le);
      LeastFirst(b, a, le);
      RestAgrees(a, b);
      assert forall x | x in a[1..] :: x in a;
      SortedUnique(a[1..], b[1..], le);
    }
  }

  lemma {:induction false} SortSorts<T(!new)>(s: seq<T>, le: (T, T) -> bool)
    requires TotalPreorder(le)
    ensures Sorted(Sort(s, le), le)
    ensures multiset(Sort(s, le)) == multiset(s)
  {
    if s != [] {
      SortSorts(s[1..], le);
      InsertSorted(s[0], Sort(s[1..], le), le);
      assert s == [s[0]] + s[1..];
    }
  }

  lemma {:induction false} SortStable<T(!new)>(s: seq<T>, le: (T, T) -> bool, y: T)
    requires TotalPreorder(le)
    ensures Ties(Sort(s, le), y, le) == Ties(s, y, le)
  {
    if s != [] {
      SortStable(s[1..], le, y);
      InsertTies(s[0], Sort(s[1..], le), le, y);
      assert ([s[0]] + Sort(s[1..], le))[1..] == Sort(s[1..], le);
    }
  }

  lemma {:induction false} InsertSorted<T(!new)>(x: T, s: seq<T>, le: (T, T) -> bool)
    requires TotalPreorder(le) && Sorted(s, le)
    ensures Sorted(Insert(x, s, le), le)
    ensures multiset(Insert(x, s, le)) == multiset{x} + multiset(s)
  {
    if s == [] || le(x, s[0]) {
    } else {
      InsertSorted(x, s[1..], le);
      var t := Insert(x, s[1..], le);
      assert s == [s[0]] + s[1..];
      forall y | y in t ensures le(s[0], y) {
        assert y in multiset(t);
      }
    }
  }

  lemma {:induction false} InsertTies<T(!new)>(x: T, s: seq<T>, le: (T, T) -> bool, y: T)
    requires TotalPreorder(le)
    ensures Ties(Insert(x, s, le), y, le) == Ties([x] + s, y, le)
  {
    if s == [] || le(x, s[0]) {
    } else {
      InsertTies(x, s[1..], le, y);
      assert ([x] + s)[1..] == s && ([x] + s[1..])[1..] == s[1..];
      assert ([s[0]] + Insert(x, s[1..], le))[1..] == Insert(x, s[1..], le);
    }
  }

  lemma {:induction false} TiesMember<T>(s: seq<T>, x: T, le: (T, T) -> bool, y: T)
    requires y in Ties(s, x, le)
    ensures y in s && le(x, y) && le(y, x)
  {
    if s != [] && !(le(x, s[0]) && le(s[0], x) && y == s[0]) {
      TiesMember(s[1..], x, le, y);
    }
  }

  lemma {:induction false} MemberTies<T>(s: seq<T>, x: T, le: (T, T) -> bool, y: T)
    requires y in s && le(x, y) && le(y, x)
    ensures y in Ties(s, x, le)
  {
    if s[0] != y {
      MemberTies(s[1..], x, le, y);
    }
  }

  /** Two sorted sequences with the same ties, in the same order, are equal. */
  lemma {:induction false} SortedByTies<T(!new)>(a: seq<T>, b: seq<T>, le: (T, T) -> bool)
    requires TotalPreorder(le) && Sorted(a, le) && Sorted(b, le)
    requires forall x :: Ties(a, x, le) == Ties(b, x, le)
    ensures a == b
  {
    forall x | x in b ensures x in a {
      MemberTies(b, x, le, x);
      TiesMember(a, x, le, x);
    }
    assert b == [] || b[0] in b;
    if a != [] {
      MemberTies(a, a[0], le, a[0]);
      TiesMember(b, a[0], le, a[0]);
      MemberTies(b, b[0], le, b[0]);
      TiesMember(a, b[0], le, b[0]);
      assert le(a[0], b[0]) && le(b[0], a[0]);
      assert Ties(a, a[0], le)[0] == a[0];
      assert Ties(b, a[0], le)[0] == b[0];
      forall x ensures Ties(a[1..], x, le) == Ties(b[1..], x, le) {
        assert Ties(a, x, le) == Ties(b, x, le);
        if le(x, a[0]) && le(a[0], x) {
          assert Ties(a[1..], x, le) == Ties(a, x, le)[1..];
          assert Ties(b[1..], x, le) == Ties(b, x, le)[1..];
        } else {
          assert Ties(a[1..], x, le) == Ties(a, x, le);
          assert Ties(b[1..], x, le) == Ties(b, x, le);
        }
      }
      SortedByTies(a[1..], b[1..], le);
    }
  }

  lemma SortOfSorted<T(!new)>(s: seq<T>, le: (T, T) -> bool)
    requires TotalPreorder(le) && Sorted(s, le)
    ensures Sort(s, le) == s
  {
    SortIsOnlyStableSort(s, s, le);
  }

  lemma LeastFirst<T(!new)>(a: seq<T>, b: seq<T>, le: (T, T) -> bool)
    requires TotalPreorder(le) && Sorted(a, le) && Sorted(b, le) && a != []
    requires multiset(a) == multiset(b)
    ensures b != [] && le(a[0], b[0]) && b[0] in a
  {
    assert a[0] in multiset(b);
    assert b[0] in multiset(a);
    var j :| 0 <= j < |a| && a[j] == b[0];
    assert le(a[0], a[0]);
  }

  lemma RestAgrees<T>(a: seq<T>, b: seq<T>)
    requires multiset(a) == multiset(b) && a != [] && b != [] && a[0] == b[0]
    ensures multiset(a[1..]) == multiset(b[1..])
  {
    assert a == [a[0]] + a[1..] && b == [b[0]] + b[1..];
    assert multiset(a[1..]) == multiset(a) - multiset{a[0]};
    assert multiset(b[1..]) == multiset(b) - multiset{b[0]};
  }
}

/**
  Weighted sums over sequences. A weight that is 1 on some elements and 0 on the
  others turns a sum into a count, so the same few lemmas serve counting,
  conservation and termination measures.
 */
module Sums {

  function Sum<T>(s: seq<T>, f: T -> nat): nat {
    if s == [] then 0 else f(s[0]) + Sum(s[1..], f)
  }

  lemma {:induction false} SumAppend<T>(a: seq<T>, b: seq<T>, f: T -> nat)
    ensures Sum(a + b, f) == Sum(a, f) + Sum(b, f)
  {
    if a == [] {
      assert a + b == b;
    } else {
      assert (a + b)[1..] == a[1..] + b;
      SumAppend(a[1..], b, f);
    }
  }

  /** Splits a sum around one position. */
  lemma SumSplit<T>(s: seq<T>, i: nat, f: T -> nat)
    requires i < |s|
    ensures Sum(s, f) == Sum(s[..i], f) + f(s[i]) + Sum(s[i + 1..], f)
  {
    assert s == s[..i] + s[i..];
    SumAppend(s[..i], s[i..], f);
    assert s[i..][1..] == s[i + 1..];
  }

  lemma SumUpdate<T>(s: seq<T>, i: nat, x: T, f: T -> nat)
    requires i < |s|
    ensures Sum(s[i := x], f) + f(s[i]) == Sum(s, f) + f(x)
  {
    SumSplit(s, i, f);
    SumSplit(s[i := x], i, f);
    assert s[i := x][..i] == s[..i] && s[i := x][i + 1..] == s[i + 1..];
  }

  lemma SumRemove<T>(s: seq<T>, i: nat, f: T -> nat)
    requires i < |s|
    ensures Sum(s[..i] + s[i + 1..], f) + f(s[i]) == Sum(s, f)
  {
    SumSplit(s, i, f);
    SumAppend(s[..i], s[i + 1..], f);
  }

  lemma SumPush<T>(s: seq<T>, x: T, f: T -> nat)
    ensures Sum(s + [x], f) == Sum(s, f) + f(x)
  {
    SumAppend(s, [x], f);
  }

  /** A positive sum has a positive term. */
  lemma {:induction false} SumWitness<T>(s: seq<T>, f: T -> nat) returns (i: nat)
    requires Sum(s, f) > 0
    ensures i < |s| && f(s[i]) > 0
  {
    if f(s[0]) > 0 {
      i := 0;
    } else {
      i := SumWitness(s[1..], f);
      i := i + 1;
    }
  }

  lemma SumAtLeast<T>(s: seq<T>, i: nat, f: T -> nat)
    requires i < |s|
    ensures f(s[i]) <= Sum(s, f)
  {
    SumSplit(s, i, f);
  }

  lemma {:induction false} SumMonotone<T>(s: seq<T>, f: T -> nat, g: T -> nat)
    requires forall x | x in s :: f(x) <= g(x)
    ensures Sum(s, f) <= Sum(s, g)
  {
    if s != [] {
      SumMonotone(s[1..], f, g);
    }
  }

  lemma SumEqual<T>(s: seq<T>, f: T -> nat, g: T -> nat)
    requires forall x | x in s :: f(x) == g(x)
    ensures Sum(s, f) == Sum(s, g)
  {
    SumMonotone(s, f, g);
    SumMonotone(s, g, f);
  }

  lemma {:induction false} SumPlus<T>(s: seq<T>, f: T -> nat, g: T -> nat, h: T -> nat)
    requires forall x | x in s :: h(x) == f(x) + g(x)
    ensures Sum(s, h) == Sum(s, f) + Sum(s, g)
  {
    if s != [] {
      SumPlus(s[1..], f, g, h);
    }
  }

  lemma {:induction false} SumOnes<T>(s: seq<T>, f: T -> nat)
    requires forall x | x in s :: f(x) == 1
    ensures Sum(s, f) == |s|
  {
    if s != [] {
      SumOnes(s[1..], f);
    }
  }

  lemma {:induction false} SumZero<T>(s: seq<T>, f: T -> nat)
    requires forall x | x in s :: f(x) == 0
    ensures Sum(s, f) == 0
  {
    if s != [] {
      SumZero(s[1..], f);
    }
  }

  /** Elements that are all different occur at most once. */
  lemma {:induction false} AtMostOnce<T>(s: seq<T>, x: T)
    requires forall i, j :: 0 <= i < j < |s| ==> s[i] != s[j]
    ensures multiset(s)[x] <= 1
  {
    if s != [] {
      AtMostOnce(s[1..], x);
      assert s == [s[0]] + s[1..];
      if x == s[0] {
        assert x !in s[1..];
      }
    }
  }

  lemma CountCons<T>(first: T, rest: seq<T>, x: T)
    ensures multiset([first] + rest)[x] == (if first == x then 1 else 0) + multiset(rest)[x]
  {
  }

  /** An element at two places occurs twice. */
  lemma AtLeastTwice<T>(s: seq<T>, i: nat, j: nat)
    requires i < j < |s| && s[i] == s[j]
    ensures multiset(s)[s[i]] >= 2
  {
    assert s == s[..j] + s[j..];
    assert s[i] == s[..j][i] && s[j] == s[j..][0];
    assert s[i] in multiset(s[..j]) && s[j] in multiset(s[j..]);
  }

  /** A sum does not depend on the order of its terms. */
  lemma {:induction false} SumPermutation<T>(a: seq<T>, b: seq<T>, f: T -> nat)
    requires multiset(a) == multiset(b)
    ensures Sum(a, f) == Sum(b, f)
    decreases |a|
  {
    if a == [] {
      assert |multiset(b)| == 0;
    } else {
      assert a[0] in multiset(b);
      var i :| 0 <= i < |b| && b[i] == a[0];
      RemoveOne(a, b, i);
      SumPermutation(a[1..], b[..i] + b[i + 1..], f);
      SumRemove(b, i, f);
    }
  }

  lemma RemoveOne<T>(a: seq<T>, b: seq<T>, i: nat)
    requires multiset(a) == multiset(b) && a != [] && i < |b| && b[i] == a[0]
    ensures multiset(a[1..]) == multiset(b[..i] + b[i + 1..])
  {
    assert a == [a[0]] + a[1..];
    assert b == b[..i] + [b[i]] + b[i + 1..];
    assert multiset(a[1..]) == multiset(a) - multiset{a[0]};
    assert multiset(b[..i] + b[i + 1..]) == multiset(b) - multiset{a[0]};
  }
}
