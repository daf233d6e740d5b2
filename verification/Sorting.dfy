/**
  Python's `list.sort` and `sorted`: a stable sort. The modules that sort pages,
  page starts and listing rows rely on the facts proved here.
 */
module Sorting {

  /** Insert in front of the first element that is not smaller: equal elements keep their order. */
  function Insert<T>(x: T, s: seq<T>, le: (T, T) -> bool): seq<T> {
    if s == [] then [x]
    else if le(x, s[0]) then [x] + s
    else [s[0]] + Insert(x, s[1..], le)
  }

  function Sort<T>(s: seq<T>, le: (T, T) -> bool): seq<T> {
    if s == [] then [] else Insert(s[0], Sort(s[1..], le), le)
  }

  ghost predicate Sorted<T>(s: seq<T>, le: (T, T) -> bool) {
    forall i, j :: 0 <= i < j < |s| ==> le(s[i], s[j])
  }

  ghost predicate TotalPreorder<T(!new)>(le: (T, T) -> bool) {
    && (forall x, y :: le(x, y) || le(y, x))
    && (forall x, y, z :: le(x, y) && le(y, z) ==> le(x, z))
  }

  ghost predicate AntiSymmetric<T(!new)>(le: (T, T) -> bool) {
    forall x, y :: le(x, y) && le(y, x) ==> x == y
  }

  lemma {:induction false} InsertPermutes<T>(x: T, s: seq<T>, le: (T, T) -> bool)
    ensures multiset(Insert(x, s, le)) == multiset(s) + multiset{x}
  {
    if s != [] {
      assert s == [s[0]] + s[1..];
      if !le(x, s[0]) {
        InsertPermutes(x, s[1..], le);
      }
    }
  }

  lemma {:induction false} SortPermutes<T>(s: seq<T>, le: (T, T) -> bool)
    ensures multiset(Sort(s, le)) == multiset(s)
  {
    if s != [] {
      SortPermutes(s[1..], le);
      InsertPermutes(s[0], Sort(s[1..], le), le);
      assert s == [s[0]] + s[1..];
    }
  }

  lemma SameElements<T>(a: seq<T>, b: seq<T>)
    requires multiset(a) == multiset(b)
    ensures |a| == |b|
    ensures forall x :: x in a <==> x in b
  {
    assert |multiset(a)| == |a| && |multiset(b)| == |b|;
    forall x ensures x in a <==> x in b {
      assert x in a <==> x in multiset(a);
      assert x in b <==> x in multiset(b);
    }
  }

  lemma {:induction false} InsertSorts<T(!new)>(x: T, s: seq<T>, le: (T, T) -> bool)
    requires TotalPreorder(le) && Sorted(s, le)
    ensures Sorted(Insert(x, s, le), le)
  {
    if s != [] && !le(x, s[0]) {
      var rest := Insert(x, s[1..], le);
      InsertSorts(x, s[1..], le);
      InsertPermutes(x, s[1..], le);
      forall y | y in rest ensures le(s[0], y) {
        assert y in multiset(rest);
        assert y == x || y in s[1..];
      }
      assert forall i :: 0 <= i < |rest| ==> rest[i] in rest;
    }
  }

  lemma {:induction false} SortSorts<T(!new)>(s: seq<T>, le: (T, T) -> bool)
    requires TotalPreorder(le)
    ensures Sorted(Sort(s, le), le)
  {
    if s != [] {
      SortSorts(s[1..], le);
      InsertSorts(s[0], Sort(s[1..], le), le);
    }
  }

  /** Two sorted permutations begin alike: each head is nowhere later than the other. */
  lemma SameHead<T(!new)>(a: seq<T>, b: seq<T>, le: (T, T) -> bool)
    requires TotalPreorder(le) && AntiSymmetric(le) && a != [] && b != []
    requires Sorted(a, le) && Sorted(b, le) && b[0] in a && a[0] in b
    ensures a[0] == b[0]
  {
    var i :| 0 <= i < |a| && a[i] == b[0];
    var j :| 0 <= j < |b| && b[j] == a[0];
    if i > 0 && j > 0 {
      assert le(a[0], a[i]) && le(b[0], b[j]);
    }
  }

  lemma TailMultiset<T>(s: seq<T>)
    requires s != []
    ensures multiset(s[1..]) == multiset(s) - multiset{s[0]}
  {
    assert s == [s[0]] + s[1..];
  }

  /** Under an antisymmetric order a sorted permutation is unique. */
  lemma {:induction false} SortedUnique<T(!new)>(a: seq<T>, b: seq<T>, le: (T, T) -> bool)
    requires TotalPreorder(le) && AntiSymmetric(le)
    requires Sorted(a, le) && Sorted(b, le)
    requires multiset(a) == multiset(b)
    ensures a == b
  {
    SameElements(a, b);
    if a != [] {
      assert a[0] in b && b[0] in a;
      SameHead(a, b, le);
      TailMultiset(a);
      TailMultiset(b);
      SortedUnique(a[1..], b[1..], le);
      assert a == [a[0]] + a[1..] && b == [b[0]] + b[1..];
    }
  }

  /** What is sorted already stays as it is. */
  lemma {:induction false} SortOfSorted<T>(s: seq<T>, le: (T, T) -> bool)
    requires Sorted(s, le)
    ensures Sort(s, le) == s
  {
    if s != [] {
      SortOfSorted(s[1..], le);
      if |s| > 1 {
        assert le(s[0], s[1]);
      }
    }
  }

  /** `a` before `b` by `first`, and by `second` where `first` does not decide. */
  ghost predicate LexLe<T>(first: (T, T) -> bool, second: (T, T) -> bool, a: T, b: T) {
    first(a, b) && (first(b, a) ==> second(a, b))
  }

  ghost predicate LexSorted<T>(s: seq<T>, first: (T, T) -> bool, second: (T, T) -> bool) {
    forall i, j :: 0 <= i < j < |s| ==> LexLe(first, second, s[i], s[j])
  }

  /** The part of a preorder the insertion needs, at the elements it needs it for. */
  lemma LexFromHead<T(!new)>(x: T, y: T, z: T, first: (T, T) -> bool, second: (T, T) -> bool)
    requires TotalPreorder(first)
    requires first(x, y) && LexLe(first, second, y, z) && second(x, z)
    ensures LexLe(first, second, x, z)
  {
  }

  lemma ConsLexSorted<T>(x: T, s: seq<T>, first: (T, T) -> bool, second: (T, T) -> bool)
    requires LexSorted(s, first, second)
    requires forall y :: y in s ==> LexLe(first, second, x, y)
    ensures LexSorted([x] + s, first, second)
  {
    var r := [x] + s;
    forall i, j | 0 <= i < j < |r| ensures LexLe(first, second, r[i], r[j]) {
      assert r[j] == s[j - 1] && s[j - 1] in s;
      if i > 0 {
        assert r[i] == s[i - 1];
      }
    }
  }

  lemma {:induction false} InsertStable<T(!new)>(x: T, s: seq<T>, first: (T, T) -> bool, second: (T, T) -> bool)
    requires TotalPreorder(first)
    requires LexSorted(s, first, second)
    requires forall y :: y in s ==> second(x, y)
    ensures LexSorted(Insert(x, s, first), first, second)
  {
    if s == [] {
    } else if first(x, s[0]) {
      forall y | y in s ensures LexLe(first, second, x, y) {
        var i :| 0 <= i < |s| && s[i] == y;
        if i > 0 {
          assert LexLe(first, second, s[0], s[i]);
          LexFromHead(x, s[0], y, first, second);
        }
      }
      ConsLexSorted(x, s, first, second);
    } else {
      var rest := Insert(x, s[1..], first);
      assert forall y :: y in s[1..] ==> y in s;
      InsertStable(x, s[1..], first, second);
      InsertPermutes(x, s[1..], first);
      forall y | y in rest ensures LexLe(first, second, s[0], y) {
        assert y in multiset(rest);
        if y != x {
          assert y in s[1..];
          var i :| 0 <= i < |s[1..]| && s[1..][i] == y;
          assert LexLe(first, second, s[0], s[i + 1]);
        }
      }
      ConsLexSorted(s[0], rest, first, second);
    }
  }

  /** Sorting by `first` what is already sorted by `second` sorts by both: the stable two-pass sort. */
  lemma {:induction false} SortStable<T(!new)>(s: seq<T>, first: (T, T) -> bool, second: (T, T) -> bool)
    requires TotalPreorder(first)
    requires Sorted(s, second)
    ensures LexSorted(Sort(s, first), first, second)
  {
    if s != [] {
      SortStable(s[1..], first, second);
      SortPermutes(s[1..], first);
      SameElements(Sort(s[1..], first), s[1..]);
      forall y | y in Sort(s[1..], first) ensures second(s[0], y) {
        var i :| 0 <= i < |s[1..]| && s[1..][i] == y;
        assert second(s[0], s[i + 1]);
      }
      InsertStable(s[0], Sort(s[1..], first), first, second);
    }
  }
}
