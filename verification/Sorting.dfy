/** The built-in sort as a function of the order it is given. */
module Sorting {
  import opened Common

  ghost predicate Ascending<T>(s: seq<T>, before: (T, T) -> bool) {
    forall i, j | 0 <= i < j < |s| :: before(s[i], s[j])
  }

  ghost predicate Transitive<T(!new)>(before: (T, T) -> bool) {
    forall x, y, z :: before(x, y) && before(y, z) ==> before(x, z)
  }

  function InsertBy<T>(x: T, s: seq<T>, before: (T, T) -> bool): seq<T> {
    if s == [] || before(x, s[0]) then [x] + s else [s[0]] + InsertBy(x, s[1..], before)
  }

  function SortBy<T>(s: seq<T>, before: (T, T) -> bool): seq<T> {
    if s == [] then [] else InsertBy(s[0], SortBy(s[1..], before), before)
  }

  lemma {:induction false} InsertByAscends<T(!new)>(x: T, s: seq<T>, before: (T, T) -> bool)
    requires Transitive(before) && Ascending(s, before)
    requires forall y <- s :: before(x, y) || before(y, x)
    ensures multiset(InsertBy(x, s, before)) == multiset(s) + multiset{x}
    ensures Ascending(InsertBy(x, s, before), before)
  {
    if s != [] && !before(x, s[0]) {
      assert s == [s[0]] + s[1..];
      InsertByAscends(x, s[1..], before);
      var tail := InsertBy(x, s[1..], before);
      forall j | 0 <= j < |tail| ensures before(s[0], tail[j]) {
        assert tail[j] in multiset(tail);
        assert tail[j] == x || tail[j] in s[1..];
      }
    }
  }

  lemma {:induction false} SortByAscends<T(!new)>(s: seq<T>, before: (T, T) -> bool)
    requires Transitive(before)
    requires forall i, j | 0 <= i < j < |s| :: before(s[i], s[j]) || before(s[j], s[i])
    ensures multiset(SortBy(s, before)) == multiset(s)
    ensures forall x :: x in SortBy(s, before) <==> x in s
    ensures Ascending(SortBy(s, before), before)
  {
    if s != [] {
      assert s == [s[0]] + s[1..];
      SortByAscends(s[1..], before);
      InsertByAscends(s[0], SortBy(s[1..], before), before);
    }
    SameMembers(SortBy(s, before), s);
  }

  // ---------- one result ----------

  ghost predicate Asymmetric<T(!new)>(before: (T, T) -> bool) {
    forall x, y :: before(x, y) ==> !before(y, x)
  }

  /** Two ascending sequences with the same members are equal. */
  lemma {:induction false} AscendingUnique<T(!new)>(a: seq<T>, b: seq<T>, before: (T, T) -> bool)
    requires Asymmetric(before) && Ascending(a, before) && Ascending(b, before)
    requires forall x :: x in a <==> x in b
    ensures a == b
  {
    assert b == [] || b[0] in a;
    if a != [] {
      assert a[0] in b && b[0] in a;
      var j :| 0 <= j < |b| && b[j] == a[0];
      var i :| 0 <= i < |a| && a[i] == b[0];
      assert a[0] == b[0];
      forall x ensures x in a[1..] <==> x in b[1..] {
        assert forall k | 0 < k < |a| :: before(a[0], a[k]);
        assert forall k | 0 < k < |b| :: before(b[0], b[k]);
        assert x in a <==> x == a[0] || x in a[1..];
        assert x in b <==> x == b[0] || x in b[1..];
      }
      AscendingUnique(a[1..], b[1..], before);
    }
  }

  // ---------- numbers, repeats allowed ----------

  predicate NonDecreasing(s: seq<int>) {
    forall i, j | 0 <= i < j < |s| :: s[i] <= s[j]
  }

  lemma SameLeast(a: seq<int>, b: seq<int>)
    requires NonDecreasing(a) && NonDecreasing(b) && multiset(a) == multiset(b) && a != []
    ensures b != [] && a[0] == b[0]
  {
    var k := PermutationWithout(a, b);
    var j := PermutationWithout(b, a);
    assert a[0] <= a[j] && b[0] <= b[k];
  }

  lemma HeadAndRest<T>(s: seq<T>)
    requires s != []
    ensures multiset(s) == multiset(s[1..]) + multiset{s[0]}
  {
    assert s == [s[0]] + s[1..];
  }

  lemma RestPermutes<T>(a: seq<T>, b: seq<T>)
    requires multiset(a) == multiset(b) && a != [] && b != [] && a[0] == b[0]
    ensures multiset(a[1..]) == multiset(b[1..])
  {
    HeadAndRest(a);
    HeadAndRest(b);
    CancelOne(multiset(a[1..]), multiset(b[1..]), a[0]);
  }

  /** Sorting has one result. */
  lemma {:induction false} NonDecreasingUnique(a: seq<int>, b: seq<int>)
    requires NonDecreasing(a) && NonDecreasing(b) && multiset(a) == multiset(b)
    ensures a == b
  {
    if a == [] {
      assert |multiset(b)| == 0;
    } else {
      SameLeast(a, b);
      RestPermutes(a, b);
      NonDecreasingUnique(a[1..], b[1..]);
      assert a == [a[0]] + a[1..] && b == [b[0]] + b[1..];
    }
  }
}
