/** Result types shared by the modules of this project. */
module Common {
  datatype Option<+T> = None | Some(value: T)

  datatype Result<+T, +E> = Ok(value: T) | Err(error: E)

  lemma TwicePresent<T>(s: seq<T>, i: nat, j: nat)
    requires i < j < |s| && s[i] == s[j]
    ensures multiset(s)[s[i]] >= 2
  {
    assert s == s[..j] + [s[j]] + s[j + 1..];
    assert s[..j][i] == s[i];
    assert s[i] in multiset(s[..j]);
  }

  lemma {:induction false} OncePresent<T>(s: seq<T>, x: T)
    requires forall i, j | 0 <= i < j < |s| && s[i] == x :: s[j] != x
    ensures multiset(s)[x] <= 1
  {
    if s != [] {
      var n := |s| - 1;
      OncePresent(s[..n], x);
      assert s == s[..n] + [s[n]];
      if x == s[n] {
        assert x !in s[..n];
        assert x !in multiset(s[..n]);
      }
    }
  }

  // ---------- permutations ----------

  function Mapped<T, U>(s: seq<T>, f: T -> U): (r: seq<U>)
    ensures |r| == |s|
  {
    seq(|s|, i requires 0 <= i < |s| => f(s[i]))
  }

  lemma CancelOne<T>(a: multiset<T>, b: multiset<T>, x: T)
    requires a + multiset{x} == b + multiset{x}
    ensures a == b
  {
    assert a == (a + multiset{x}) - multiset{x} && b == (b + multiset{x}) - multiset{x};
  }

  lemma WithoutOne<T>(s: seq<T>, k: nat)
    requires k < |s|
    ensures multiset(s) == multiset(s[..k] + s[k + 1..]) + multiset{s[k]}
  {
    assert s == s[..k] + [s[k]] + s[k + 1..];
  }

  lemma MappedWithoutOne<T, U>(s: seq<T>, k: nat, f: T -> U)
    requires k < |s|
    ensures multiset(Mapped(s, f)) == multiset(Mapped(s[..k] + s[k + 1..], f)) + multiset{f(s[k])}
  {
    var images := Mapped(s, f);
    assert images[..k] + images[k + 1..] == Mapped(s[..k] + s[k + 1..], f);
    WithoutOne(images, k);
  }

  lemma PermutationWithout<T>(a: seq<T>, b: seq<T>) returns (k: nat)
    requires multiset(a) == multiset(b) && a != []
    ensures k < |b| && b[k] == a[0] && multiset(a[1..]) == multiset(b[..k] + b[k + 1..])
  {
    assert a[0] in multiset(b);
    k :| 0 <= k < |b| && b[k] == a[0];
    assert a[..0] + a[1..] == a[1..];
    WithoutOne(a, 0);
    WithoutOne(b, k);
    CancelOne(multiset(a[1..]), multiset(b[..k] + b[k + 1..]), a[0]);
  }

  /** Images of a permutation are a permutation of the images. */
  lemma {:induction false} MappedPermutes<T, U>(a: seq<T>, b: seq<T>, f: T -> U)
    requires multiset(a) == multiset(b)
    ensures multiset(Mapped(a, f)) == multiset(Mapped(b, f))
  {
    if a == [] {
      assert |multiset(b)| == 0;
    } else {
      var k := PermutationWithout(a, b);
      MappedPermutes(a[1..], b[..k] + b[k + 1..], f);
      assert a[..0] + a[1..] == a[1..];
      MappedWithoutOne(a, 0, f);
      MappedWithoutOne(b, k, f);
    }
  }

  lemma SameMembers<T>(s: seq<T>, s': seq<T>)
    requires multiset(s) == multiset(s')
    ensures forall x :: x in s <==> x in s'
  {
    forall x ensures x in s <==> x in s' {
      assert x in s <==> x in multiset(s);
      assert x in s' <==> x in multiset(s');
    }
  }

  lemma NextPrefix<T>(s: seq<T>, i: nat)
    requires i < |s|
    ensures s[..i + 1] == s[..i] + [s[i]]
  {
  }

  lemma Associate<T>(a: seq<T>, b: seq<T>, c: seq<T>)
    ensures a + (b + c) == (a + b) + c
  {
  }

  // ---------- joined texts ----------

  function UpTo(t: string, separator: char): nat
    requires separator in t
  {
    if t[0] == separator then 0 else 1 + UpTo(t[1..], separator)
  }

  lemma {:induction false} UpToJoin(a: string, b: string, separator: char)
    requires separator !in a
    ensures UpTo(a + [separator] + b, separator) == |a|
  {
    if a == [] {
      assert (a + [separator] + b)[0] == separator;
    } else {
      UpToJoin(a[1..], b, separator);
      assert (a + [separator] + b)[0] == a[0];
      assert (a + [separator] + b)[1..] == a[1..] + [separator] + b;
    }
  }

  /** Two texts joined by a separator neither left part contains come from the same parts. */
  lemma JoinInjective(a: string, b: string, a': string, b': string, separator: char)
    requires separator !in a && separator !in a'
    requires a + [separator] + b == a' + [separator] + b'
    ensures a == a' && b == b'
  {
    UpToJoin(a, b, separator);
    UpToJoin(a', b', separator);
    var t, t' := a + [separator] + b, a' + [separator] + b';
    assert a == t[..|a|] && a' == t'[..|a'|];
    assert b == t[|a| + 1..] && b' == t'[|a'| + 1..];
  }
}
