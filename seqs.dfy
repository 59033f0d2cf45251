/** Query building blocks over table rows: `WHERE` as a filter, `SUM` as a
    fold, `ORDER BY` on a TEXT column as a sort. */
module Seqs {
  import opened Text

  /** The rows of `xs` that satisfy `keep`, in table order (`WHERE`). */
  function Filter<T(!new)>(xs: seq<T>, keep: T -> bool): (r: seq<T>)
    ensures |r| <= |xs|
    ensures forall x :: x in r <==> x in xs && keep(x)
  {
    if xs == [] then [] else (if keep(xs[0]) then [xs[0]] else []) + Filter(xs[1..], keep)
  }

  /** `WHERE` keeps each row that satisfies the condition exactly as often as
      the table holds it, and no other row. */
  lemma {:induction false} FilterMultiset<T(!new)>(xs: seq<T>, keep: T -> bool)
    ensures forall x :: multiset(Filter(xs, keep))[x] == if keep(x) then multiset(xs)[x] else 0
  {
    if xs != [] {
      FilterMultiset(xs[1..], keep);
      assert xs == [xs[0]] + xs[1..];
    }
  }

  lemma {:induction false} FilterConcat<T(!new)>(a: seq<T>, b: seq<T>, keep: T -> bool)
    ensures Filter(a + b, keep) == Filter(a, keep) + Filter(b, keep)
  {
    if a == [] {
      assert a + b == b;
    } else {
      assert (a + b)[0] == a[0];
      assert (a + b)[1..] == a[1..] + b;
      FilterConcat(a[1..], b, keep);
    }
  }

  lemma FilterSingleton<T(!new)>(x: T, keep: T -> bool)
    ensures Filter([x], keep) == if keep(x) then [x] else []
  {
    assert [x][1..] == [];
  }

  /** `SUM(f)` over the rows, 0 for none (the `or 0` of the queries). */
  /** `SUM(column) or 0`, and Python's `sum(...)`: the total of `f` over the
      rows, and 0 over no rows, where SQL's `SUM` would give NULL. */
  function SumOf<T>(xs: seq<T>, f: T -> int): (r: int)
    ensures xs == [] ==> r == 0
  {
    if xs == [] then 0 else f(xs[0]) + SumOf(xs[1..], f)
  }

  lemma {:induction false} SumOfConcat<T>(a: seq<T>, b: seq<T>, f: T -> int)
    ensures SumOf(a + b, f) == SumOf(a, f) + SumOf(b, f)
  {
    if a == [] {
      assert a + b == b;
    } else {
      assert (a + b)[0] == a[0];
      assert (a + b)[1..] == a[1..] + b;
      SumOfConcat(a[1..], b, f);
    }
  }

  /** A sum does not depend on the order of the rows. */
  lemma {:induction false} SumOfPermutation<T>(a: seq<T>, b: seq<T>, f: T -> int)
    requires multiset(a) == multiset(b)
    ensures SumOf(a, f) == SumOf(b, f)
  {
    if a == [] {
      assert |b| == |multiset(b)| == 0;
    } else {
      assert a[0] in multiset(b);
      var i :| 0 <= i < |b| && b[i] == a[0];
      MultisetWithout(a, b, i);
      SumOfPermutation(a[1..], b[..i] + b[i + 1..], f);
      SumOfWithout(b, i, f);
    }
  }

  /** Taking the same row out of two permutations leaves two permutations. */
  lemma MultisetWithout<T>(a: seq<T>, b: seq<T>, i: int)
    requires a != [] && 0 <= i < |b| && b[i] == a[0]
    requires multiset(a) == multiset(b)
    ensures multiset(a[1..]) == multiset(b[..i] + b[i + 1..])
  {
    var x := a[0];
    var rest := b[..i] + b[i + 1..];
    assert a == [x] + a[1..];
    assert b == b[..i] + [x] + b[i + 1..];
    assert multiset(a) == multiset{x} + multiset(a[1..]);
    assert multiset(b) == multiset(b[..i]) + multiset{x} + multiset(b[i + 1..]);
    assert multiset(rest) == multiset(b[..i]) + multiset(b[i + 1..]);
    forall y
      ensures multiset(a[1..])[y] == multiset(rest)[y]
    {
      assert multiset(a)[y] == multiset{x}[y] + multiset(a[1..])[y];
      assert multiset(b)[y] == multiset(b[..i])[y] + multiset{x}[y] + multiset(b[i + 1..])[y];
    }
  }

  /** The sum of the rows is row `i` plus the sum of the others. */
  lemma SumOfWithout<T>(b: seq<T>, i: int, f: T -> int)
    requires 0 <= i < |b|
    ensures SumOf(b, f) == f(b[i]) + SumOf(b[..i] + b[i + 1..], f)
  {
    var pre, x, post := b[..i], b[i], b[i + 1..];
    assert SumOf([x], f) == f(x) by {
      assert [x][1..] == [];
    }
    assert SumOf(pre + [x], f) == SumOf(pre, f) + f(x) by {
      SumOfConcat(pre, [x], f);
    }
    assert SumOf(b, f) == SumOf(pre + [x], f) + SumOf(post, f) by {
      assert b == (pre + [x]) + post;
      SumOfConcat(pre + [x], post, f);
    }
    SumOfConcat(pre, post, f);
  }

  lemma {:induction false} SumOfNonNegative<T>(xs: seq<T>, f: T -> int)
    requires forall x :: x in xs ==> f(x) >= 0
    ensures SumOf(xs, f) >= 0
  {
    if xs != [] {
      assert forall x :: x in xs[1..] ==> x in xs;
      SumOfNonNegative(xs[1..], f);
    }
  }

  /** Leaving out rows that contribute nothing does not change a sum. */
  lemma {:induction false} SumOfFilterDropsZeros<T(!new)>(xs: seq<T>, keep: T -> bool, f: T -> int)
    requires forall x :: x in xs && !keep(x) ==> f(x) == 0
    ensures SumOf(Filter(xs, keep), f) == SumOf(xs, f)
  {
    if xs != [] {
      assert forall x :: x in xs[1..] ==> x in xs;
      SumOfFilterDropsZeros(xs[1..], keep, f);
      var head := if keep(xs[0]) then [xs[0]] else [];
      SumOfConcat(head, Filter(xs[1..], keep), f);
      if keep(xs[0]) {
        assert SumOf(head, f) == f(xs[0]) by {
          assert head[1..] == [];
        }
      }
    }
  }

  /** A filter that keeps nothing yields no rows. */
  lemma FilterNone<T(!new)>(xs: seq<T>, keep: T -> bool)
    requires forall x :: x in xs ==> !keep(x)
    ensures Filter(xs, keep) == []
  {
  }

  // ---------------------------------------------------------------------
  // ORDER BY on a TEXT column

  /** `a` may come before `b` under `ORDER BY key` (`DESC` when `descending`). */
  predicate InOrder(a: string, b: string, descending: bool) {
    if descending then Le(b, a) else Le(a, b)
  }

  predicate SortedBy<T>(xs: seq<T>, key: T -> string, descending: bool) {
    forall i, j :: 0 <= i < j < |xs| ==> InOrder(key(xs[i]), key(xs[j]), descending)
  }

  lemma InOrderTotal(a: string, b: string, descending: bool)
    ensures InOrder(a, b, descending) || InOrder(b, a, descending)
  {
    LeTotal(a, b);
  }

  lemma InOrderTransitive(a: string, b: string, c: string, descending: bool)
    requires InOrder(a, b, descending) && InOrder(b, c, descending)
    ensures InOrder(a, c, descending)
  {
    if descending {
      LeTransitive(c, b, a);
    } else {
      LeTransitive(a, b, c);
    }
  }

  /** Insert `x` into a sorted sequence, after every row it may not precede. */
  function Insert<T>(x: T, xs: seq<T>, key: T -> string, descending: bool): (r: seq<T>)
    requires SortedBy(xs, key, descending)
    ensures SortedBy(r, key, descending)
    ensures multiset(r) == multiset(xs) + multiset{x}
  {
    if xs == [] then [x]
    else if InOrder(key(x), key(xs[0]), descending) then
      InsertFront(x, xs, key, descending);
      [x] + xs
    else
      var rest := Insert(x, xs[1..], key, descending);
      InsertBehind(x, xs, rest, key, descending);
      [xs[0]] + rest
  }

  lemma InsertFront<T>(x: T, xs: seq<T>, key: T -> string, descending: bool)
    requires xs != [] && SortedBy(xs, key, descending)
    requires InOrder(key(x), key(xs[0]), descending)
    ensures SortedBy([x] + xs, key, descending)
    ensures multiset([x] + xs) == multiset(xs) + multiset{x}
  {
    var r := [x] + xs;
    forall i, j | 0 <= i < j < |r|
      ensures InOrder(key(r[i]), key(r[j]), descending)
    {
      if i == 0 && j > 1 {
        InOrderTransitive(key(x), key(xs[0]), key(xs[j - 1]), descending);
      }
    }
  }

  lemma InsertBehind<T>(x: T, xs: seq<T>, rest: seq<T>, key: T -> string, descending: bool)
    requires xs != [] && SortedBy(xs, key, descending)
    requires !InOrder(key(x), key(xs[0]), descending)
    requires SortedBy(rest, key, descending)
    requires multiset(rest) == multiset(xs[1..]) + multiset{x}
    ensures SortedBy([xs[0]] + rest, key, descending)
    ensures multiset([xs[0]] + rest) == multiset(xs) + multiset{x}
  {
    InOrderTotal(key(x), key(xs[0]), descending);
    var r := [xs[0]] + rest;
    forall j | 0 <= j < |rest|
      ensures InOrder(key(xs[0]), key(rest[j]), descending)
    {
      assert rest[j] in multiset(rest);
      if rest[j] != x {
        assert rest[j] in multiset(xs[1..]);
        var k :| 0 <= k < |xs[1..]| && xs[1..][k] == rest[j];
        assert xs[k + 1] == rest[j];
      }
    }
    forall i, j | 0 <= i < j < |r|
      ensures InOrder(key(r[i]), key(r[j]), descending)
    {
      if i > 0 {
        assert r[i] == rest[i - 1] && r[j] == rest[j - 1];
      } else {
        assert r[j] == rest[j - 1];
      }
    }
    assert xs == [xs[0]] + xs[1..];
  }

  /** `ORDER BY key`: a sorted permutation of the rows. Which of two rows with
      equal keys comes first is not fixed by the store either. */
  function SortBy<T>(xs: seq<T>, key: T -> string, descending: bool): (r: seq<T>)
    ensures SortedBy(r, key, descending)
    ensures multiset(r) == multiset(xs)
  {
    if xs == [] then []
    else
      assert xs == [xs[0]] + xs[1..];
      Insert(xs[0], SortBy(xs[1..], key, descending), key, descending)
  }

  /** Sorting keeps exactly the rows it was given. */
  lemma SortByMembers<T>(xs: seq<T>, key: T -> string, descending: bool)
    ensures forall x :: x in SortBy(xs, key, descending) <==> x in xs
  {
    var r := SortBy(xs, key, descending);
    forall x
      ensures x in r <==> x in xs
    {
      assert x in r <==> x in multiset(r);
      assert x in xs <==> x in multiset(xs);
    }
  }

  lemma SortByLength<T>(xs: seq<T>, key: T -> string, descending: bool)
    ensures |SortBy(xs, key, descending)| == |xs|
  {
    assert |multiset(SortBy(xs, key, descending))| == |multiset(xs)|;
  }
}
