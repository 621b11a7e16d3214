/**
 * The relational operators the report queries are built from, over sequences of rows:
 * a WHERE clause is `Filter`, an (inner, nested-loop) JOIN is `FlatMap`, and the
 * lemmas below are the algebra the report proofs need (filters distribute over
 * concatenation, commute, and pick out one group of a join).
 */
module Relational {

  /** WHERE p: the rows of `s` that satisfy `p`, in their original order. */
  function Filter<T(!new)>(s: seq<T>, p: T -> bool): (r: seq<T>)
    ensures |r| <= |s|
    ensures forall x :: x in r <==> x in s && p(x)
    ensures multiset(r) <= multiset(s)
  {
    if s == [] then []
    else if p(s[0]) then
      assert s == [s[0]] + s[1..];
      [s[0]] + Filter(s[1..], p)
    else
      assert s == [s[0]] + s[1..];
      Filter(s[1..], p)
  }

  /**
   * Nested-loop join: for each row `x` of `s`, in order, the rows `f(x)` it produces.
   * A row belongs to the result exactly when some row of `s` produces it.
   */
  function FlatMap<A(!new), B(!new)>(s: seq<A>, f: A -> seq<B>): (r: seq<B>)
    ensures forall y :: y in r <==> exists x :: x in s && y in f(x)
  {
    if s == [] then []
    else
      assert forall x :: x in s <==> x == s[0] || x in s[1..];
      f(s[0]) + FlatMap(s[1..], f)
  }

  /** SELECT f(x) FROM s: one output row per row of `s`, in order. */
  function Map<A(!new), B(!new)>(s: seq<A>, f: A -> B): (r: seq<B>)
    ensures |r| == |s|
    ensures forall y :: y in r <==> exists x :: x in s && y == f(x)
  {
    if s == [] then []
    else
      assert forall x :: x in s <==> x == s[0] || x in s[1..];
      [f(s[0])] + Map(s[1..], f)
  }

  lemma {:induction false} FilterConcat<T(!new)>(a: seq<T>, b: seq<T>, p: T -> bool)
    ensures Filter(a + b, p) == Filter(a, p) + Filter(b, p)
  {
    if a == [] {
      assert a + b == b;
    } else {
      assert (a + b)[0] == a[0];
      assert (a + b)[1..] == a[1..] + b;
      FilterConcat(a[1..], b, p);
    }
  }

  /** A filter that every row passes changes nothing. */
  lemma {:induction false} FilterAll<T(!new)>(s: seq<T>, p: T -> bool)
    requires forall x :: x in s ==> p(x)
    ensures Filter(s, p) == s
  {
    if s != [] {
      FilterAll(s[1..], p);
    }
  }

  /** A filter that no row passes leaves nothing. */
  lemma FilterNone<T(!new)>(s: seq<T>, p: T -> bool)
    requires forall x :: x in s ==> !p(x)
    ensures Filter(s, p) == []
  {
    if Filter(s, p) != [] {
      assert Filter(s, p)[0] in Filter(s, p);
    }
  }

  /** Two predicates that agree on every row of `s` select the same rows. */
  lemma {:induction false} FilterCongruent<T(!new)>(s: seq<T>, p: T -> bool, q: T -> bool)
    requires forall x :: x in s ==> (p(x) <==> q(x))
    ensures Filter(s, p) == Filter(s, q)
  {
    if s != [] {
      FilterCongruent(s[1..], p, q);
    }
  }

  /** Two WHERE conditions may be applied in either order. */
  lemma {:induction false} FilterCommute<T(!new)>(s: seq<T>, p: T -> bool, q: T -> bool)
    ensures Filter(Filter(s, p), q) == Filter(Filter(s, q), p)
  {
    if s != [] {
      FilterCommute(s[1..], p, q);
      if p(s[0]) {
        assert Filter(s, p) == [s[0]] + Filter(s[1..], p);
        assert Filter(s, p)[1..] == Filter(s[1..], p);
      }
      if q(s[0]) {
        assert Filter(s, q) == [s[0]] + Filter(s[1..], q);
        assert Filter(s, q)[1..] == Filter(s[1..], q);
      }
    }
  }

  /** When no row produced by the join passes `p`, the filtered join is empty. */
  lemma {:induction false} FilterFlatMapNone<A(!new), B(!new)>(t: seq<A>, f: A -> seq<B>, p: B -> bool)
    requires forall i, y :: 0 <= i < |t| && y in f(t[i]) ==> !p(y)
    ensures Filter(FlatMap(t, f), p) == []
  {
    if t != [] {
      FilterConcat(f(t[0]), FlatMap(t[1..], f), p);
      FilterNone(f(t[0]), p);
      FilterFlatMapNone(t[1..], f, p);
    }
  }

  /**
   * Grouping a join by a key that only the rows produced by `t[k]` carry: the group
   * is exactly the rows `t[k]` produced.
   */
  lemma {:induction false} FilterFlatMapSingle<A(!new), B(!new)>(t: seq<A>, f: A -> seq<B>, p: B -> bool, k: nat)
    requires k < |t|
    requires forall i, y :: 0 <= i < |t| && i != k && y in f(t[i]) ==> !p(y)
    ensures Filter(FlatMap(t, f), p) == Filter(f(t[k]), p)
  {
    FilterConcat(f(t[0]), FlatMap(t[1..], f), p);
    if k == 0 {
      FilterFlatMapNone(t[1..], f, p);
    } else {
      FilterNone(f(t[0]), p);
      FilterFlatMapSingle(t[1..], f, p, k - 1);
    }
  }

  /** A join in which every row produces exactly one row keeps the row count. */
  lemma {:induction false} FlatMapSingletonsLength<A(!new), B(!new)>(s: seq<A>, f: A -> seq<B>)
    requires forall x :: x in s ==> |f(x)| == 1
    ensures |FlatMap(s, f)| == |s|
  {
    if s != [] {
      FlatMapSingletonsLength(s[1..], f);
    }
  }

  lemma FlatMapOne<A(!new), B(!new)>(x: A, f: A -> seq<B>)
    ensures FlatMap([x], f) == f(x)
  {
    assert [x][1..] == [];
  }

  /** A join in which no row produces anything is empty. */
  lemma {:induction false} FlatMapEmpty<A(!new), B(!new)>(s: seq<A>, f: A -> seq<B>)
    requires forall x :: x in s ==> f(x) == []
    ensures FlatMap(s, f) == []
  {
    if s != [] {
      FlatMapEmpty(s[1..], f);
    }
  }

  /** A stricter WHERE clause keeps no more rows. */
  lemma {:induction false} FilterMonotone<T(!new)>(s: seq<T>, p: T -> bool, q: T -> bool)
    requires forall x :: x in s && p(x) ==> q(x)
    ensures |Filter(s, p)| <= |Filter(s, q)|
  {
    if s != [] {
      FilterMonotone(s[1..], p, q);
    }
  }

  /** No row occurs twice. */
  ghost predicate Distinct<T>(s: seq<T>) {
    forall i, j :: 0 <= i < j < |s| ==> s[i] != s[j]
  }

  /** A WHERE clause keeps distinct rows distinct. */
  lemma {:induction false} FilterDistinct<T(!new)>(s: seq<T>, p: T -> bool)
    requires Distinct(s)
    ensures Distinct(Filter(s, p))
  {
    if s != [] {
      assert Distinct(s[1..]);
      FilterDistinct(s[1..], p);
      assert s[0] !in s[1..];
    }
  }

  /**
   * A join of distinct rows stays distinct when each row produces distinct rows and
   * `key` recovers, from every produced row, the row that produced it.
   */
  lemma {:induction false} FlatMapDistinct<A(!new), B(!new)>(s: seq<A>, f: A -> seq<B>, key: B -> A)
    requires Distinct(s)
    requires forall x :: x in s ==> Distinct(f(x))
    requires forall x, y :: x in s && y in f(x) ==> key(y) == x
    ensures Distinct(FlatMap(s, f))
  {
    if s != [] {
      assert Distinct(s[1..]);
      FlatMapDistinct(s[1..], f, key);
      var head, rest := f(s[0]), FlatMap(s[1..], f);
      forall y | y in rest ensures key(y) in s[1..] {
        var x :| x in s[1..] && y in f(x);
        assert x in s;
      }
      assert s[0] !in s[1..];
      assert forall y :: y in head ==> key(y) == s[0];
      DistinctConcat(head, rest);
    }
  }

  lemma DistinctConcat<T>(a: seq<T>, b: seq<T>)
    requires Distinct(a) && Distinct(b)
    requires forall y :: y in a ==> y !in b
    ensures Distinct(a + b)
  {
    forall i, j | 0 <= i < j < |a + b| ensures (a + b)[i] != (a + b)[j] {
      if i < |a| && |a| <= j {
        assert (a + b)[i] in a && (a + b)[j] in b;
      }
    }
  }

  /** A sequence without repetitions has as many rows as distinct elements. */
  lemma {:induction false} DistinctCard<T>(s: seq<T>)
    requires Distinct(s)
    ensures |set x | x in s| == |s|
  {
    if s != [] {
      assert Distinct(s[1..]);
      DistinctCard(s[1..]);
      assert (set x | x in s) == (set x | x in s[1..]) + {s[0]};
      assert s[0] !in s[1..];
    }
  }
}
