/**
 * ORDER BY and LIMIT. SQLite leaves the order of rows with equal sort keys
 * unspecified, so a sorted report is specified as a permutation of its unsorted
 * rows that is sorted by the comparator; `SortBy` computes one such permutation.
 */
module Ordering {

  /** `before(a, b)`: row `a` may be listed ahead of row `b`. */
  ghost predicate TotalPreorder<T(!new)>(before: (T, T) -> bool) {
    && (forall a, b :: before(a, b) || before(b, a))
    && (forall a, b, c :: before(a, b) && before(b, c) ==> before(a, c))
  }

  predicate SortedBy<T>(s: seq<T>, before: (T, T) -> bool) {
    forall i, j :: 0 <= i < j < |s| ==> before(s[i], s[j])
  }

  /** Places `x` into the sorted `s`, ahead of the first row it may precede. */
  function InsertBy<T(!new)>(x: T, s: seq<T>, before: (T, T) -> bool): (r: seq<T>)
    requires TotalPreorder(before)
    requires SortedBy(s, before)
    ensures multiset(r) == multiset(s) + multiset{x}
    ensures SortedBy(r, before)
  {
    if s == [] then [x]
    else if before(x, s[0]) then
      assert forall j :: 0 <= j < |s| ==> before(x, s[j]) by {
        forall j | 0 <= j < |s| ensures before(x, s[j]) {
          if j > 0 { assert before(s[0], s[j]); }
        }
      }
      [x] + s
    else
      var rest := InsertBy(x, s[1..], before);
      assert s == [s[0]] + s[1..];
      assert before(s[0], x);
      assert forall j :: 0 <= j < |rest| ==> before(s[0], rest[j]) by {
        forall j | 0 <= j < |rest| ensures before(s[0], rest[j]) {
          assert rest[j] in multiset(rest);
          if rest[j] != x {
            assert rest[j] in multiset(s[1..]);
            var k :| 0 <= k < |s[1..]| && s[1..][k] == rest[j];
            assert s[k + 1] == rest[j];
          }
        }
      }
      [s[0]] + rest
  }

  /** Insertion sort: a permutation of `s` sorted by `before`. */
  function SortBy<T(!new)>(s: seq<T>, before: (T, T) -> bool): (r: seq<T>)
    requires TotalPreorder(before)
    ensures multiset(r) == multiset(s)
    ensures SortedBy(r, before)
  {
    if s == [] then []
    else
      assert s == [s[0]] + s[1..];
      InsertBy(s[0], SortBy(s[1..], before), before)
  }

  /** LIMIT n: the first n rows; a negative limit means no limit, as in SQLite. */
  function Limit<T>(s: seq<T>, n: int): (r: seq<T>)
    ensures n < 0 ==> r == s
    ensures 0 <= n ==> |r| == if n < |s| then n else |s|
    ensures r <= s
  {
    if n < 0 || |s| <= n then s else s[..n]
  }

  /**
   * LIMIT after ORDER BY keeps the leading rows: every row it drops may be listed
   * after every row it keeps.
   */
  lemma LimitKeepsLeaders<T>(s: seq<T>, before: (T, T) -> bool, n: int)
    requires SortedBy(s, before)
    ensures SortedBy(Limit(s, n), before)
    ensures multiset(Limit(s, n)) <= multiset(s)
    ensures forall x, y :: x in Limit(s, n) && y in multiset(s) - multiset(Limit(s, n)) ==> before(x, y)
  {
    var r := Limit(s, n);
    var k := |r|;
    assert r == s[..k];
    assert s == r + s[k..];
    assert multiset(s) == multiset(r) + multiset(s[k..]);
    forall x, y | x in r && y in multiset(s) - multiset(r) ensures before(x, y) {
      assert y in multiset(s[k..]);
      var i :| 0 <= i < k && r[i] == x;
      var j :| 0 <= j < |s| - k && s[k..][j] == y;
      assert s[i] == x && s[k + j] == y;
    }
  }

  /**
   * ORDER BY then LIMIT n: the result is sorted, is drawn from the rows, has the
   * length LIMIT gives, and every row left out may be listed after every row kept.
   */
  lemma TopRows<T(!new)>(s: seq<T>, before: (T, T) -> bool, n: int)
    requires TotalPreorder(before)
    ensures var r := Limit(SortBy(s, before), n);
      && SortedBy(r, before)
      && multiset(r) <= multiset(s)
      && |r| == (if 0 <= n < |s| then n else |s|)
      && forall x, y :: x in r && y in multiset(s) - multiset(r) ==> before(x, y)
  {
    var sorted := SortBy(s, before);
    assert |sorted| == |multiset(sorted)| == |s|;
    LimitKeepsLeaders(sorted, before, n);
  }

  /**
   * The BINARY collation SQLite uses for ORDER BY on text: character by character,
   * a proper prefix first.
   */
  predicate TextLe(a: string, b: string) {
    if a == [] then true
    else if b == [] then false
    else if a[0] != b[0] then a[0] < b[0]
    else TextLe(a[1..], b[1..])
  }

  lemma {:induction false} TextLeTotal(a: string, b: string)
    ensures TextLe(a, b) || TextLe(b, a)
  {
    if a != [] && b != [] && a[0] == b[0] {
      TextLeTotal(a[1..], b[1..]);
    }
  }

  lemma {:induction false} TextLeTransitive(a: string, b: string, c: string)
    requires TextLe(a, b) && TextLe(b, c)
    ensures TextLe(a, c)
  {
    if a != [] && b != [] && c != [] && a[0] == b[0] && b[0] == c[0] {
      TextLeTransitive(a[1..], b[1..], c[1..]);
    }
  }
}
