/**
 * What the handlers' SQL clauses do to a table, stated on sequences of rows:
 * `WHERE` (Filter), `ORDER BY <id> DESC` over a table kept in insertion
 * order (Reverse), and `ORDER BY <key> ASC` (SortByKey).
 */
module Sequences {

  /** Rows in strictly increasing order of `id`: an auto-increment table in insertion order. */
  predicate StrictlyAscending<T>(s: seq<T>, id: T -> int) {
    forall i, j :: 0 <= i < j < |s| ==> id(s[i]) < id(s[j])
  }

  /** Rows in strictly decreasing order of `id`: what `ORDER BY id DESC` returns. */
  predicate StrictlyDescending<T>(s: seq<T>, id: T -> int) {
    forall i, j :: 0 <= i < j < |s| ==> id(s[i]) > id(s[j])
  }

  /** The rows of `s` that satisfy `keep`, in their order in `s`. */
  function Filter<T(!new)>(s: seq<T>, keep: T -> bool): (r: seq<T>)
    ensures |r| <= |s|
    ensures forall x :: x in r <==> x in s && keep(x)
  {
    if s == [] then []
    else
      assert s == [s[0]] + s[1..];
      (if keep(s[0]) then [s[0]] else []) + Filter(s[1..], keep)
  }

  /** A `WHERE` clause keeps the order of the rows it selects. */
  lemma {:induction false} FilterAscending<T(!new)>(s: seq<T>, keep: T -> bool, id: T -> int)
    ensures StrictlyAscending(s, id) ==> StrictlyAscending(Filter(s, keep), id)
  {
    if s != [] && StrictlyAscending(s, id) {
      var rest := Filter(s[1..], keep);
      FilterAscending(s[1..], keep, id);
      forall x | x in rest
        ensures id(s[0]) < id(x)
      {
        var k :| 0 <= k < |s[1..]| && s[1..][k] == x;
        assert s[k + 1] == x;
      }
    }
  }

  /** A `WHERE` clause affects no row exactly when every row satisfies it. */
  lemma {:induction false} FilterKeepsAllIff<T(!new)>(s: seq<T>, keep: T -> bool)
    ensures |Filter(s, keep)| == |s| <==> forall x :: x in s ==> keep(x)
  {
    if s != [] {
      FilterKeepsAllIff(s[1..], keep);
      assert s == [s[0]] + s[1..];
    }
  }

  /** Deleting by a unique key that is present removes exactly one row. */
  lemma {:induction false} FilterDropsOne<T(!new)>(s: seq<T>, keep: T -> bool, id: T -> int, k: int)
    requires StrictlyAscending(s, id)
    requires forall x :: keep(x) <==> id(x) != k
    requires exists x :: x in s && id(x) == k
    ensures |Filter(s, keep)| == |s| - 1
  {
    assert s == [s[0]] + s[1..];
    if id(s[0]) == k {
      forall x | x in s[1..]
        ensures keep(x)
      {
        var j :| 0 <= j < |s[1..]| && s[1..][j] == x;
        assert s[j + 1] == x;
      }
      FilterKeepsAllIff(s[1..], keep);
    } else {
      FilterDropsOne(s[1..], keep, id, k);
    }
  }

  /** In a table kept in strictly ascending order of `id`, `id` identifies a row. */
  lemma AscendingKeyIdentifies<T>(s: seq<T>, id: T -> int, x: T, y: T)
    requires StrictlyAscending(s, id)
    requires x in s && y in s && id(x) == id(y)
    ensures x == y
  {
  }

  /** `s` back to front. */
  function Reverse<T>(s: seq<T>): (r: seq<T>)
    ensures |r| == |s|
    ensures forall i :: 0 <= i < |s| ==> r[i] == s[|s| - 1 - i]
  {
    if s == [] then [] else [s[|s| - 1]] + Reverse(s[..|s| - 1])
  }

  /** Reversing neither adds nor loses a row. */
  lemma ReverseMembers<T>(s: seq<T>)
    ensures forall x :: x in Reverse(s) <==> x in s
  {
  }

  /** A table kept in ascending order reads back in descending order when reversed. */
  lemma ReverseDescending<T>(s: seq<T>, id: T -> int)
    requires StrictlyAscending(s, id)
    ensures StrictlyDescending(Reverse(s), id)
  {
  }

  /** `ORDER BY id DESC` determines its result: two descending sequences with
      the same rows are the same sequence. */
  lemma {:induction false} DescendingUnique<T>(a: seq<T>, b: seq<T>, id: T -> int)
    requires StrictlyDescending(a, id) && StrictlyDescending(b, id)
    requires forall x :: x in a <==> x in b
    ensures a == b
    decreases |a|
  {
    assert |a| > 0 ==> a[0] in b;
    assert |b| > 0 ==> b[0] in a;
    if a != [] && b != [] {
      var i :| 0 <= i < |a| && a[i] == b[0];
      var j :| 0 <= j < |b| && b[j] == a[0];
      assert id(a[0]) >= id(a[i]);
      assert id(b[0]) >= id(b[j]);
      assert j == 0;
      forall x
        ensures x in a[1..] <==> x in b[1..]
      {
        if x in a[1..] {
          var k :| 0 <= k < |a[1..]| && a[1..][k] == x;
          assert id(a[k + 1]) < id(a[0]);
          assert x in b && x != b[0];
          var m :| 0 <= m < |b| && b[m] == x;
          assert m != 0;
          assert b[1..][m - 1] == x;
        }
        if x in b[1..] {
          var k :| 0 <= k < |b[1..]| && b[1..][k] == x;
          assert id(b[k + 1]) < id(b[0]);
          assert x in a && x != a[0];
          var m :| 0 <= m < |a| && a[m] == x;
          assert m != 0;
          assert a[1..][m - 1] == x;
        }
      }
      DescendingUnique(a[1..], b[1..], id);
      assert a == [a[0]] + a[1..] && b == [b[0]] + b[1..];
    }
  }

  /** Lexicographic order on integer sequences: strings compared character by character. */
  predicate LexLe(a: seq<int>, b: seq<int>) {
    a == [] || (b != [] && (a[0] < b[0] || (a[0] == b[0] && LexLe(a[1..], b[1..]))))
  }

  lemma {:induction false} LexLeTotal(a: seq<int>, b: seq<int>)
    ensures LexLe(a, b) || LexLe(b, a)
  {
    if a != [] && b != [] && a[0] == b[0] {
      LexLeTotal(a[1..], b[1..]);
    }
  }

  lemma {:induction false} LexLeTransitive(a: seq<int>, b: seq<int>, c: seq<int>)
    requires LexLe(a, b) && LexLe(b, c)
    ensures LexLe(a, c)
  {
    if a != [] && a[0] == b[0] && b[0] == c[0] {
      LexLeTransitive(a[1..], b[1..], c[1..]);
    }
  }

  /** Every pair of rows is in ascending order of `key`. */
  predicate SortedByKey<T>(s: seq<T>, key: T -> seq<int>) {
    forall i, j :: 0 <= i < j < |s| ==> LexLe(key(s[i]), key(s[j]))
  }

  /** `x` placed before the first row whose key is not smaller. */
  function InsertByKey<T(==)>(x: T, s: seq<T>, key: T -> seq<int>): (r: seq<T>)
    ensures multiset(r) == multiset(s) + multiset{x}
  {
    if s == [] || LexLe(key(x), key(s[0])) then [x] + s
    else
      assert s == [s[0]] + s[1..];
      [s[0]] + InsertByKey(x, s[1..], key)
  }

  lemma {:induction false} InsertByKeySorted<T>(x: T, s: seq<T>, key: T -> seq<int>)
    requires SortedByKey(s, key)
    ensures SortedByKey(InsertByKey(x, s, key), key)
  {
    var r := InsertByKey(x, s, key);
    if s == [] {
    } else if LexLe(key(x), key(s[0])) {
      forall j | 1 < j < |r|
        ensures LexLe(key(r[0]), key(r[j]))
      {
        LexLeTransitive(key(x), key(s[0]), key(s[j - 1]));
      }
    } else {
      LexLeTotal(key(x), key(s[0]));
      var rest := InsertByKey(x, s[1..], key);
      InsertByKeySorted(x, s[1..], key);
      forall j | 0 <= j < |rest|
        ensures LexLe(key(s[0]), key(rest[j]))
      {
        assert rest[j] in multiset(rest);
        if rest[j] != x {
          assert rest[j] in multiset(s[1..]);
          var k :| 0 <= k < |s[1..]| && s[1..][k] == rest[j];
          assert s[k + 1] == rest[j];
        }
      }
      assert r == [s[0]] + rest;
    }
  }

  /** `ORDER BY key ASC`: the rows of `s`, each pair in ascending key order. */
  function SortByKey<T(==)>(s: seq<T>, key: T -> seq<int>): (r: seq<T>)
    ensures multiset(r) == multiset(s)
    ensures SortedByKey(r, key)
  {
    if s == [] then []
    else
      var rest := SortByKey(s[1..], key);
      InsertByKeySorted(s[0], rest, key);
      assert s == [s[0]] + s[1..];
      InsertByKey(s[0], rest, key)
  }
}
