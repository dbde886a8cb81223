/** List operations that stand in for the repositories' derived queries:
    a WHERE clause is `Filter`, a `findById` is `FindFirst`, an ORDER BY is
    `SortBy`. A query without ORDER BY returns rows in storage order. */
module Sequences {
  import opened Wrappers

  /** The rows of `s` satisfying `p`, in their original order. */
  function Filter<T(!new)>(s: seq<T>, p: T -> bool): (r: seq<T>)
    ensures |r| <= |s|
    ensures forall x :: x in r <==> x in s && p(x)
    ensures forall i :: 0 <= i < |r| ==> p(r[i])
  {
    if |s| == 0 then []
    else
      assert s == [s[0]] + s[1..];
      if p(s[0]) then [s[0]] + Filter(s[1..], p) else Filter(s[1..], p)
  }

  /** `r` holds exactly the rows of `s` that satisfy `p`, each as often as
      it occurs in `s`. */
  ghost predicate Selects<T(!new)>(r: seq<T>, s: seq<T>, p: T -> bool) {
    forall x :: multiset(r)[x] == if p(x) then multiset(s)[x] else 0
  }

  /** A filter keeps every row it selects as often as `s` holds it, and no
      other row. */
  lemma {:induction false} FilterSelects<T(!new)>(s: seq<T>, p: T -> bool)
    ensures Selects(Filter(s, p), s, p)
  {
    if |s| > 0 {
      assert s == [s[0]] + s[1..];
      FilterSelects(s[1..], p);
    }
  }

  /** Sorting the rows a filter selects keeps the same multiplicities: a
      query with WHERE and ORDER BY returns each matching row once per
      stored copy. */
  lemma SortedFilterSelects<T(!new)>(s: seq<T>, p: T -> bool, key: T -> int, dir: Direction)
    ensures Selects(SortBy(Filter(s, p), key, dir), s, p)
  {
    FilterSelects(s, p);
  }

  /** Filtering keeps the relative order of the rows it keeps: it
      distributes over concatenation. */
  lemma {:induction false} FilterConcat<T(!new)>(s: seq<T>, t: seq<T>, p: T -> bool)
    ensures Filter(s + t, p) == Filter(s, p) + Filter(t, p)
  {
    if |s| == 0 {
      assert s + t == t;
    } else {
      assert (s + t)[1..] == s[1..] + t;
      FilterConcat(s[1..], t, p);
    }
  }

  /** A list is empty exactly when nothing is a member of it. */
  lemma EmptyIffNoMembers<T>(s: seq<T>)
    ensures s == [] <==> forall x :: x !in s
  {
    if s != [] {
      assert s[0] in s;
    }
  }

  /** `findById`-style lookup: the first row satisfying `p`, if any. */
  function FindFirst<T(!new)>(s: seq<T>, p: T -> bool): (r: Option<T>)
    ensures r.None? <==> forall x :: x in s ==> !p(x)
    ensures r.Some? ==> r.value in s && p(r.value)
  {
    if |s| == 0 then None
    else if p(s[0]) then Some(s[0])
    else FindFirst(s[1..], p)
  }

  /** The two ORDER BY directions. */
  datatype Direction = Ascending | Descending

  /** `a` may precede `b` in a list ordered by `dir`. */
  predicate InOrder(dir: Direction, a: int, b: int) {
    if dir == Ascending then a <= b else a >= b
  }

  /** Every pair of positions respects the order on `key`. */
  predicate SortedBy<T>(s: seq<T>, key: T -> int, dir: Direction) {
    forall i, j :: 0 <= i < j < |s| ==> InOrder(dir, key(s[i]), key(s[j]))
  }

  /** Inserts `x` before the first row it may precede. */
  function Insert<T>(x: T, s: seq<T>, key: T -> int, dir: Direction): (r: seq<T>)
    ensures multiset(r) == multiset(s) + multiset{x}
    ensures |r| == |s| + 1
  {
    if |s| == 0 then [x]
    else if InOrder(dir, key(x), key(s[0])) then [x] + s
    else
      assert s == [s[0]] + s[1..];
      [s[0]] + Insert(x, s[1..], key, dir)
  }

  lemma {:induction false} InsertSorted<T>(x: T, s: seq<T>, key: T -> int, dir: Direction)
    requires SortedBy(s, key, dir)
    ensures SortedBy(Insert(x, s, key, dir), key, dir)
  {
    var r := Insert(x, s, key, dir);
    if |s| == 0 {
    } else if InOrder(dir, key(x), key(s[0])) {
      assert r == [x] + s;
      forall i, j | 0 <= i < j < |r| ensures InOrder(dir, key(r[i]), key(r[j])) {
        if i == 0 {
          assert r[j] == s[j - 1];
          if j > 1 {
            assert InOrder(dir, key(s[0]), key(s[j - 1]));
          }
        } else {
          assert r[i] == s[i - 1] && r[j] == s[j - 1];
        }
      }
    } else {
      var t := Insert(x, s[1..], key, dir);
      assert r == [s[0]] + t;
      assert SortedBy(s[1..], key, dir) by {
        forall i, j | 0 <= i < j < |s[1..]| ensures InOrder(dir, key(s[1..][i]), key(s[1..][j])) {
          assert s[1..][i] == s[i + 1] && s[1..][j] == s[j + 1];
        }
      }
      InsertSorted(x, s[1..], key, dir);
      forall i, j | 0 <= i < j < |r| ensures InOrder(dir, key(r[i]), key(r[j])) {
        if i == 0 {
          var y := t[j - 1];
          assert r[j] == y;
          assert y in multiset(t);
          assert y == x || y in multiset(s[1..]);
          if y != x {
            var k :| 0 <= k < |s[1..]| && s[1..][k] == y;
            assert s[k + 1] == y;
          }
        } else {
          assert r[i] == t[i - 1] && r[j] == t[j - 1];
        }
      }
    }
  }

  /** A stable insertion sort: the ORDER BY of a query. */
  function SortBy<T(!new)>(s: seq<T>, key: T -> int, dir: Direction): (r: seq<T>)
    ensures multiset(r) == multiset(s)
    ensures |r| == |s|
    ensures forall x :: x in r <==> x in s
    ensures SortedBy(r, key, dir)
  {
    if |s| == 0 then []
    else
      assert s == [s[0]] + s[1..];
      var t := SortBy(s[1..], key, dir);
      InsertSorted(s[0], t, key, dir);
      var r := Insert(s[0], t, key, dir);
      assert forall x :: x in r <==> x in multiset(r);
      r
  }
}
