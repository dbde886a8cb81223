/** The `from`/`size` paging of the listing endpoints: the services compute
    `PageRequest.of(from / size, size)` with Java's `int` division, and the
    repository returns that page of the ordered result. */
module Paging {
  import opened Wrappers
  import opened Sequences

  /** Java `int` division: the quotient is truncated toward zero. */
  function JavaDiv(a: int, b: int): (q: int)
    requires b != 0
    ensures b > 0 && a >= 0 ==> q == a / b && q >= 0
    ensures b > 0 && -b < a < 0 ==> q == 0
    ensures b > 0 && a <= -b ==> q < 0
  {
    var m := if a < 0 then -a else a;
    var n := if b < 0 then -b else b;
    var d := m / n;
    QuotientBounds(m, n);
    if (a < 0) != (b < 0) then -d else d
  }

  lemma QuotientBounds(m: int, n: int)
    requires m >= 0 && n > 0
    ensures m / n >= 0
    ensures m < n ==> m / n == 0
    ensures m >= n ==> m / n >= 1
  {
    assert m == (m / n) * n + m % n;
  }

  /** The page `from / size` of a window with a non-negative `from`: the
      page whose rows include row `from`. */
  function WindowPage(from: int, size: int): (p: nat)
    requires from >= 0 && size > 0
    ensures Offset(p, size) <= from < Offset(p, size) + size
    ensures from < size ==> p == 0
  {
    QuotientBounds(from, size);
    assert from == (from / size) * size + from % size;
    from / size
  }

  /** `PageRequest.of(from / size, size)`: division by zero throws an
      ArithmeticException; a negative page index or a size below one throws an
      IllegalArgumentException. Neither is mapped to an HTTP status. */
  function PageIndex(from: int, size: int): (r: Result<nat>)
    ensures r.Ok? <==> size > 0 && from > -size
    ensures r.Err? ==> r.error == Unhandled
    ensures r.Ok? && from >= 0 ==> r.value == from / size
    ensures r.Ok? && from < 0 ==> r.value == 0
  {
    if size == 0 then Err(Unhandled)
    else
      var page := JavaDiv(from, size);
      if page < 0 || size < 1 then Err(Unhandled) else Ok(page)
  }

  /** The offset a page index denotes. */
  function Offset(page: nat, size: int): int {
    page * size
  }

  /** Rows `page * size` up to `page * size + size` of `s`, as far as they exist. */
  function Page<T>(s: seq<T>, page: nat, size: int): (r: seq<T>)
    requires size > 0
    ensures |r| == if Offset(page, size) >= |s| then 0
                   else if |s| - Offset(page, size) < size then |s| - Offset(page, size)
                   else size
    ensures forall i :: 0 <= i < |r| ==> r[i] == s[Offset(page, size) + i]
  {
    var lo := if Offset(page, size) < |s| then Offset(page, size) else |s|;
    var hi := if lo + size < |s| then lo + size else |s|;
    s[lo..hi]
  }

  /** A page is a slice of the rows it is taken from. */
  lemma PageIsSubset<T>(s: seq<T>, page: nat, size: int)
    requires size > 0
    ensures forall x :: x in Page(s, page, size) ==> x in s
  {
    var r := Page(s, page, size);
    forall x | x in r ensures x in s {
      var i :| 0 <= i < |r| && r[i] == x;
      assert s[Offset(page, size) + i] == x;
    }
  }

  /** For a non-negative `from`, the page starts at `from` rounded down to a
      multiple of `size`, not at `from` itself. */
  lemma PageStartsAtRoundedFrom(from: int, size: int)
    requires from >= 0 && size > 0
    ensures PageIndex(from, size).Ok?
    ensures Offset(PageIndex(from, size).value, size) == from - from % size
  {
    assert PageIndex(from, size).value == from / size;
    assert from == (from / size) * size + from % size;
  }

  /** A negative `from` above `-size` passes the division unguarded and
      reads the first page. */
  lemma NegativeFromReadsFirstPage(from: int, size: int)
    requires size > 0 && -size < from < 0
    ensures PageIndex(from, size) == Ok(0)
  {
  }

  /** The first page of a list no longer than `size` is the whole list. */
  lemma FirstPageIsWholeShortList<T>(s: seq<T>, size: int)
    requires size > 0 && |s| <= size
    ensures Page(s, 0, size) == s
  {
  }

  /** Row `i` is on the page that `from == i` reads. */
  lemma RowOnItsPage<T>(s: seq<T>, i: int, size: int)
    requires 0 <= i < |s| && size > 0
    ensures PageIndex(i, size).Ok?
    ensures s[i] in Page(s, PageIndex(i, size).value, size)
  {
    PageStartsAtRoundedFrom(i, size);
    var page := PageIndex(i, size).value;
    var r := Page(s, page, size);
    assert Offset(page, size) == i - i % size;
    assert 0 <= i % size < |r|;
    assert r[i % size] == s[i];
  }

  /** A page of an ordered list is ordered the same way. */
  lemma PageKeepsOrder<T>(s: seq<T>, page: nat, size: int, key: T -> int, dir: Direction)
    requires size > 0 && SortedBy(s, key, dir)
    ensures SortedBy(Page(s, page, size), key, dir)
  {
    var r := Page(s, page, size);
    var off := Offset(page, size);
    forall a, b | 0 <= a < b < |r| ensures InOrder(dir, key(r[a]), key(r[b])) {
      assert r[a] == s[off + a] && r[b] == s[off + b];
    }
  }
}
